/** The idle sweep takes its keys (src/store.rs:1013-1050): however the cursor stood,
    twice round the slots leaves no expired key but those whose debt may not be
    recorded, which were charged from the sketch and still owe. */
module ShardSweep {
  import opened Units
  import opened Probe
  import opened RecoveryTable
  import opened KeyLaws
  import opened Shard
  import ShardHints
  import opened ShardSteps
  import opened ShardPasses
  import ShardSafety
  import ShardRuns
  import opened ShardRefusal
  import opened ShardClock

  /** The sweep has no business with the slot. */
  ghost predicate Stays<S(!new)>(o: KeyOps<S>, x: Slot<S>, now: nat, ttl: nat) {
    Expired(x, Millis(now), Some(ttl)) ==> x.seeded && o.debt(x.state, now).Some?
  }

  /** Nor with any of the first `n`. */
  ghost predicate Swept<S(!new)>(c: Config<S>, slots: seq<Slot<S>>, n: nat, now: nat, ttl: nat) {
    forall p: nat {:trigger slots[p]} :: p < n && p < |slots| ==> Stays(c.ops, slots[p], now, ttl)
  }

  lemma RefreshedStays<S(!new)>(c: Config<S>, sh: Shard<S>, pos: nat, now: nat, ttl: nat)
    requires Lawful(c.ops) && now < c.ops.horizon <= LAST && AllFine(c, sh, now) && pos < |sh.slots|
    ensures Stays(c.ops, sh.slots[pos], now, ttl) ==> Stays(c.ops, Refreshed(c.ops, sh.slots[pos], now), now, ttl)
  {
    hide Orderly, FirstLaw, Refreshed, ShardHints.HintOk;
    assert Fine(c.ops, sh.slots[pos], now);
    ShardHints.RefreshedIsWhole(c.ops, sh.slots[pos], now);
  }

  /** With the last slot in the place of one that went, those before it are as they
      were. */
  lemma SweptWithout<S(!new)>(c: Config<S>, slots: seq<Slot<S>>, at: nat, n: nat, now: nat, ttl: nat)
    requires at < |slots| && Swept(c, slots, n, now, ttl)
    ensures var last := |slots| - 1;
            Swept(c, slots[at := slots[last]][..last], if n >= |slots| then n else Min(n, at), now, ttl)
  {
    hide Stays;
  }

  lemma SweptPast<S(!new)>(c: Config<S>, slots: seq<Slot<S>>, at: nat, y: Slot<S>, n: nat, now: nat, ttl: nat)
    requires at < |slots| && Swept(c, slots, n, now, ttl) && Stays(c.ops, y, now, ttl)
    ensures Swept(c, slots[at := y], if n == at then n + 1 else n, now, ttl)
  {
    hide Stays;
  }

  /** The slot under the cursor goes, or the sweep has no business with it. */
  lemma StepTakes<S(!new)>(c: Config<S>, sh: Shard<S>, now: nat, ttl: nat)
    requires Sound(c.g) && WF(c.g, sh.table) && Lawful(c.ops) && now < c.ops.horizon <= LAST && AllFine(c, sh, now)
    requires sh.sweep < |sh.slots|
    ensures var r := SweepOne(c, sh, now, ttl);
            var at, last := sh.sweep, |sh.slots| - 1;
            var y := Refreshed(c.ops, sh.slots[at], now);
            var slots := sh.slots[at := y];
            || (r.slots == slots[at := slots[last]][..last] && r.sweep == at)
            || (r.slots == slots && r.sweep == at + 1 && Stays(c.ops, y, now, ttl))
            || (r.slots == sh.slots && r.sweep == at + 1 && Stays(c.ops, sh.slots[at], now, ttl))
  {
    var at := sh.sweep;
    assert sh.(sweep := at) == sh;
    var (sh1, verdict) := Evictable(c, sh, at, now);
    EvictableAlike(c, sh, at, now);
    if verdict.Recovered? { EvictedSlots(c, sh1, at, true, now); }
    if verdict.Owing? { EvictedSlots(c, sh1, at, false, now); }
    if verdict.No? { NoIsHeld(c, sh, now, at); }
    hide Orderly, FirstLaw, Sound, AllFine, HasExactRoom, Refreshed, EvictAt, Expired, CeilMillis, Millis;
  }

  /** One step from a cursor among the slots: its slot goes, and the last takes its
      place; or the cursor moves on, and the sweep has no business with it. */
  lemma StepSweeps<S(!new)>(c: Config<S>, sh: Shard<S>, now: nat, ttl: nat, n: nat)
    requires Sound(c.g) && WF(c.g, sh.table) && Lawful(c.ops) && now < c.ops.horizon <= LAST && AllFine(c, sh, now)
    requires sh.sweep < |sh.slots| && Swept(c, sh.slots, n, now, ttl)
    ensures var r := SweepOne(c, sh, now, ttl);
            || (|r.slots| == |sh.slots| - 1 && r.sweep == sh.sweep
                  && Swept(c, r.slots, if n >= |sh.slots| then n else Min(n, sh.sweep), now, ttl))
            || (|r.slots| == |sh.slots| && r.sweep == sh.sweep + 1
                  && Swept(c, r.slots, if n == sh.sweep then n + 1 else n, now, ttl))
  {
    hide Orderly, FirstLaw, Sound, AllFine, Refreshed, SweepOne, Swept, Stays;
    var at := sh.sweep;
    var x, y := sh.slots[at], Refreshed(c.ops, sh.slots[at], now);
    var slots := sh.slots[at := y];
    StepTakes(c, sh, now, ttl);
    RefreshedStays(c, sh, at, now, ttl);
    assert sh.slots[at := x] == sh.slots;
    if Stays(c.ops, x, now, ttl) { SweptPast(c, sh.slots, at, x, n, now, ttl); }
    if Stays(c.ops, y, now, ttl) { SweptPast(c, sh.slots, at, y, n, now, ttl); }
    SweptWithout(c, sh.slots, at, n, now, ttl);
    assert slots[at := slots[|slots| - 1]][..|slots| - 1] == sh.slots[at := slots[|slots| - 1]][..|slots| - 1];
  }

  lemma SweptFewer<S(!new)>(c: Config<S>, slots: seq<Slot<S>>, n: nat, now: nat, ttl: nat)
    ensures Swept(c, slots, n, now, ttl) && n >= |slots| ==> Swept(c, slots, |slots|, now, ttl)
  {
  }

  lemma {:induction false} KeepsSwept<S(!new)>(c: Config<S>, sh: Shard<S>, now: nat, ttl: nat, steps: nat)
    requires Sound(c.g) && WF(c.g, sh.table) && Lawful(c.ops) && now < c.ops.horizon <= LAST && AllFine(c, sh, now)
    requires Swept(c, sh.slots, |sh.slots|, now, ttl)
    ensures var r := SweepIdle(c, sh, now, ttl, steps); Swept(c, r.slots, |r.slots|, now, ttl)
    decreases steps
  {
    hide Orderly, FirstLaw, Sound, AllFine, SweepOne, Swept;
    if steps > 0 && |sh.slots| > 0 {
      var at := if sh.sweep >= |sh.slots| then 0 else sh.sweep;
      var sh0 := sh.(sweep := at);
      FineCursor(c, sh, sh0, now);
      SweepFrom(c, sh, now, ttl, at);
      StepSweeps(c, sh0, now, ttl, |sh.slots|);
      var r := SweepOne(c, sh, now, ttl);
      SweptFewer(c, r.slots, |sh.slots|, now, ttl);
      SweepOneFine(c, sh, now, ttl);
      KeepsSwept(c, r, now, ttl, steps - 1);
    }
  }

  /** Once round from the start. */
  lemma {:induction false} OnceRound<S(!new)>(c: Config<S>, sh: Shard<S>, now: nat, ttl: nat, steps: nat)
    requires Sound(c.g) && WF(c.g, sh.table) && Lawful(c.ops) && now < c.ops.horizon <= LAST && AllFine(c, sh, now)
    requires Swept(c, sh.slots, sh.sweep, now, ttl) && sh.sweep <= |sh.slots| <= sh.sweep + steps
    ensures var r := SweepIdle(c, sh, now, ttl, steps); Swept(c, r.slots, |r.slots|, now, ttl)
    decreases steps
  {
    hide Orderly, FirstLaw, Sound, AllFine, SweepOne, Swept;
    if sh.sweep == |sh.slots| {
      KeepsSwept(c, sh, now, ttl, steps);
    } else {
      StepSweeps(c, sh, now, ttl, sh.sweep);
      SweepOneFine(c, sh, now, ttl);
      OnceRound(c, SweepOne(c, sh, now, ttl), now, ttl, steps - 1);
    }
  }

  lemma NothingSwept<S(!new)>(c: Config<S>, slots: seq<Slot<S>>, now: nat, ttl: nat)
    ensures Swept(c, slots, 0, now, ttl)
  {
  }

  lemma {:induction false} Rounds<S(!new)>(c: Config<S>, sh: Shard<S>, now: nat, ttl: nat, steps: nat)
    requires Sound(c.g) && WF(c.g, sh.table) && Lawful(c.ops) && now < c.ops.horizon <= LAST && AllFine(c, sh, now)
    requires if sh.sweep < |sh.slots| then steps + sh.sweep >= 2 * |sh.slots| else steps >= |sh.slots|
    ensures var r := SweepIdle(c, sh, now, ttl, steps); Swept(c, r.slots, |r.slots|, now, ttl)
    decreases steps
  {
    hide Orderly, FirstLaw, Sound, AllFine, SweepOne, Swept;
    NothingSwept(c, sh.slots, now, ttl);
    if |sh.slots| == 0 {
      KeepsSwept(c, sh, now, ttl, steps);
    } else if sh.sweep >= |sh.slots| {
      FineCursor(c, sh, sh.(sweep := 0), now);
      SweepFrom(c, sh, now, ttl, 0);
      OnceRound(c, sh.(sweep := 0), now, ttl, steps);
    } else {
      StepSweeps(c, sh, now, ttl, 0);
      SweepOneFine(c, sh, now, ttl);
      Rounds(c, SweepOne(c, sh, now, ttl), now, ttl, steps - 1);
    }
  }

  /** In every run, wherever the cursor stands, twice as many steps as there are slots
      leave no expired key that could go. */
  lemma SweepTakesAllTheIdle<S(!new)>(c: Config<S>, keys: set<nat>, events: seq<ShardRuns.Event>,
                                      states: seq<ShardRuns.Sim<S>>, i: nat, now: nat, ttl: nat, steps: nat)
    requires ShardSafety.Setting(c, keys) && !c.forget && ShardRuns.Run(c, keys, events, states) && i < |states|
    requires states[i].now <= now < c.ops.horizon && steps >= 2 * |states[i].shard.slots|
             && WF(c.g, states[i].shard.table)
    ensures var r := SweepIdle(c, states[i].shard, now, ttl, steps);
            forall x :: x in r.slots && x.lastSeen + ttl <= Millis(now) ==>
              x.seeded && c.ops.debt(x.state, now).Some?
  {
    ReachableIsFine(c, keys, events, states, i, now);
    hide Orderly, FirstLaw, Sound, AllFine, SweepIdle, ShardRuns.Run, ShardSafety.Distinct;
    var sh := states[i].shard;
    Rounds(c, sh, now, ttl, steps);
    var r := SweepIdle(c, sh, now, ttl, steps);
    forall x | x in r.slots && x.lastSeen + ttl <= Millis(now) ensures x.seeded && c.ops.debt(x.state, now).Some? {
      var p: nat :| p < |r.slots| && r.slots[p] == x;
      assert Stays(c.ops, r.slots[p], now, ttl);
    }
  }

  // ------------------------------------------------------------- one insertion

  /** Where the sweep goes on. */
  function Cursor<S>(sh: Shard<S>): (at: nat)
    requires |sh.slots| > 0
    ensures at < |sh.slots|
  {
    if sh.sweep >= |sh.slots| then 0 else sh.sweep
  }

  /** One step removes a slot; or it has no business with the one it looked at, and
      leaves the others alone. */
  lemma StepLooks<S(!new)>(c: Config<S>, sh: Shard<S>, now: nat, ttl: nat)
    requires Sound(c.g) && WF(c.g, sh.table) && Lawful(c.ops) && now < c.ops.horizon <= LAST && AllFine(c, sh, now)
    requires |sh.slots| > 0
    ensures var r := SweepOne(c, sh, now, ttl);
            || |r.slots| == |sh.slots| - 1
            || (|r.slots| == |sh.slots| && r.sweep == Cursor(sh) + 1 && Stays(c.ops, sh.slots[Cursor(sh)], now, ttl)
                  && forall p: nat :: p < |sh.slots| && p != Cursor(sh) ==> r.slots[p] == sh.slots[p])
  {
    var at := Cursor(sh);
    var sh0 := sh.(sweep := at);
    FineCursor(c, sh, sh0, now);
    VerdictIs(c, sh0, at, now);
    EvictableAlike(c, sh0, at, now);
    var (sh1, verdict) := Evictable(c, sh0, at, now);
    if verdict.Recovered? { EvictionRemoves(c, sh1, at, true, now); }
    if verdict.Owing? { EvictionRemoves(c, sh1, at, false, now); }
    hide Orderly, FirstLaw, Sound, AllFine, HasExactRoom, Refreshed, EvictAt, Evictable, Expired, Millis, Fine;
  }

  lemma NextAt(at: nat, j: nat, len: nat, next: nat)
    requires at < len && 0 < j < len && next == (if at + 1 == len then 0 else at + 1)
    ensures At(next, j - 1, len) == At(at, j, len) != at
  {
    AtIs(at, j, len);
    AtIs(next, j - 1, len);
    hide At;
  }

  /** If one of the next `steps` slots is the sweep's business, the sweep takes one. */
  lemma {:induction false} SweepTakesOne<S(!new)>(c: Config<S>, sh: Shard<S>, now: nat, ttl: nat, steps: nat, j: nat)
    requires Sound(c.g) && WF(c.g, sh.table) && Lawful(c.ops) && now < c.ops.horizon <= LAST && AllFine(c, sh, now)
    requires j < steps && j < |sh.slots| && !Stays(c.ops, sh.slots[At(Cursor(sh), j, |sh.slots|)], now, ttl)
    ensures |SweepIdle(c, sh, now, ttl, steps).slots| < |sh.slots|
    decreases steps
  {
    hide Orderly, FirstLaw, Sound, AllFine, SweepOne, Stays, At;
    var at := Cursor(sh);
    AtIs(at, 0, |sh.slots|);
    StepLooks(c, sh, now, ttl);
    SweepOneFine(c, sh, now, ttl);
    var r := SweepOne(c, sh, now, ttl);
    if |r.slots| < |sh.slots| {
      SweepShrinks(c, r, now, ttl, steps - 1);
    } else {
      NextAt(at, j, |sh.slots|, Cursor(r));
      SweepTakesOne(c, r, now, ttl, steps - 1, j - 1);
    }
  }

  lemma EvictionKeepsHand<S(!new)>(c: Config<S>, sh: Shard<S>, pos: nat, recovered: bool, now: nat)
    requires Sound(c.g) && WF(c.g, sh.table) && pos < |sh.slots|
    ensures EvictAt(c, sh, pos, recovered, now).hand == sh.hand
  {
    hide Sound, RecordDebt, MarksRecorded;
  }

  lemma {:induction false} SweepKeepsHand<S(!new)>(c: Config<S>, sh: Shard<S>, now: nat, ttl: nat, steps: nat)
    requires Sound(c.g) && WF(c.g, sh.table)
    ensures SweepIdle(c, sh, now, ttl, steps).hand == sh.hand
    decreases steps
  {
    hide Sound, EvictAt, HasExactRoom, Refreshed, Expired;
    if steps > 0 && |sh.slots| > 0 {
      var at := Cursor(sh);
      var sh1 := Evictable(c, sh.(sweep := at), at, now).0;
      EvictionKeepsHand(c, sh1, at, true, now);
      EvictionKeepsHand(c, sh1, at, false, now);
      SweepKeepsHand(c, SweepOne(c, sh, now, ttl), now, ttl, steps - 1);
    }
  }

  /** In every run, an insertion first looks for idle keys among the next few slots:
      if one of them can go, the newcomer finds room without the hand moving. */
  lemma IdleMakesRoom<S(!new)>(c: Config<S>, keys: set<nat>, events: seq<ShardRuns.Event>,
                               states: seq<ShardRuns.Sim<S>>, i: nat, now: nat, j: nat)
    requires ShardSafety.Setting(c, keys) && !c.forget && ShardRuns.Run(c, keys, events, states) && i < |states|
    requires states[i].now <= now < c.ops.horizon && WF(c.g, states[i].shard.table) && c.ttl.Some?
    requires j < TTL_SWEEP && j < |states[i].shard.slots|
    requires var sh := states[i].shard;
             var x := sh.slots[At(Cursor(sh), j, |sh.slots|)];
             x.lastSeen + c.ttl.value <= Millis(now) && (!x.seeded || c.ops.debt(x.state, now).None?)
    ensures var (r, err) := MakeRoom(c, states[i].shard, now);
            err.None? && |r.slots| < |states[i].shard.slots| && r.hand == states[i].shard.hand
  {
    ReachableIsFine(c, keys, events, states, i, now);
    hide Orderly, FirstLaw, Sound, AllFine, SweepIdle, ShardRuns.Run, ShardSafety.Distinct, At, EvictOne;
    var sh := states[i].shard;
    SweepTakesOne(c, sh, now, c.ttl.value, TTL_SWEEP, j);
    SweepKeepsHand(c, sh, now, c.ttl.value, TTL_SWEEP);
  }
}

/** A refusal is honest (src/store.rs:1057-1117, 1357-1368): its wait ends at the
    earliest deadline of the slots examined, and a newcomer that comes back then, with
    no other traffic in between, is not refused again. */
module ShardRefusal {
  import opened Units
  import opened Probe
  import opened RecoveryTable
  import opened KeyLaws
  import opened Shard
  import opened ShardHints
  import opened ShardSteps
  import ShardIndex
  import ShardSafety
  import ShardRuns

  ghost predicate Fine<S(!new)>(o: KeyOps<S>, x: Slot<S>, now: nat) {
    o.valid(x.key, x.state, now) && HintOk(o, x, now)
  }

  /** Every stored state is valid and no hint is early: so in every reachable
      shard. */
  ghost predicate AllFine<S(!new)>(c: Config<S>, sh: Shard<S>, now: nat) {
    forall p: nat {:trigger sh.slots[p]} :: p < |sh.slots| ==> Fine(c.ops, sh.slots[p], now)
  }

  /** By millisecond `e` the key is whole, and its slot will say so. */
  ghost predicate DueBy<S(!new)>(o: KeyOps<S>, x: Slot<S>, now: nat, e: nat) {
    WholeFrom(o, x.state, now, e * NANOS_PER_MILLI) && (x.referenced || x.hint == UNKNOWN || x.hint <= e)
  }

  lemma RefreshedIsFine<S(!new)>(o: KeyOps<S>, x: Slot<S>, now: nat)
    requires Lawful(o) && now < o.horizon <= LAST && Fine(o, x, now)
    ensures Fine(o, Refreshed(o, x, now), now)
    ensures DueBy(o, Refreshed(o, x, now), now, Refreshed(o, x, now).hint)
  {
    hide Orderly, FirstLaw, Refreshed, WholeFrom;
    RefreshedIsWhole(o, x, now);
  }

  /** What is whole by a millisecond has no later exact hint. */
  lemma ExactWithin<S(!new)>(o: KeyOps<S>, k: nat, s: S, now: nat, e: nat)
    requires Lawful(o) && o.valid(k, s, now) && now < o.horizon <= LAST
    requires WholeFrom(o, s, now, e * NANOS_PER_MILLI) && e * NANOS_PER_MILLI < o.horizon
    ensures ExactHint(o, s, now) <= e
  {
    hide Orderly, FirstLaw;
    if o.debt(s, now).Some? {
      var t := Max(now, e * NANOS_PER_MILLI);
      Decays(o, k, s, now, t);
      Owed(o, k, s, now);
      CeilMillisIsCeiling(o.debt(s, now).value.until);
      assert o.debt(s, t).None?;
    }
  }

  lemma RefreshedStaysDue<S(!new)>(o: KeyOps<S>, x: Slot<S>, now: nat, e: nat)
    requires Lawful(o) && now < o.horizon <= LAST && Fine(o, x, now) && DueBy(o, x, now, e)
             && e * NANOS_PER_MILLI < o.horizon
    ensures DueBy(o, Refreshed(o, x, now), now, e)
  {
    hide Orderly, FirstLaw, WholeFrom, ExactHint, HintOk;
    LookKeepsWhole(o, x.key, x.state, now, e * NANOS_PER_MILLI);
    ExactWithin(o, x.key, x.state, now, e);
  }

  /** A slot due by a millisecond that has come is judged recovered. */
  lemma DueIsRecovered<S(!new)>(o: KeyOps<S>, x: Slot<S>, now: nat, e: nat)
    requires Lawful(o) && now < o.horizon <= LAST && Fine(o, x, now) && DueBy(o, x, now, e) && e <= Millis(now)
    ensures Refreshed(o, x, now).hint <= Millis(now)
  {
    hide Orderly, FirstLaw, WholeFrom, ExactHint, HintOk;
    MillisFloor(now);
    ExactWithin(o, x.key, x.state, now, e);
  }

  // ----------------------------------------------------- the examined slots

  /** The slot owes until millisecond `e`. */
  ghost predicate OwesUntil<S(!new)>(o: KeyOps<S>, x: Slot<S>, now: nat, e: nat) {
    o.debt(x.state, now).Some? && CeilMillis(o.debt(x.state, now).value.until) == e
  }

  /** The slot was charged from the sketch and owes until `e` or later. */
  ghost predicate Held<S(!new)>(o: KeyOps<S>, x: Slot<S>, now: nat, e: nat) {
    x.seeded && o.debt(x.state, now).Some? && e <= CeilMillis(o.debt(x.state, now).value.until)
  }

  /** Some slot of the window owes until `e`. */
  ghost predicate Reports<S(!new)>(c: Config<S>, sh: Shard<S>, start: nat, scan: nat, now: nat, e: nat)
    requires |sh.slots| > 0
  {
    exists j: nat :: j < scan && OwesUntil(c.ops, sh.slots[At(start, j, |sh.slots|)], now, e)
  }

  /** The first `step` slots of the window are all held until `e` or later, and the
      exact table has no room for any of their debts. */
  ghost predicate AllHeld<S(!new)>(c: Config<S>, sh: Shard<S>, start: nat, step: nat, now: nat, e: nat)
    requires |sh.slots| > 0 && Sound(c.g) && WF(c.g, sh.table)
  {
    forall j: nat :: j < step ==>
      && Held(c.ops, sh.slots[At(start, j, |sh.slots|)], now, e)
      && !HasExactRoom(c.g, sh.table, sh.slots[At(start, j, |sh.slots|)].hash, Millis(now))
  }

  lemma ReplaceFine<S(!new)>(c: Config<S>, sh: Shard<S>, now: nat, pos: nat, y: Slot<S>)
    requires AllFine(c, sh, now) && pos < |sh.slots| && Fine(c.ops, y, now)
    ensures AllFine(c, sh.(slots := sh.slots[pos := y]), now)
  {
    hide Fine;
  }

  /** A slot may be replaced by one that owes the same. */
  lemma ReplaceReports<S(!new)>(c: Config<S>, sh: Shard<S>, start: nat, now: nat, pos: nat, y: Slot<S>)
    requires Sound(c.g) && WF(c.g, sh.table)
    requires pos < |sh.slots| && y.seeded == sh.slots[pos].seeded && y.hash == sh.slots[pos].hash
             && c.ops.debt(y.state, now) == c.ops.debt(sh.slots[pos].state, now)
    ensures var r := sh.(slots := sh.slots[pos := y]);
            && (forall scan: nat, e: nat :: Reports(c, sh, start, scan, now, e) ==> Reports(c, r, start, scan, now, e))
            && (forall step: nat, e: nat :: AllHeld(c, sh, start, step, now, e) ==> AllHeld(c, r, start, step, now, e))
  {
    hide At, CeilMillis, Sound, HasExactRoom, Millis;
    var r := sh.(slots := sh.slots[pos := y]);
    forall scan: nat, e: nat | Reports(c, sh, start, scan, now, e) ensures Reports(c, r, start, scan, now, e) {
      var j: nat :| j < scan && OwesUntil(c.ops, sh.slots[At(start, j, |sh.slots|)], now, e);
      assert OwesUntil(c.ops, r.slots[At(start, j, |r.slots|)], now, e);
    }
    forall step: nat, e: nat | AllHeld(c, sh, start, step, now, e) ensures AllHeld(c, r, start, step, now, e) {
      forall j: nat | j < step
        ensures Held(c.ops, r.slots[At(start, j, |r.slots|)], now, e)
        ensures !HasExactRoom(c.g, r.table, r.slots[At(start, j, |r.slots|)].hash, Millis(now))
      {
        assert Held(c.ops, sh.slots[At(start, j, |sh.slots|)], now, e);
      }
    }
  }

  lemma EvictableFine<S(!new)>(c: Config<S>, sh: Shard<S>, now: nat, pos: nat)
    requires Sound(c.g) && WF(c.g, sh.table) && Lawful(c.ops) && now < c.ops.horizon <= LAST
             && AllFine(c, sh, now) && pos < |sh.slots|
    ensures AllFine(c, Evictable(c, sh, pos, now).0, now)
  {
    hide Orderly, FirstLaw, Fine, Refreshed, HasExactRoom, Sound;
    RefreshedIsFine(c.ops, sh.slots[pos], now);
    ReplaceFine(c, sh, now, pos, Refreshed(c.ops, sh.slots[pos], now));
  }

  /** Examining slots changes what none of them owes. */
  lemma EvictableReports<S(!new)>(c: Config<S>, sh: Shard<S>, start: nat, now: nat, pos: nat)
    requires Sound(c.g) && WF(c.g, sh.table) && Lawful(c.ops) && now < c.ops.horizon <= LAST
             && AllFine(c, sh, now) && pos < |sh.slots|
    ensures var r := Evictable(c, sh, pos, now).0;
            && (forall scan: nat, e: nat :: Reports(c, sh, start, scan, now, e) ==> Reports(c, r, start, scan, now, e))
            && (forall step: nat, e: nat :: AllHeld(c, sh, start, step, now, e) ==> AllHeld(c, r, start, step, now, e))
  {
    hide Orderly, FirstLaw, HintOk, Refreshed, HasExactRoom, Sound, Reports, AllHeld;
    assert Fine(c.ops, sh.slots[pos], now);
    RefreshedIsWhole(c.ops, sh.slots[pos], now);
    ReplaceReports(c, sh, start, now, pos, Refreshed(c.ops, sh.slots[pos], now));
  }

  /** A slot that cannot go is held, and the time it is given is its deadline's. */
  lemma NoIsHeld<S(!new)>(c: Config<S>, sh: Shard<S>, now: nat, pos: nat)
    requires Sound(c.g) && WF(c.g, sh.table) && Lawful(c.ops) && now < c.ops.horizon <= LAST && AllFine(c, sh, now)
    requires pos < |sh.slots| && Evictable(c, sh, pos, now).1.No?
    ensures var (sh1, verdict) := Evictable(c, sh, pos, now);
            && Held(c.ops, sh1.slots[pos], now, verdict.at) && OwesUntil(c.ops, sh1.slots[pos], now, verdict.at)
            && !HasExactRoom(c.g, sh1.table, sh1.slots[pos].hash, Millis(now))
            && Millis(now) < verdict.at < UNKNOWN
  {
    hide Orderly, FirstLaw, HintOk, Refreshed, HasExactRoom, Sound, WholeFrom, CeilMillis, Millis;
    var x := sh.slots[pos];
    assert Fine(c.ops, x, now);
    RefreshedIsWhole(c.ops, x, now);
    var y := Refreshed(c.ops, x, now);
    TellingIsDue(c.ops, y.key, y.state, now, y.hint);
  }

  /** The earliest time of a scan is the deadline of a slot it looked at. */
  ghost predicate Witnessed<S(!new)>(c: Config<S>, s: Scan<S>, start: nat, scan: nat, now: nat)
    requires |s.shard.slots| > 0
  {
    && AllFine(c, s.shard, now) && s.earliest <= UNKNOWN
    && (s.earliest < UNKNOWN ==> Millis(now) < s.earliest && Reports(c, s.shard, start, scan, now, s.earliest))
  }

  lemma SecondChanceWitnessed<S(!new)>(c: Config<S>, s: Scan<S>, start: nat, scan: nat, now: nat, pos: nat)
    requires |s.shard.slots| > 0 && Witnessed(c, s, start, scan, now) && pos < |s.shard.slots|
    requires Sound(c.g) && WF(c.g, s.shard.table)
    ensures var y := s.shard.slots[pos].(referenced := false, hint := UNKNOWN);
            Witnessed(c, s.(shard := s.shard.(slots := s.shard.slots[pos := y])), start, scan, now)
  {
    hide Tells, Reports, AllHeld;
    var x := s.shard.slots[pos];
    var y := x.(referenced := false, hint := UNKNOWN);
    assert Fine(c.ops, x, now);
    ReplaceFine(c, s.shard, now, pos, y);
    ReplaceReports(c, s.shard, start, now, pos, y);
  }

  lemma ReportsHere<S(!new)>(c: Config<S>, sh: Shard<S>, start: nat, scan: nat, now: nat, e: nat, j: nat)
    requires |sh.slots| > 0 && j < scan && OwesUntil(c.ops, sh.slots[At(start, j, |sh.slots|)], now, e)
    ensures Reports(c, sh, start, scan, now, e)
  {
  }

  lemma ExaminedWitnessed<S(!new)>(c: Config<S>, s: Scan<S>, start: nat, scan: nat, now: nat, j: nat)
    requires Sound(c.g) && WF(c.g, s.shard.table) && Lawful(c.ops) && now < c.ops.horizon <= LAST
    requires |s.shard.slots| > 0 && Witnessed(c, s, start, scan, now) && j < scan
    ensures var (sh1, verdict) := Evictable(c, s.shard, At(start, j, |s.shard.slots|), now);
            var earliest := if verdict.No? then Min(s.earliest, verdict.at) else s.earliest;
            Witnessed(c, s.(shard := sh1, earliest := earliest), start, scan, now)
  {
    hide Orderly, FirstLaw, OwesUntil, Held, Sound, Reports, Evictable, At, AllFine, AllHeld, Millis;
    var pos := At(start, j, |s.shard.slots|);
    EvictableFine(c, s.shard, now, pos);
    EvictableReports(c, s.shard, start, now, pos);
    var (sh1, verdict) := Evictable(c, s.shard, pos, now);
    if verdict.No? {
      NoIsHeld(c, s.shard, now, pos);
      ReportsHere(c, sh1, start, scan, now, verdict.at, j);
    }
  }

  lemma OwingWitnessed<S(!new)>(c: Config<S>, s: Scan<S>, r: Scan<S>, start: nat, scan: nat, now: nat)
    requires |s.shard.slots| > 0 && Witnessed(c, s, start, scan, now) && r.shard == s.shard && r.earliest == s.earliest
    ensures Witnessed(c, r, start, scan, now)
  {
  }

  lemma HandStays<S(!new)>(c: Config<S>, sh: Shard<S>, pos: nat, now: nat)
    requires Sound(c.g) && WF(c.g, sh.table) && pos < |sh.slots|
    ensures Evictable(c, sh, pos, now).0.hand == sh.hand
  {
    hide Sound, HasExactRoom, Refreshed;
  }

  lemma {:induction false} FirstPassWitnessed<S(!new)>(c: Config<S>, s: Scan<S>, start: nat, step: nat, scan: nat,
                                                       now: nat)
    requires Sound(c.g) && WF(c.g, s.shard.table) && Lawful(c.ops) && now < c.ops.horizon <= LAST
    requires |s.shard.slots| > 0 && step <= scan && !s.done && (s.owing.Some? ==> s.owing.value < |s.shard.slots|)
    requires Witnessed(c, s, start, scan, now)
    ensures var r := FirstPass(c, s, start, step, scan, now);
            !r.done ==> Witnessed(c, r, start, scan, now) && r.shard.hand == s.shard.hand
    decreases scan - step
  {
    hide Orderly, FirstLaw, Sound, Witnessed, Evictable, EvictAt, SecondChance;
    if step < scan {
      var sh := s.shard;
      var pos := At(start, step, |sh.slots|);
      if SecondChance(sh.slots[pos], Millis(now), c.ttl) {
        SecondChanceWitnessed(c, s, start, scan, now, pos);
        var sh1 := sh.(slots := sh.slots[pos := sh.slots[pos].(referenced := false, hint := UNKNOWN)]);
        FirstPassWitnessed(c, s.(shard := sh1), start, step + 1, scan, now);
      } else {
        ExaminedWitnessed(c, s, start, scan, now, step);
        HandStays(c, sh, pos, now);
        var (sh1, verdict) := Evictable(c, sh, pos, now);
        match verdict
        case Recovered =>
        case Owing => {
          var s1 := s.(shard := sh1, owing := if s.owing.None? then Some(pos) else s.owing);
          OwingWitnessed(c, s.(shard := sh1), s1, start, scan, now);
          FirstPassWitnessed(c, s1, start, step + 1, scan, now);
        }
        case No(at) =>
          FirstPassWitnessed(c, s.(shard := sh1, earliest := Min(s.earliest, at)), start, step + 1, scan, now);
      }
    }
  }

  lemma HeldEarlier<S(!new)>(c: Config<S>, sh: Shard<S>, start: nat, step: nat, now: nat, e: nat, lower: nat)
    requires |sh.slots| > 0 && Sound(c.g) && WF(c.g, sh.table) && AllHeld(c, sh, start, step, now, e) && lower <= e
    ensures AllHeld(c, sh, start, step, now, lower)
  {
    hide At, CeilMillis, HasExactRoom, Sound, Millis;
  }

  lemma HeldSoFar<S(!new)>(c: Config<S>, sh: Shard<S>, start: nat, step: nat, now: nat, e: nat)
    requires |sh.slots| > 0 && Sound(c.g) && WF(c.g, sh.table) && AllHeld(c, sh, start, step, now, e)
    requires !HasExactRoom(c.g, sh.table, sh.slots[At(start, step, |sh.slots|)].hash, Millis(now))
    requires Held(c.ops, sh.slots[At(start, step, |sh.slots|)], now, e)
    ensures AllHeld(c, sh, start, step + 1, now, e)
  {
    hide At, Held, HasExactRoom, Sound, Millis;
  }

  /** A second pass that gets past a slot found it held. */
  lemma StepHeld<S(!new)>(c: Config<S>, s: Scan<S>, start: nat, step: nat, now: nat)
    requires Sound(c.g) && WF(c.g, s.shard.table) && Lawful(c.ops) && now < c.ops.horizon <= LAST
    requires |s.shard.slots| > 0 && AllFine(c, s.shard, now) && AllHeld(c, s.shard, start, step, now, s.earliest)
    requires Evictable(c, s.shard, At(start, step, |s.shard.slots|), now).1.No?
    ensures var (sh1, verdict) := Evictable(c, s.shard, At(start, step, |s.shard.slots|), now);
            && AllHeld(c, sh1, start, step + 1, now, Min(s.earliest, verdict.at))
            && verdict.at < UNKNOWN
  {
    hide Orderly, FirstLaw, Sound, Evictable, At, AllFine, AllHeld, Reports, CeilMillis;
    var pos := At(start, step, |s.shard.slots|);
    var (sh1, verdict) := Evictable(c, s.shard, pos, now);
    var e := Min(s.earliest, verdict.at);
    EvictableReports(c, s.shard, start, now, pos);
    NoIsHeld(c, s.shard, now, pos);
    HeldEarlier(c, sh1, start, step, now, s.earliest, e);
    HeldSoFar(c, sh1, start, step, now, e);
  }

  lemma WitnessedIsFine<S(!new)>(c: Config<S>, s: Scan<S>, start: nat, scan: nat, now: nat)
    requires |s.shard.slots| > 0 && Witnessed(c, s, start, scan, now)
    ensures AllFine(c, s.shard, now)
  {
  }

  lemma {:induction false} SecondPassWitnessed<S(!new)>(c: Config<S>, s: Scan<S>, start: nat, step: nat, scan: nat,
                                                        now: nat)
    requires Sound(c.g) && WF(c.g, s.shard.table) && Lawful(c.ops) && now < c.ops.horizon <= LAST
    requires |s.shard.slots| > 0 && step <= scan && !s.done && Witnessed(c, s, start, scan, now)
    requires AllHeld(c, s.shard, start, step, now, s.earliest) && (step > 0 ==> s.earliest < UNKNOWN)
    ensures var r := SecondPass(c, s, start, step, scan, now);
            !r.done ==>
              && |r.shard.slots| == |s.shard.slots| && Witnessed(c, r, start, scan, now)
              && r.shard.hand == s.shard.hand && AllHeld(c, r.shard, start, scan, now, r.earliest)
              && (scan > 0 ==> r.earliest < UNKNOWN)
    decreases scan - step
  {
    hide Orderly, FirstLaw, Sound, Witnessed, Evictable, EvictAt, AllHeld, AllFine;
    if step < scan {
      var pos := At(start, step, |s.shard.slots|);
      WitnessedIsFine(c, s, start, scan, now);
      ExaminedWitnessed(c, s, start, scan, now, step);
      HandStays(c, s.shard, pos, now);
      var (sh1, verdict) := Evictable(c, s.shard, pos, now);
      if verdict.No? {
        StepHeld(c, s, start, step, now);
        SecondPassWitnessed(c, s.(shard := sh1, earliest := Min(s.earliest, verdict.at)), start, step + 1, scan, now);
      }
    }
  }

  lemma NobodyHeld<S(!new)>(c: Config<S>, sh: Shard<S>, start: nat, now: nat, e: nat)
    requires |sh.slots| > 0 && Sound(c.g) && WF(c.g, sh.table)
    ensures AllHeld(c, sh, start, 0, now, e)
  {
  }

  /** `e` is the earliest deadline of the slots in the shard's window, in
      milliseconds, and every one of them was charged from the sketch and finds no
      room in the exact table. */
  ghost predicate EarliestDue<S(!new)>(c: Config<S>, sh: Shard<S>, now: nat, e: nat)
    requires Sound(c.g) && WF(c.g, sh.table)
  {
    && |sh.slots| > 0 && Millis(now) < e < UNKNOWN
    && AllHeld(c, sh, Start(sh), Min(CLOCK_SCAN, |sh.slots|), now, e)
    && Reports(c, sh, Start(sh), Min(CLOCK_SCAN, |sh.slots|), now, e)
  }

  /** `evict_one` fails with the earliest deadline of the slots it examined. */
  lemma RefusalWitnessed<S(!new)>(c: Config<S>, sh: Shard<S>, now: nat)
    requires Sound(c.g) && WF(c.g, sh.table) && Lawful(c.ops) && now < c.ops.horizon <= LAST
    requires |sh.slots| > 0 && AllFine(c, sh, now) && EvictOne(c, sh, now).1.Some?
    ensures var (r, err) := EvictOne(c, sh, now);
            |r.slots| == |sh.slots| && r.hand == sh.hand && AllFine(c, r, now) && EarliestDue(c, r, now, err.value)
  {
    hide Orderly, FirstLaw, Sound, FirstPass, SecondPass, AllFine, Reports, AllHeld, EvictAt, Millis;
    var start, scan := Start(sh), Min(CLOCK_SCAN, |sh.slots|);
    var s0 := Scan(sh, false, None, UNKNOWN);
    FirstPassWitnessed(c, s0, start, 0, scan, now);
    var first := FirstPass(c, s0, start, 0, scan, now);
    NobodyHeld(c, first.shard, start, now, first.earliest);
    SecondPassWitnessed(c, first, start, 0, scan, now);
  }

  // -------------------------------------------------------------- the retry

  lemma FineLater<S(!new)>(c: Config<S>, sh: Shard<S>, now: nat, later: nat)
    requires Lawful(c.ops) && AllFine(c, sh, now) && now <= later < c.ops.horizon <= LAST
    ensures AllFine(c, sh, later)
  {
    hide Orderly, FirstLaw, HintOk;
    forall p: nat | p < |sh.slots| ensures Fine(c.ops, sh.slots[p], later) {
      assert Fine(c.ops, sh.slots[p], now);
      Ages(c.ops, sh.slots[p].key, sh.slots[p].state, now, later);
      HintLasts(c.ops, sh.slots[p], now, later);
    }
  }

  lemma DueLater<S(!new)>(o: KeyOps<S>, x: Slot<S>, now: nat, later: nat, e: nat)
    requires DueBy(o, x, now, e) && now <= later
    ensures DueBy(o, x, later, e)
  {
  }

  /** A slot that owes until a millisecond is due by it. */
  lemma OwingIsDue<S(!new)>(o: KeyOps<S>, x: Slot<S>, now: nat, e: nat)
    requires Lawful(o) && now < o.horizon <= LAST && Fine(o, x, now) && OwesUntil(o, x, now, e)
    ensures DueBy(o, x, now, e)
  {
    hide Orderly, FirstLaw, CeilMillis;
    Owed(o, x.key, x.state, now);
    var until := o.debt(x.state, now).value.until;
    CeilMillisIsCeiling(until);
    forall t: nat | now <= t < o.horizon && e * NANOS_PER_MILLI <= t ensures o.debt(x.state, t).None? {
      Decays(o, x.key, x.state, now, t);
    }
  }

  lemma DeadlineAhead(until: nat, t: nat, e: nat)
    requires t + NANOS_PER_MILLI <= e * NANOS_PER_MILLI && e <= CeilMillis(until) && until <= 2 * U64_MAX
    ensures t < until
  {
    hide CeilMillis;
    CeilMillisIsCeiling(until);
    var m: nat := e - 1;
    assert m * NANOS_PER_MILLI >= t;
  }

  /** Up to a whole millisecond before its deadline's, a held slot still owes. */
  lemma HeldStillOwes<S(!new)>(o: KeyOps<S>, x: Slot<S>, now: nat, e: nat, t: nat)
    requires Lawful(o) && now <= t < o.horizon <= LAST && Fine(o, x, now) && Held(o, x, now, e)
             && t + NANOS_PER_MILLI <= e * NANOS_PER_MILLI
    ensures o.debt(x.state, t).Some?
  {
    hide Orderly, FirstLaw, CeilMillis, HintOk;
    Owed(o, x.key, x.state, now);
    Decays(o, x.key, x.state, now, t);
    DeadlineAhead(o.debt(x.state, now).value.until, t, e);
  }

  /** Examining one slot leaves the due one due, and finds it recovered if it is
      the one. */
  lemma KeepsDue<S(!new)>(c: Config<S>, sh: Shard<S>, pos: nat, due: nat, now: nat, e: nat)
    requires Sound(c.g) && WF(c.g, sh.table) && Lawful(c.ops) && now < c.ops.horizon <= LAST && AllFine(c, sh, now)
    requires pos < |sh.slots| && due < |sh.slots| && DueBy(c.ops, sh.slots[due], now, e) && e <= Millis(now)
    ensures var (sh1, verdict) := Evictable(c, sh, pos, now);
            DueBy(c.ops, sh1.slots[due], now, e) && (pos == due ==> verdict.Recovered?)
  {
    hide Orderly, FirstLaw, Sound, HasExactRoom, Refreshed, DueBy, Fine;
    if pos == due {
      MillisFloor(now);
      RefreshedStaysDue(c.ops, sh.slots[pos], now, e);
      DueIsRecovered(c.ops, sh.slots[pos], now, e);
    }
  }

  /** A blocked slot whose time has come stays in the window until a pass reaches
      it. */
  lemma {:induction false} SecondPassEvicts<S(!new)>(c: Config<S>, s: Scan<S>, start: nat, step: nat, scan: nat,
                                                     now: nat, j: nat, e: nat)
    requires Sound(c.g) && WF(c.g, s.shard.table) && Lawful(c.ops) && now < c.ops.horizon <= LAST
    requires |s.shard.slots| > 0 && step <= j < scan && !s.done && AllFine(c, s.shard, now) && e <= Millis(now)
    requires DueBy(c.ops, s.shard.slots[At(start, j, |s.shard.slots|)], now, e)
    ensures SecondPass(c, s, start, step, scan, now).done
    decreases j - step
  {
    hide Orderly, FirstLaw, Sound, AllFine, DueBy, Evictable, EvictAt, At;
    var len := |s.shard.slots|;
    var pos, due := At(start, step, len), At(start, j, len);
    EvictableFine(c, s.shard, now, pos);
    KeepsDue(c, s.shard, pos, due, now, e);
    var (sh1, verdict) := Evictable(c, s.shard, pos, now);
    if verdict.No? {
      SecondPassEvicts(c, s.(shard := sh1, earliest := Min(s.earliest, verdict.at)), start, step + 1, scan, now, j, e);
    }
  }

  lemma SecondChanceDue<S(!new)>(c: Config<S>, sh: Shard<S>, pos: nat, due: nat, now: nat, e: nat)
    requires AllFine(c, sh, now) && pos < |sh.slots| && due < |sh.slots| && DueBy(c.ops, sh.slots[due], now, e)
    ensures var r := sh.(slots := sh.slots[pos := sh.slots[pos].(referenced := false, hint := UNKNOWN)]);
            AllFine(c, r, now) && DueBy(c.ops, r.slots[due], now, e)
  {
    hide WholeFrom;
    var y := sh.slots[pos].(referenced := false, hint := UNKNOWN);
    assert Fine(c.ops, sh.slots[pos], now);
    ReplaceFine(c, sh, now, pos, y);
  }

  lemma {:induction false} FirstPassKeepsDue<S(!new)>(c: Config<S>, s: Scan<S>, start: nat, step: nat, scan: nat,
                                                      now: nat, due: nat, e: nat)
    requires Sound(c.g) && WF(c.g, s.shard.table) && Lawful(c.ops) && now < c.ops.horizon <= LAST
    requires |s.shard.slots| > 0 && step <= scan && !s.done && (s.owing.Some? ==> s.owing.value < |s.shard.slots|)
    requires AllFine(c, s.shard, now) && e <= Millis(now) && due < |s.shard.slots|
             && DueBy(c.ops, s.shard.slots[due], now, e)
    ensures var r := FirstPass(c, s, start, step, scan, now);
            !r.done ==> AllFine(c, r.shard, now) && DueBy(c.ops, r.shard.slots[due], now, e)
    decreases scan - step
  {
    hide Orderly, FirstLaw, Sound, AllFine, DueBy, Evictable, EvictAt, SecondChance, At;
    if step < scan {
      var sh := s.shard;
      var pos := At(start, step, |sh.slots|);
      if SecondChance(sh.slots[pos], Millis(now), c.ttl) {
        SecondChanceDue(c, sh, pos, due, now, e);
        var sh1 := sh.(slots := sh.slots[pos := sh.slots[pos].(referenced := false, hint := UNKNOWN)]);
        FirstPassKeepsDue(c, s.(shard := sh1), start, step + 1, scan, now, due, e);
      } else {
        EvictableFine(c, sh, now, pos);
        KeepsDue(c, sh, pos, due, now, e);
        var (sh1, verdict) := Evictable(c, sh, pos, now);
        match verdict
        case Recovered =>
        case Owing => {
          var s1 := s.(shard := sh1, owing := if s.owing.None? then Some(pos) else s.owing);
          FirstPassKeepsDue(c, s1, start, step + 1, scan, now, due, e);
        }
        case No(at) =>
          FirstPassKeepsDue(c, s.(shard := sh1, earliest := Min(s.earliest, at)), start, step + 1, scan, now, due, e);
      }
    }
  }

  /** With a due slot in its window `evict_one` does not fail. */
  lemma DueMakesRoom<S(!new)>(c: Config<S>, sh: Shard<S>, now: nat, j: nat, e: nat)
    requires Sound(c.g) && WF(c.g, sh.table) && Lawful(c.ops) && now < c.ops.horizon <= LAST
    requires |sh.slots| > 0 && AllFine(c, sh, now) && e <= Millis(now) && j < Min(CLOCK_SCAN, |sh.slots|)
    requires DueBy(c.ops, sh.slots[At(Start(sh), j, |sh.slots|)], now, e)
    ensures EvictOne(c, sh, now).1.None?
  {
    hide Orderly, FirstLaw, Sound, FirstPass, SecondPass, AllFine, DueBy, EvictAt, At;
    var start, scan := Start(sh), Min(CLOCK_SCAN, |sh.slots|);
    var s0 := Scan(sh, false, None, UNKNOWN);
    FirstPassKeepsDue(c, s0, start, 0, scan, now, At(start, j, |sh.slots|), e);
    var first := FirstPass(c, s0, start, 0, scan, now);
    if !first.done && first.owing.None? { SecondPassEvicts(c, first, start, 0, scan, now, j, e); }
  }

  lemma FineCursor<S(!new)>(c: Config<S>, sh: Shard<S>, r: Shard<S>, now: nat)
    requires r.slots == sh.slots
    ensures AllFine(c, sh, now) ==> AllFine(c, r, now)
  {
  }

  /** An idle sweep that removes nothing leaves the due slot where it was. */
  lemma SweepOneKeepsDue<S(!new)>(c: Config<S>, sh: Shard<S>, now: nat, ttl: nat, due: nat, e: nat)
    requires Sound(c.g) && WF(c.g, sh.table) && Lawful(c.ops) && now < c.ops.horizon <= LAST
    requires |sh.slots| > 0 && AllFine(c, sh, now) && e <= Millis(now) && due < |sh.slots|
             && DueBy(c.ops, sh.slots[due], now, e)
    ensures var r := SweepOne(c, sh, now, ttl);
            || |r.slots| == |sh.slots| - 1
            || (|r.slots| == |sh.slots| && r.hand == sh.hand && AllFine(c, r, now)
              && DueBy(c.ops, r.slots[due], now, e))
  {
    var at := if sh.sweep >= |sh.slots| then 0 else sh.sweep;
    var sh0 := sh.(sweep := at);
    FineCursor(c, sh, sh0, now);
    FineCursor(c, sh, sh.(sweep := at + 1), now);
    EvictableFine(c, sh0, now, at);
    KeepsDue(c, sh0, at, due, now, e);
    HandStays(c, sh0, at, now);
    EvictableAlike(c, sh0, at, now);
    var (sh1, verdict) := Evictable(c, sh0, at, now);
    FineCursor(c, sh1, sh1.(sweep := at + 1), now);
    if verdict.Recovered? { EvictionRemoves(c, sh1, at, true, now); }
    if verdict.Owing? { EvictionRemoves(c, sh1, at, false, now); }
    hide Orderly, FirstLaw, Sound, AllFine, DueBy, Evictable, EvictAt, Expired;
  }

  lemma {:induction false} SweepKeepsDue<S(!new)>(c: Config<S>, sh: Shard<S>, now: nat, ttl: nat, steps: nat,
                                                  due: nat, e: nat)
    requires Sound(c.g) && WF(c.g, sh.table) && Lawful(c.ops) && now < c.ops.horizon <= LAST
    requires |sh.slots| > 0 && AllFine(c, sh, now) && e <= Millis(now) && due < |sh.slots|
             && DueBy(c.ops, sh.slots[due], now, e)
    ensures var r := SweepIdle(c, sh, now, ttl, steps);
            || |r.slots| < |sh.slots|
            || (|r.slots| == |sh.slots| && r.hand == sh.hand && AllFine(c, r, now)
              && DueBy(c.ops, r.slots[due], now, e))
    decreases steps
  {
    hide Orderly, FirstLaw, Sound, AllFine, DueBy, SweepOne;
    if steps > 0 {
      SweepOneKeepsDue(c, sh, now, ttl, due, e);
      var sh1 := SweepOne(c, sh, now, ttl);
      if |sh1.slots| == |sh.slots| {
        SweepKeepsDue(c, sh1, now, ttl, steps - 1, due, e);
      } else {
        SweepShrinks(c, sh1, now, ttl, steps - 1);
      }
    }
  }

  lemma DueGetsRoom<S(!new)>(c: Config<S>, sh: Shard<S>, now: nat, j: nat, e: nat)
    requires Sound(c.g) && WF(c.g, sh.table) && Lawful(c.ops) && now < c.ops.horizon <= LAST && |sh.slots| <= c.cap
    requires |sh.slots| > 0 && AllFine(c, sh, now) && e <= Millis(now) && j < Min(CLOCK_SCAN, |sh.slots|)
    requires DueBy(c.ops, sh.slots[At(Start(sh), j, |sh.slots|)], now, e)
    ensures MakeRoom(c, sh, now).1.None?
  {
    hide Orderly, FirstLaw, Sound, AllFine, DueBy, SweepIdle, EvictOne, At;
    var swept := if c.ttl.Some? then SweepIdle(c, sh, now, c.ttl.value, TTL_SWEEP) else sh;
    if c.ttl.Some? { SweepKeepsDue(c, sh, now, c.ttl.value, TTL_SWEEP, At(Start(sh), j, |sh.slots|), e); }
    if |swept.slots| >= c.cap { DueMakesRoom(c, swept, now, j, e); }
  }

  lemma LookedHint<S(!new)>(o: KeyOps<S>, x: Slot<S>, now: nat)
    requires Lawful(o) && now < o.horizon && Fine(o, x, now)
    ensures HintOk(o, x.(state := o.look(x.state, now)), now)
  {
    hide Orderly, FirstLaw, Tells;
    if Trusted(x) { LookKeepsTelling(o, x.key, x.state, now, x.hint); }
  }

  lemma EvictFine<S(!new)>(c: Config<S>, sh: Shard<S>, pos: nat, recovered: bool, now: nat)
    requires Sound(c.g) && WF(c.g, sh.table) && Lawful(c.ops) && now < c.ops.horizon && AllFine(c, sh, now)
             && pos < |sh.slots|
    ensures AllFine(c, EvictAt(c, sh, pos, recovered, now), now)
  {
    hide Orderly, FirstLaw, Sound, RecordDebt, HintOk;
    var x := sh.slots[pos];
    assert Fine(c.ops, x, now);
    Looked(c.ops, x.key, x.state, now, now);
    LookedHint(c.ops, x, now);
  }

  lemma SweepOneFine<S(!new)>(c: Config<S>, sh: Shard<S>, now: nat, ttl: nat)
    requires Sound(c.g) && WF(c.g, sh.table) && Lawful(c.ops) && now < c.ops.horizon <= LAST
             && AllFine(c, sh, now) && |sh.slots| > 0
    ensures AllFine(c, SweepOne(c, sh, now, ttl), now)
  {
    var at := if sh.sweep >= |sh.slots| then 0 else sh.sweep;
    var sh0 := sh.(sweep := at);
    FineCursor(c, sh, sh0, now);
    FineCursor(c, sh, sh.(sweep := at + 1), now);
    EvictableFine(c, sh0, now, at);
    var sh1 := Evictable(c, sh0, at, now).0;
    EvictFine(c, sh1, at, true, now);
    EvictFine(c, sh1, at, false, now);
    FineCursor(c, sh1, sh1.(sweep := at + 1), now);
    hide Orderly, FirstLaw, Sound, AllFine, Evictable, EvictAt, Expired;
  }

  lemma {:induction false} SweepFine<S(!new)>(c: Config<S>, sh: Shard<S>, now: nat, ttl: nat, steps: nat)
    requires Sound(c.g) && WF(c.g, sh.table) && Lawful(c.ops) && now < c.ops.horizon <= LAST && AllFine(c, sh, now)
    ensures AllFine(c, SweepIdle(c, sh, now, ttl, steps), now)
    decreases steps
  {
    hide Orderly, FirstLaw, Sound, AllFine, SweepOne;
    if steps > 0 && |sh.slots| > 0 {
      SweepOneFine(c, sh, now, ttl);
      SweepFine(c, SweepOne(c, sh, now, ttl), now, ttl, steps - 1);
    }
  }

  /** What a refusing `make_room` leaves behind. */
  lemma RoomRefused<S(!new)>(c: Config<S>, sh: Shard<S>, now: nat)
    requires Sound(c.g) && WF(c.g, sh.table) && Lawful(c.ops) && now < c.ops.horizon <= LAST && c.cap >= 1
    requires |sh.slots| <= c.cap && AllFine(c, sh, now) && MakeRoom(c, sh, now).1.Some?
    ensures var (r, err) := MakeRoom(c, sh, now);
            0 < |r.slots| <= c.cap && AllFine(c, r, now) && EarliestDue(c, r, now, err.value)
  {
    RoomIsMade(c, sh, now);
    hide Orderly, FirstLaw, Sound, AllFine, EarliestDue, SweepIdle, EvictOne;
    var swept := if c.ttl.Some? then SweepIdle(c, sh, now, c.ttl.value, TTL_SWEEP) else sh;
    if c.ttl.Some? { SweepFine(c, sh, now, c.ttl.value, TTL_SWEEP); }
    RefusalWitnessed(c, swept, now);
  }

  lemma WaitIsEnough(now: nat, e: nat, later: nat)
    requires later < LAST && Millis(now) < e && now + (e - Millis(now)) * NANOS_PER_MILLI <= later
    ensures now <= later && e <= Millis(later) && e * NANOS_PER_MILLI <= later
  {
    MillisFloor(now);
    MillisFloor(later);
  }

  lemma ReportedAt<S(!new)>(c: Config<S>, sh: Shard<S>, start: nat, scan: nat, now: nat, e: nat) returns (j: nat)
    requires |sh.slots| > 0 && Reports(c, sh, start, scan, now, e)
    ensures j < scan && OwesUntil(c.ops, sh.slots[At(start, j, |sh.slots|)], now, e)
  {
    hide OwesUntil, At;
    j :| j < scan && OwesUntil(c.ops, sh.slots[At(start, j, |sh.slots|)], now, e);
  }

  lemma FineAt<S(!new)>(c: Config<S>, sh: Shard<S>, now: nat, pos: nat)
    requires AllFine(c, sh, now) && pos < |sh.slots|
    ensures Fine(c.ops, sh.slots[pos], now)
  {
  }

  /** From the earliest deadline on there is room. */
  lemma RoomWhenDue<S(!new)>(c: Config<S>, sh: Shard<S>, now: nat, e: nat, later: nat)
    requires Sound(c.g) && WF(c.g, sh.table) && Lawful(c.ops) && |sh.slots| <= c.cap && AllFine(c, sh, now)
    requires now < c.ops.horizon <= LAST && EarliestDue(c, sh, now, e)
    requires now + (e - Millis(now)) * NANOS_PER_MILLI <= later < c.ops.horizon
    ensures MakeRoom(c, sh, later).1.None?
  {
    hide Orderly, FirstLaw, Sound, AllFine, Reports, AllHeld, MakeRoom, DueBy, At, Fine, OwesUntil;
    var start, scan := Start(sh), Min(CLOCK_SCAN, |sh.slots|);
    WaitIsEnough(now, e, later);
    var j := ReportedAt(c, sh, start, scan, now, e);
    FineAt(c, sh, now, At(start, j, |sh.slots|));
    OwingIsDue(c.ops, sh.slots[At(start, j, |sh.slots|)], now, e);
    DueLater(c.ops, sh.slots[At(start, j, |sh.slots|)], now, later, e);
    FineLater(c, sh, now, later);
    DueGetsRoom(c, sh, later, j, e);
  }

  /** A check is refused exactly if a newcomer finds no room, and says how long. */
  lemma RefusedIff<S(!new)>(c: Config<S>, sh: Shard<S>, key: nat, n: nat, now: nat)
    requires Sound(c.g) && WF(c.g, sh.table)
    ensures var r := Check(c, sh, key, n, now);
            var (roomy, err) := MakeRoom(c, sh, now);
            && (r.refused ==> err.Some? && r.shard == roomy
                              && r.decision == Deny(Max(SatSub(err.value, Millis(now)), 1) * NANOS_PER_MILLI))
            && (err.None? ==> !r.refused)
  {
    hide Sound, MakeRoom, Admit, Position, Millis;
  }

  /** A refusal reports the earliest deadline of the slots it examined, in whole
      milliseconds from now. */
  lemma RefusalReports<S(!new)>(c: Config<S>, sh: Shard<S>, key: nat, n: nat, now: nat) returns (e: nat)
    requires Sound(c.g) && WF(c.g, sh.table) && Lawful(c.ops) && c.cap >= 1 && |sh.slots| <= c.cap
             && AllFine(c, sh, now) && now < c.ops.horizon <= LAST
    requires Check(c, sh, key, n, now).refused
    ensures var r := Check(c, sh, key, n, now);
            && Millis(now) < e && r.decision == Deny((e - Millis(now)) * NANOS_PER_MILLI) && WF(c.g, r.shard.table)
            && EarliestDue(c, r.shard, now, e) && AllFine(c, r.shard, now) && |r.shard.slots| <= c.cap
  {
    hide Orderly, FirstLaw, Sound, AllFine, Reports, AllHeld, MakeRoom, Check, Millis;
    RefusedIff(c, sh, key, n, now);
    RoomRefused(c, sh, now);
    e := MakeRoom(c, sh, now).1.value;
  }

  /** Every slot of the shard's window owes. */
  ghost predicate AllOwe<S(!new)>(c: Config<S>, sh: Shard<S>, t: nat) {
    |sh.slots| > 0 && forall j: nat :: j < Min(CLOCK_SCAN, |sh.slots|) ==>
      c.ops.debt(sh.slots[At(Start(sh), j, |sh.slots|)].state, t).Some?
  }

  lemma HeldAllOwe<S(!new)>(c: Config<S>, sh: Shard<S>, now: nat, e: nat, t: nat)
    requires Sound(c.g) && WF(c.g, sh.table) && Lawful(c.ops) && AllFine(c, sh, now) && now <= t < c.ops.horizon <= LAST
    requires EarliestDue(c, sh, now, e)
    requires t + NANOS_PER_MILLI <= e * NANOS_PER_MILLI
    ensures AllOwe(c, sh, t)
  {
    hide Orderly, FirstLaw, At, Fine, Reports, Millis, HasExactRoom, Sound;
    forall j: nat | j < Min(CLOCK_SCAN, |sh.slots|)
      ensures c.ops.debt(sh.slots[At(Start(sh), j, |sh.slots|)].state, t).Some?
    {
      var x := sh.slots[At(Start(sh), j, |sh.slots|)];
      assert Held(c.ops, x, now, e) && Fine(c.ops, x, now);
      HeldStillOwes(c.ops, x, now, e, t);
    }
  }

  /** A refusal is honest: it reports the earliest deadline of the slots examined.
      Up to a millisecond before that every one of them still owes; and whoever comes
      back to the refusing shard once the wait is over, nothing else having
      happened, is not refused. */
  lemma RefusalIsHonest<S(!new)>(c: Config<S>, sh: Shard<S>, key: nat, n: nat, now: nat, key': nat, n': nat,
                                 later: nat) returns (e: nat)
    requires Sound(c.g) && WF(c.g, sh.table) && Lawful(c.ops) && c.cap >= 1 && |sh.slots| <= c.cap
             && AllFine(c, sh, now) && now <= later < c.ops.horizon <= LAST
    requires Check(c, sh, key, n, now).refused
    ensures var r := Check(c, sh, key, n, now);
            && Millis(now) < e && r.decision == Deny((e - Millis(now)) * NANOS_PER_MILLI) && WF(c.g, r.shard.table)
            && EarliestDue(c, r.shard, now, e)
            && (later + NANOS_PER_MILLI <= e * NANOS_PER_MILLI ==> AllOwe(c, r.shard, later))
            && (later >= now + r.decision.retryAfter ==> !Check(c, r.shard, key', n', later).refused)
  {
    hide Orderly, FirstLaw, Sound, AllFine, EarliestDue, MakeRoom, Check, Millis, AllOwe;
    e := RefusalReports(c, sh, key, n, now);
    var r := Check(c, sh, key, n, now).shard;
    if later + NANOS_PER_MILLI <= e * NANOS_PER_MILLI { HeldAllOwe(c, r, now, e, later); }
    if later >= now + (e - Millis(now)) * NANOS_PER_MILLI {
      RoomWhenDue(c, r, now, e, later);
      RefusedIff(c, r, key', n', later);
    }
  }

  // -------------------------------------------------------------- whole runs

  lemma ReachableIsFine<S(!new)>(c: Config<S>, keys: set<nat>, events: seq<ShardRuns.Event>,
                                 states: seq<ShardRuns.Sim<S>>, i: nat, now: nat)
    requires ShardSafety.Setting(c, keys) && !c.forget && ShardRuns.Run(c, keys, events, states) && i < |states|
    requires states[i].now <= now < c.ops.horizon
    ensures WF(c.g, states[i].shard.table) && |states[i].shard.slots| <= c.cap && AllFine(c, states[i].shard, now)
  {
    ShardRuns.RunKeepsInv(c, keys, events, states, i);
    hide Orderly, FirstLaw, Sound, ShardRuns.Run, HintOk, ShardSafety.Distinct;
    var s := states[i];
    var m :| ShardSafety.Inv(c, keys, s.shard, s.ideal, s.now, m);
    forall p: nat | p < |s.shard.slots| ensures Fine(c.ops, s.shard.slots[p], s.now) {
      ShardIndex.ContentAt(s.shard, p);
      assert ShardSafety.Good(c.ops, s.ideal, s.now, s.shard.slots[p]);
    }
    FineLater(c, s.shard, s.now, now);
  }

  /** In every run, at every state it reaches, a refusal is honest. */
  lemma EveryRefusalIsHonest<S(!new)>(c: Config<S>, keys: set<nat>, events: seq<ShardRuns.Event>,
                                      states: seq<ShardRuns.Sim<S>>, i: nat,
                                      key: nat, n: nat, now: nat, key': nat, n': nat, later: nat) returns (e: nat)
    requires ShardSafety.Setting(c, keys) && !c.forget && ShardRuns.Run(c, keys, events, states) && i < |states|
    requires states[i].now <= now <= later < c.ops.horizon && WF(c.g, states[i].shard.table)
    requires Check(c, states[i].shard, key, n, now).refused
    ensures var r := Check(c, states[i].shard, key, n, now);
            && Millis(now) < e && r.decision == Deny((e - Millis(now)) * NANOS_PER_MILLI) && WF(c.g, r.shard.table)
            && EarliestDue(c, r.shard, now, e)
            && (later + NANOS_PER_MILLI <= e * NANOS_PER_MILLI ==> AllOwe(c, r.shard, later))
            && (later >= now + r.decision.retryAfter ==> !Check(c, r.shard, key', n', later).refused)
  {
    hide Orderly, FirstLaw, Sound, AllFine, EarliestDue, Check, Millis, AllOwe, ShardRuns.Run, ShardSafety.Distinct, WF;
    ReachableIsFine(c, keys, events, states, i, now);
    e := RefusalIsHonest(c, states[i].shard, key, n, now, key', n', later);
  }
}

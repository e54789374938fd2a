/** Which key `evict_one` takes (src/store.rs:26-35, 1052-1135): of the slots in the
    hand's window, the first among those it likes best to lose. */
module ShardClock {
  import opened Units
  import opened Probe
  import opened RecoveryTable
  import opened KeyLaws
  import opened Shard
  import ShardHints
  import opened ShardSteps
  import ShardSafety
  import ShardRuns
  import opened ShardRefusal

  /** The slot was checked since the hand last passed, and not too long ago. */
  predicate InUse<S>(c: Config<S>, x: Slot<S>, now: nat) {
    x.referenced && (c.ttl.Some? ==> c.ttl.value > 0 && Millis(now) < x.lastSeen + c.ttl.value)
  }

  /** How gladly the hand takes a slot, the least first: one that is whole and not in
      use; one that owes and is not in use, if its debt can be recorded; one in use,
      whole or with a debt that can be recorded; one that cannot go. */
  ghost function Rank<S(!new)>(c: Config<S>, t: Table, x: Slot<S>, now: nat): nat
    requires Sound(c.g) && WF(c.g, t)
  {
    var whole := c.ops.debt(x.state, now).None?;
    var free := !x.seeded || HasExactRoom(c.g, t, x.hash, Millis(now));
    if !whole && !free then 3
    else if InUse(c, x, now) then 2
    else if whole then 0 else 1
  }

  /** The position `j` slots ahead of the hand, which may stand past the end. */
  function Ahead<S>(sh: Shard<S>, j: nat): (pos: nat)
    requires |sh.slots| > 0
    ensures pos < |sh.slots|
  {
    ((if sh.hand < |sh.slots| then sh.hand else 0) + j) % |sh.slots|
  }

  /** The rank of the slot that step `j` of the scan looks at. */
  ghost function RankAt<S(!new)>(c: Config<S>, sh: Shard<S>, j: nat, now: nat): nat
    requires Sound(c.g) && WF(c.g, sh.table) && |sh.slots| > 0
  {
    Rank(c, sh.table, sh.slots[Ahead(sh, j)], now)
  }

  function Window<S>(sh: Shard<S>): nat { Min(CLOCK_SCAN, |sh.slots|) }

  /** Step `j` looks at the slot to take: none in the window ranks lower, and none
      as low comes before it. */
  ghost predicate Chosen<S(!new)>(c: Config<S>, sh: Shard<S>, j: nat, now: nat)
    requires Sound(c.g) && WF(c.g, sh.table) && |sh.slots| > 0
  {
    && j < Window(sh) && RankAt(c, sh, j, now) < 3
    && forall i: nat :: i < Window(sh) ==>
         RankAt(c, sh, j, now) < RankAt(c, sh, i, now) || (RankAt(c, sh, j, now) == RankAt(c, sh, i, now) && j <= i)
  }

  /** The slot at `pos` went, the last took its place, and the hand stepped past. */
  ghost predicate Took<S(!new)>(sh: Shard<S>, r: Shard<S>, pos: nat)
    requires pos < |sh.slots|
  {
    && |r.slots| == |sh.slots| - 1 && r.hand == pos + 1
    && forall p: nat {:trigger r.slots[p]} :: p < |r.slots| ==>
         r.slots[p].key == sh.slots[if p == pos then |sh.slots| - 1 else p].key
  }

  // ------------------------------------------------------------- examination

  lemma AheadIs<S(!new)>(sh: Shard<S>, j: nat)
    requires |sh.slots| > 0
    ensures At(Start(sh), j, |sh.slots|) == Ahead(sh, j)
  {
  }

  lemma InUseIs<S(!new)>(c: Config<S>, x: Slot<S>, now: nat)
    ensures SecondChance(x, Millis(now), c.ttl) <==> InUse(c, x, now)
  {
    hide Millis;
  }

  /** Examining slots changes neither who is where nor what anyone owes. */
  ghost predicate Examined<S(!new)>(c: Config<S>, sh: Shard<S>, r: Shard<S>, now: nat) {
    && Alike(sh, r) && AllFine(c, r, now)
    && forall p: nat {:trigger r.slots[p]} :: p < |sh.slots| ==>
         c.ops.debt(r.slots[p].state, now) == c.ops.debt(sh.slots[p].state, now)
  }

  /** And the slots from step `step` on are as they were. */
  ghost predicate Ready<S(!new)>(c: Config<S>, sh: Shard<S>, r: Shard<S>, step: nat, now: nat)
    requires |sh.slots| > 0
  {
    && Examined(c, sh, r, now)
    && forall i: nat {:trigger Ahead(sh, i)} :: step <= i < Window(sh) ==>
         r.slots[Ahead(sh, i)] == sh.slots[Ahead(sh, i)]
  }

  lemma AtIs(start: nat, i: nat, len: nat)
    requires start < len && i < len
    ensures At(start, i, len) == if start + i < len then start + i else start + i - len
  {
  }

  lemma StepsDiffer<S(!new)>(sh: Shard<S>, i: nat, j: nat)
    requires i < j < |sh.slots|
    ensures Ahead(sh, i) != Ahead(sh, j)
  {
    var start := if sh.hand < |sh.slots| then sh.hand else 0;
    AtIs(start, i, |sh.slots|);
    AtIs(start, j, |sh.slots|);
  }

  lemma ExaminedNext<S(!new)>(c: Config<S>, sh: Shard<S>, r: Shard<S>, pos: nat, y: Slot<S>, now: nat)
    requires Examined(c, sh, r, now) && pos < |sh.slots| && Fine(c.ops, y, now)
    requires y.key == r.slots[pos].key && y.hash == r.slots[pos].hash && y.seeded == r.slots[pos].seeded
             && c.ops.debt(y.state, now) == c.ops.debt(r.slots[pos].state, now)
    ensures Examined(c, sh, r.(slots := r.slots[pos := y]), now)
  {
    hide Fine;
  }

  lemma ReadyNext<S(!new)>(c: Config<S>, sh: Shard<S>, r: Shard<S>, r1: Shard<S>, step: nat, y: Slot<S>, now: nat)
    requires |sh.slots| > 0 && Ready(c, sh, r, step, now) && step < Window(sh) && Fine(c.ops, y, now)
    requires var x := r.slots[Ahead(sh, step)];
             && y.key == x.key && y.hash == x.hash && y.seeded == x.seeded
             && c.ops.debt(y.state, now) == c.ops.debt(x.state, now)
    requires r1 == r.(slots := r.slots[Ahead(sh, step) := y])
    ensures Ready(c, sh, r1, step + 1, now)
  {
    hide Fine, Ahead, AllFine;
    ExaminedNext(c, sh, r, Ahead(sh, step), y, now);
    forall i: nat | step + 1 <= i < Window(sh) ensures r1.slots[Ahead(sh, i)] == sh.slots[Ahead(sh, i)] {
      StepsDiffer(sh, step, i);
    }
  }

  /** What the verdict on a slot says about it. */
  lemma VerdictIs<S(!new)>(c: Config<S>, sh: Shard<S>, pos: nat, now: nat)
    requires Sound(c.g) && WF(c.g, sh.table) && Lawful(c.ops) && now < c.ops.horizon <= LAST
    requires AllFine(c, sh, now) && pos < |sh.slots|
    ensures var (r, verdict) := Evictable(c, sh, pos, now);
            var y := Refreshed(c.ops, sh.slots[pos], now);
            && r == sh.(slots := sh.slots[pos := y]) && Fine(c.ops, y, now)
            && y.key == sh.slots[pos].key && y.hash == sh.slots[pos].hash && y.seeded == sh.slots[pos].seeded
            && c.ops.debt(y.state, now) == c.ops.debt(sh.slots[pos].state, now)
            && (verdict.Recovered? <==> c.ops.debt(sh.slots[pos].state, now).None?)
            && (verdict.No? <==> c.ops.debt(sh.slots[pos].state, now).Some? && !CanGo(c, sh, pos, now))
  {
    hide Orderly, FirstLaw, Sound, HasExactRoom, Refreshed, ShardHints.Tells, Millis;
    assert Fine(c.ops, sh.slots[pos], now);
    ShardHints.RefreshedIsWhole(c.ops, sh.slots[pos], now);
  }

  /** What a scan takes, it takes out of the shard it began with. */
  lemma TakesFrom<S(!new)>(c: Config<S>, sh: Shard<S>, r: Shard<S>, pos: nat, recovered: bool, now: nat)
    requires Sound(c.g) && WF(c.g, sh.table) && Alike(sh, r) && pos < |sh.slots| && (recovered || CanGo(c, r, pos, now))
    ensures Took(sh, FinishEviction(c, r, pos, recovered, now), pos)
  {
    hide Sound, HasExactRoom, EvictAt;
    EvictedSlots(c, r, pos, recovered, now);
  }

  lemma AlikeGoes<S(!new)>(c: Config<S>, sh: Shard<S>, r: Shard<S>, pos: nat, now: nat)
    requires Sound(c.g) && WF(c.g, sh.table) && Alike(sh, r) && pos < |sh.slots|
    ensures CanGo(c, sh, pos, now) <==> CanGo(c, r, pos, now)
  {
    hide Sound, HasExactRoom;
  }

  lemma AlikeLength<S(!new)>(sh: Shard<S>, r: Shard<S>)
    requires Alike(sh, r)
    ensures |r.slots| == |sh.slots| && r.table == sh.table
  {
  }

  lemma ReadyIs<S(!new)>(c: Config<S>, sh: Shard<S>, r: Shard<S>, step: nat, now: nat)
    requires |sh.slots| > 0 && Ready(c, sh, r, step, now) && step < Window(sh)
    ensures var pos := Ahead(sh, step);
            && AllFine(c, r, now) && Alike(sh, r) && |r.slots| == |sh.slots| && r.table == sh.table
            && r.slots[pos] == sh.slots[pos] && Fine(c.ops, r.slots[pos], now)
  {
    hide Fine, Ahead;
  }

  lemma ReadyExamined<S(!new)>(c: Config<S>, sh: Shard<S>, r: Shard<S>, step: nat, now: nat)
    requires |sh.slots| > 0 && Ready(c, sh, r, step, now)
    ensures Examined(c, sh, r, now)
  {
  }

  lemma ExaminedIs<S(!new)>(c: Config<S>, sh: Shard<S>, r: Shard<S>, now: nat)
    requires Examined(c, sh, r, now)
    ensures AllFine(c, r, now) && Alike(sh, r)
  {
  }

  lemma Spared<S(!new)>(o: KeyOps<S>, x: Slot<S>, now: nat)
    requires Fine(o, x, now)
    ensures Fine(o, x.(referenced := false, hint := UNKNOWN), now)
  {
  }

  // -------------------------------------------------------------- first pass

  /** The first pass takes the first slot of rank 0. */
  lemma {:induction false} FirstPassTakes<S(!new)>(c: Config<S>, sh: Shard<S>, s: Scan<S>, step: nat, now: nat, j: nat)
    requires Sound(c.g) && WF(c.g, sh.table) && Lawful(c.ops) && now < c.ops.horizon <= LAST
    requires |sh.slots| > 0 && Ready(c, sh, s.shard, step, now) && step <= j < Window(sh) && !s.done
    requires s.owing.Some? ==> s.owing.value < |sh.slots|
    requires RankAt(c, sh, j, now) == 0 && forall i: nat :: step <= i < j ==> RankAt(c, sh, i, now) != 0
    ensures var r := FirstPass(c, s, Start(sh), step, Window(sh), now);
            r.done && Took(sh, r.shard, Ahead(sh, j))
    decreases j - step
  {
    hide Orderly, FirstLaw, Sound, Ready, Evictable, FinishEviction, SecondChance, At, Start, Ahead, InUse, AllFine,
      Fine, Refreshed, HasExactRoom, Millis, Took, Alike;
    var pos := Ahead(sh, step);
    AheadIs(sh, step);
    ReadyIs(c, sh, s.shard, step, now);
    var x := s.shard.slots[pos];
    InUseIs(c, x, now);
    if SecondChance(x, Millis(now), c.ttl) {
      var y := x.(referenced := false, hint := UNKNOWN);
      Spared(c.ops, x, now);
      var sh1 := s.shard.(slots := s.shard.slots[pos := y]);
      ReadyNext(c, sh, s.shard, sh1, step, y, now);
      assert RankAt(c, sh, step, now) != 0;
      FirstPassTakes(c, sh, s.(shard := sh1), step + 1, now, j);
    } else {
      VerdictIs(c, s.shard, pos, now);
      AlikeGoes(c, sh, s.shard, pos, now);
      var (sh1, verdict) := Evictable(c, s.shard, pos, now);
      ReadyNext(c, sh, s.shard, sh1, step, Refreshed(c.ops, x, now), now);
      if verdict.Recovered? {
        assert RankAt(c, sh, step, now) == 0;
        ReadyExamined(c, sh, sh1, step + 1, now);
        ExaminedIs(c, sh, sh1, now);
        TakesFrom(c, sh, sh1, pos, true, now);
      } else {
        assert RankAt(c, sh, step, now) != 0;
        if verdict.Owing? {
          FirstPassTakes(c, sh, s.(shard := sh1, owing := if s.owing.None? then Some(pos) else s.owing), step + 1, now,
                         j);
        } else {
          FirstPassTakes(c, sh, s.(shard := sh1, earliest := Min(s.earliest, verdict.at)), step + 1, now, j);
        }
      }
    }
  }

  /** Without a slot of rank 0 the first pass takes none, and notes the first of
      rank 1: the one step `j` looks at, if `j` is in the window. */
  lemma {:induction false} FirstPassPasses<S(!new)>(c: Config<S>, sh: Shard<S>, s: Scan<S>, step: nat, now: nat, j: nat)
    requires Sound(c.g) && WF(c.g, sh.table) && Lawful(c.ops) && now < c.ops.horizon <= LAST
    requires |sh.slots| > 0 && Ready(c, sh, s.shard, step, now) && step <= Window(sh) && !s.done
    requires s.owing.Some? ==> s.owing.value < |sh.slots|
    requires forall i: nat :: step <= i < Window(sh) ==> RankAt(c, sh, i, now) != 0
    requires s.owing.None? ==>
               && step <= j && (j < Window(sh) ==> RankAt(c, sh, j, now) == 1)
               && forall i: nat :: step <= i < j && i < Window(sh) ==> RankAt(c, sh, i, now) != 1
    ensures var r := FirstPass(c, s, Start(sh), step, Window(sh), now);
            && !r.done && Examined(c, sh, r.shard, now)
            && r.owing == if s.owing.Some? then s.owing
                          else if j < Window(sh) then Some(Ahead(sh, j)) else None
    decreases Window(sh) - step
  {
    hide Orderly, FirstLaw, Sound, Ready, Evictable, FinishEviction, SecondChance, At, Start, Ahead, InUse, AllFine,
      Fine, Refreshed, HasExactRoom, Millis, Examined;
    if step == Window(sh) {
      ReadyExamined(c, sh, s.shard, step, now);
    } else {
      var pos := Ahead(sh, step);
      AheadIs(sh, step);
      ReadyIs(c, sh, s.shard, step, now);
      var x := s.shard.slots[pos];
      InUseIs(c, x, now);
      assert RankAt(c, sh, step, now) != 0;
      if SecondChance(x, Millis(now), c.ttl) {
        var y := x.(referenced := false, hint := UNKNOWN);
        Spared(c.ops, x, now);
        var sh1 := s.shard.(slots := s.shard.slots[pos := y]);
        ReadyNext(c, sh, s.shard, sh1, step, y, now);
        assert RankAt(c, sh, step, now) != 1;
        FirstPassPasses(c, sh, s.(shard := sh1), step + 1, now, j);
      } else {
        VerdictIs(c, s.shard, pos, now);
        AlikeGoes(c, sh, s.shard, pos, now);
        var (sh1, verdict) := Evictable(c, s.shard, pos, now);
        ReadyNext(c, sh, s.shard, sh1, step, Refreshed(c.ops, x, now), now);
        assert !verdict.Recovered?;
        if verdict.Owing? {
          assert RankAt(c, sh, step, now) == 1;
          FirstPassPasses(c, sh, s.(shard := sh1, owing := if s.owing.None? then Some(pos) else s.owing), step + 1, now,
                          j);
        } else {
          assert RankAt(c, sh, step, now) == 3;
          FirstPassPasses(c, sh, s.(shard := sh1, earliest := Min(s.earliest, verdict.at)), step + 1, now, j);
        }
      }
    }
  }

  // ------------------------------------------------------------- second pass

  /** A slot's verdict after examination is as its rank said. */
  lemma VerdictAfter<S(!new)>(c: Config<S>, sh: Shard<S>, r: Shard<S>, j: nat, now: nat)
    requires Sound(c.g) && WF(c.g, sh.table) && Lawful(c.ops) && now < c.ops.horizon <= LAST
    requires |sh.slots| > 0 && Examined(c, sh, r, now)
    ensures var pos := Ahead(sh, j);
            var (r1, verdict) := Evictable(c, r, pos, now);
            && Examined(c, sh, r1, now) && (verdict.No? <==> RankAt(c, sh, j, now) == 3)
            && (verdict.Owing? ==> CanGo(c, r1, pos, now))
  {
    hide Orderly, FirstLaw, Sound, HasExactRoom, Ahead, InUse, AllFine, Fine, Refreshed, Evictable, Millis;
    var pos := Ahead(sh, j);
    VerdictIs(c, r, pos, now);
    AlikeGoes(c, sh, r, pos, now);
    EvictableAlike(c, r, pos, now);
    ExaminedNext(c, sh, r, pos, Refreshed(c.ops, r.slots[pos], now), now);
  }

  /** The second pass takes the first slot that can go. */
  lemma {:induction false} SecondPassTakes<S(!new)>(c: Config<S>, sh: Shard<S>, s: Scan<S>, step: nat, now: nat, j: nat)
    requires Sound(c.g) && WF(c.g, sh.table) && Lawful(c.ops) && now < c.ops.horizon <= LAST
    requires |sh.slots| > 0 && Examined(c, sh, s.shard, now) && step <= j < Window(sh) && !s.done
    requires RankAt(c, sh, j, now) != 3 && forall i: nat :: step <= i < j ==> RankAt(c, sh, i, now) == 3
    ensures var r := SecondPass(c, s, Start(sh), step, Window(sh), now);
            r.done && Took(sh, r.shard, Ahead(sh, j))
    decreases j - step
  {
    hide Orderly, FirstLaw, Sound, Evictable, FinishEviction, At, Start, Ahead, AllFine, Examined, RankAt, Took,
      Alike, CanGo;
    var pos := Ahead(sh, step);
    AheadIs(sh, step);
    ExaminedIs(c, sh, s.shard, now);
    AlikeLength(sh, s.shard);
    VerdictAfter(c, sh, s.shard, step, now);
    var (sh1, verdict) := Evictable(c, s.shard, pos, now);
    ExaminedIs(c, sh, sh1, now);
    match verdict
    case Recovered => TakesFrom(c, sh, sh1, pos, true, now);
    case Owing => TakesFrom(c, sh, sh1, pos, false, now);
    case No(at) =>
      SecondPassTakes(c, sh, s.(shard := sh1, earliest := Min(s.earliest, at)), step + 1, now, j);
  }

  lemma {:induction false} SecondPassFails<S(!new)>(c: Config<S>, sh: Shard<S>, s: Scan<S>, step: nat, now: nat)
    requires Sound(c.g) && WF(c.g, sh.table) && Lawful(c.ops) && now < c.ops.horizon <= LAST
    requires |sh.slots| > 0 && Examined(c, sh, s.shard, now) && step <= Window(sh) && !s.done
    requires forall i: nat :: step <= i < Window(sh) ==> RankAt(c, sh, i, now) == 3
    ensures !SecondPass(c, s, Start(sh), step, Window(sh), now).done
    decreases Window(sh) - step
  {
    hide Orderly, FirstLaw, Sound, Evictable, FinishEviction, At, Start, Ahead, AllFine, Examined, RankAt, Alike, CanGo;
    if step < Window(sh) {
      var pos := Ahead(sh, step);
      AheadIs(sh, step);
      ExaminedIs(c, sh, s.shard, now);
      AlikeLength(sh, s.shard);
      VerdictAfter(c, sh, s.shard, step, now);
      var (sh1, verdict) := Evictable(c, s.shard, pos, now);
      assert verdict.No?;
      SecondPassFails(c, sh, s.(shard := sh1, earliest := Min(s.earliest, verdict.at)), step + 1, now);
    }
  }

  // ------------------------------------------------------------ the eviction

  lemma BeginsReady<S(!new)>(c: Config<S>, sh: Shard<S>, now: nat)
    requires |sh.slots| > 0 && AllFine(c, sh, now)
    ensures Ready(c, sh, sh, 0, now)
  {
    AlikeSelf(sh);
  }

  lemma RankOneGoes<S(!new)>(c: Config<S>, sh: Shard<S>, j: nat, now: nat)
    requires Sound(c.g) && WF(c.g, sh.table) && |sh.slots| > 0 && RankAt(c, sh, j, now) == 1
    ensures CanGo(c, sh, Ahead(sh, j), now)
  {
    hide Sound, HasExactRoom, Ahead, InUse, Millis;
  }

  lemma RankIs<S(!new)>(c: Config<S>, sh: Shard<S>, now: nat)
    requires Sound(c.g) && WF(c.g, sh.table) && |sh.slots| > 0
    ensures forall i: nat :: RankAt(c, sh, i, now) <= 3
  {
    hide Sound, HasExactRoom, Ahead, InUse, Millis;
  }

  /** `evict_one` takes the chosen slot. */
  lemma ChosenGoes<S(!new)>(c: Config<S>, sh: Shard<S>, now: nat, j: nat)
    requires Sound(c.g) && WF(c.g, sh.table) && Lawful(c.ops) && now < c.ops.horizon <= LAST
    requires |sh.slots| > 0 && AllFine(c, sh, now) && Chosen(c, sh, j, now)
    ensures var (r, err) := EvictOne(c, sh, now); err.None? && Took(sh, r, Ahead(sh, j))
  {
    hide Orderly, FirstLaw, Sound, FirstPass, SecondPass, FinishEviction, At, Start, Ahead, AllFine, Ready, RankAt,
      Took, CanGo;
    var s0 := Scan(sh, false, None, UNKNOWN);
    var first := FirstPass(c, s0, Start(sh), 0, Window(sh), now);
    BeginsReady(c, sh, now);
    var rank := RankAt(c, sh, j, now);
    if rank == 0 {
      FirstPassTakes(c, sh, s0, 0, now, j);
    } else if rank == 1 {
      FirstPassPasses(c, sh, s0, 0, now, j);
      ExaminedIs(c, sh, first.shard, now);
      RankOneGoes(c, sh, j, now);
      AlikeGoes(c, sh, first.shard, Ahead(sh, j), now);
      TakesFrom(c, sh, first.shard, Ahead(sh, j), false, now);
    } else {
      RankIs(c, sh, now);
      FirstPassPasses(c, sh, s0, 0, now, Window(sh));
      SecondPassTakes(c, sh, first, 0, now, j);
    }
  }

  /** It fails if nothing in the window can go. */
  lemma NobodyGoes<S(!new)>(c: Config<S>, sh: Shard<S>, now: nat)
    requires Sound(c.g) && WF(c.g, sh.table) && Lawful(c.ops) && now < c.ops.horizon <= LAST
    requires |sh.slots| > 0 && AllFine(c, sh, now)
    requires forall i: nat :: i < Window(sh) ==> RankAt(c, sh, i, now) == 3
    ensures EvictOne(c, sh, now).1.Some?
  {
    hide Orderly, FirstLaw, Sound, FirstPass, SecondPass, FinishEviction, At, Start, Ahead, AllFine, Ready, RankAt,
      CanGo;
    var s0 := Scan(sh, false, None, UNKNOWN);
    BeginsReady(c, sh, now);
    FirstPassPasses(c, sh, s0, 0, now, Window(sh));
    SecondPassFails(c, sh, FirstPass(c, s0, Start(sh), 0, Window(sh), now), 0, now);
  }

  /** The least of the first `n` steps' ranks, and where it first is. */
  lemma {:induction false} LeastRank<S(!new)>(c: Config<S>, sh: Shard<S>, n: nat, now: nat) returns (j: nat)
    requires Sound(c.g) && WF(c.g, sh.table) && |sh.slots| > 0 && n > 0
    ensures j < n
    ensures forall i: nat :: i < n ==>
              RankAt(c, sh, j, now) < RankAt(c, sh, i, now)
              || (RankAt(c, sh, j, now) == RankAt(c, sh, i, now) && j <= i)
  {
    hide Sound, RankAt;
    if n == 1 {
      j := 0;
    } else {
      j := LeastRank(c, sh, n - 1, now);
      if RankAt(c, sh, n - 1, now) < RankAt(c, sh, j, now) { j := n - 1; }
    }
  }

  /** In every run, `evict_one` takes exactly the chosen slot, and fails exactly if
      nothing in the window can go. */
  lemma EvictionIsByClock<S(!new)>(c: Config<S>, keys: set<nat>, events: seq<ShardRuns.Event>,
                                   states: seq<ShardRuns.Sim<S>>, i: nat, now: nat) returns (j: nat)
    requires ShardSafety.Setting(c, keys) && !c.forget && ShardRuns.Run(c, keys, events, states) && i < |states|
    requires states[i].now <= now < c.ops.horizon && WF(c.g, states[i].shard.table) && |states[i].shard.slots| > 0
    ensures var sh := states[i].shard;
            var (r, err) := EvictOne(c, sh, now);
            && (err.None? ==> Chosen(c, sh, j, now) && Took(sh, r, Ahead(sh, j)))
            && (err.Some? <==> forall i: nat :: i < Window(sh) ==> RankAt(c, sh, i, now) == 3)
  {
    ReachableIsFine(c, keys, events, states, i, now);
    hide Orderly, FirstLaw, Sound, AllFine, EvictOne, RankAt, Took, ShardRuns.Run, ShardSafety.Distinct, Ahead;
    var sh := states[i].shard;
    j := LeastRank(c, sh, Window(sh), now);
    RankIs(c, sh, now);
    if RankAt(c, sh, j, now) < 3 { ChosenGoes(c, sh, now, j); } else { NobodyGoes(c, sh, now); }
  }

  /** A key is in use from its second check on: a check leaves its slot referenced
      exactly if it was stored before. */
  lemma UsedFromSecondCheck<S(!new)>(c: Config<S>, sh: Shard<S>, key: nat, n: nat, now: nat) returns (p: nat)
    requires Sound(c.g) && WF(c.g, sh.table)
    requires var r := Check(c, sh, key, n, now);
             !r.refused && (Position(sh, c.hash(key), key).Some? || c.ops.create(key, now).Some?)
    ensures var r := Check(c, sh, key, n, now).shard;
            && p < |r.slots| && r.slots[p].key == key
            && (r.slots[p].referenced <==> Position(sh, c.hash(key), key).Some?)
  {
    hide Sound, MakeRoom, Position, Take, FirstHint, MarksTaken;
    var pos := Position(sh, c.hash(key), key);
    p := if pos.Some? then pos.value else |MakeRoom(c, sh, now).0.slots|;
  }
}

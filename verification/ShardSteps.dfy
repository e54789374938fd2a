/** Sweeps and evictions (src/store.rs:1013-1135, 1387-1407): a chosen eviction
    really removes its slot, and the shard never outgrows its cap. */
module ShardSteps {
  import opened Units
  import opened Probe
  import opened RecoveryTable
  import opened RecoveryRecord
  import opened Shard

  // ------------------------------------------------------------------- sizes

  /** What a verdict of `Owing` promises: the slot's debt can be recorded. */
  predicate CanGo<S>(c: Config<S>, sh: Shard<S>, pos: nat, now: nat)
    requires Sound(c.g) && WF(c.g, sh.table) && pos < |sh.slots|
  {
    !sh.slots[pos].seeded || HasExactRoom(c.g, sh.table, sh.slots[pos].hash, Millis(now))
  }

  /** Examining slots changes neither the table nor who is where. */
  ghost predicate Alike<S(!new)>(sh: Shard<S>, r: Shard<S>) {
    && |r.slots| == |sh.slots| && r.table == sh.table
    && (forall p: nat {:trigger r.slots[p]} :: p < |sh.slots| ==>
          r.slots[p].key == sh.slots[p].key && r.slots[p].hash == sh.slots[p].hash
            && r.slots[p].seeded == sh.slots[p].seeded)
  }

  lemma AlikeReplaced<S(!new)>(sh: Shard<S>, pos: nat, y: Slot<S>)
    requires pos < |sh.slots| && y.key == sh.slots[pos].key && y.hash == sh.slots[pos].hash
             && y.seeded == sh.slots[pos].seeded
    ensures Alike(sh, sh.(slots := sh.slots[pos := y]))
  {
  }

  lemma AlikeTrans<S(!new)>(a: Shard<S>, b: Shard<S>, d: Shard<S>)
    requires Alike(a, b) && Alike(b, d)
    ensures Alike(a, d)
  {
  }

  lemma EvictableAlike<S(!new)>(c: Config<S>, sh: Shard<S>, pos: nat, now: nat)
    requires Sound(c.g) && WF(c.g, sh.table) && pos < |sh.slots|
    ensures Alike(sh, Evictable(c, sh, pos, now).0)
    ensures Evictable(c, sh, pos, now).1.Owing? ==> CanGo(c, Evictable(c, sh, pos, now).0, pos, now)
  {
    hide Sound, HasExactRoom, ExactHint;
    AlikeReplaced(sh, pos, Refreshed(c.ops, sh.slots[pos], now));
  }

  /** Every chosen eviction really removes its slot. */
  lemma EvictionRemoves<S(!new)>(c: Config<S>, sh: Shard<S>, pos: nat, recovered: bool, now: nat)
    requires Sound(c.g) && WF(c.g, sh.table) && pos < |sh.slots| && (recovered || CanGo(c, sh, pos, now))
    ensures |EvictAt(c, sh, pos, recovered, now).slots| == |sh.slots| - 1
  {
    hide Sound, HasExactRoom, RecordDebt, RemoveAt;
    var x := sh.slots[pos];
    var debt := c.ops.debt(x.state, now);
    if debt.Some? {
      var d := debt.value;
      RoomIff(c.g, sh.table, x.hash, d.spent, CeilMillis(d.until), Millis(now), c.forget);
      PlainAlwaysRecorded(c.g, sh.table, x.hash, d.spent, CeilMillis(d.until), Millis(now), c.forget);
    }
  }

  /** An eviction that removes a slot moves the last one into its place. */
  lemma EvictedSlots<S(!new)>(c: Config<S>, sh: Shard<S>, pos: nat, recovered: bool, now: nat)
    requires Sound(c.g) && WF(c.g, sh.table) && pos < |sh.slots| && (recovered || CanGo(c, sh, pos, now))
    ensures var last := |sh.slots| - 1;
            var r := EvictAt(c, sh, pos, recovered, now);
            r.slots == sh.slots[pos := sh.slots[last]][..last] && r.sweep == sh.sweep
  {
    EvictionRemoves(c, sh, pos, recovered, now);
    hide Sound, HasExactRoom, RecordDebt, MarksRecorded;
  }

  lemma EvictShrinks<S(!new)>(c: Config<S>, sh: Shard<S>, pos: nat, recovered: bool, now: nat)
    requires Sound(c.g) && WF(c.g, sh.table) && pos < |sh.slots|
    ensures |EvictAt(c, sh, pos, recovered, now).slots| <= |sh.slots|
  {
    hide Sound, RecordDebt, RemoveAt;
  }

  /** Only a noted slot that can go is noted. */
  ghost predicate Noted<S(!new)>(c: Config<S>, s: Scan<S>, now: nat)
    requires Sound(c.g) && WF(c.g, s.shard.table)
  {
    s.owing.Some? ==> s.owing.value < |s.shard.slots| && CanGo(c, s.shard, s.owing.value, now)
  }

  lemma NotedAlike<S(!new)>(c: Config<S>, s: Scan<S>, r: Shard<S>, now: nat)
    requires Sound(c.g) && WF(c.g, s.shard.table) && Noted(c, s, now) && Alike(s.shard, r)
    ensures Noted(c, s.(shard := r), now)
  {
    hide Sound, HasExactRoom;
  }

  lemma NotedNow<S(!new)>(c: Config<S>, s: Scan<S>, r: Shard<S>, owing: Option<nat>, now: nat)
    requires Sound(c.g) && WF(c.g, s.shard.table) && Noted(c, s, now) && Alike(s.shard, r)
    requires owing == s.owing || (owing.Some? && owing.value < |r.slots| && CanGo(c, r, owing.value, now))
    ensures owing.Some? ==> owing.value < |r.slots| && CanGo(c, r, owing.value, now)
  {
    hide Sound, HasExactRoom;
    NotedAlike(c, s, r, now);
  }

  lemma AlikeSelf<S(!new)>(sh: Shard<S>)
    ensures Alike(sh, sh)
  {
  }

  /** The first pass removes one slot, or changes nothing but bits and hints. */
  lemma {:induction false} FirstPassSizes<S(!new)>(c: Config<S>, s: Scan<S>, start: nat, step: nat, scan: nat, now: nat)
    requires Sound(c.g) && WF(c.g, s.shard.table) && |s.shard.slots| > 0 && step <= scan && !s.done && Noted(c, s, now)
    ensures var r := FirstPass(c, s, start, step, scan, now);
            if r.done then |r.shard.slots| == |s.shard.slots| - 1
            else Alike(s.shard, r.shard) && Noted(c, r, now)
    decreases scan - step
  {
    hide Sound, HasExactRoom, Evictable, EvictAt, Alike, Noted, SecondChance;
    if step == scan {
      AlikeSelf(s.shard);
    } else {
      var sh := s.shard;
      var pos := At(start, step, |sh.slots|);
      if SecondChance(sh.slots[pos], Millis(now), c.ttl) {
        var y := sh.slots[pos].(referenced := false, hint := UNKNOWN);
        var sh1 := sh.(slots := sh.slots[pos := y]);
        AlikeReplaced(sh, pos, y);
        FirstPassGoesOn(c, s, s.(shard := sh1), start, step, scan, now);
      } else {
        var (sh1, verdict) := Evictable(c, sh, pos, now);
        EvictableAlike(c, sh, pos, now);
        match verdict
        case Recovered => EvictionRemoves(c, sh1, pos, true, now);
        case Owing => {
          var owing := if s.owing.None? then Some(pos) else s.owing;
          NotedNow(c, s, sh1, owing, now);
          FirstPassGoesOn(c, s, s.(shard := sh1, owing := owing), start, step, scan, now);
        }
        case No(at) => {
          NotedNow(c, s, sh1, s.owing, now);
          FirstPassGoesOn(c, s, s.(shard := sh1, earliest := Min(s.earliest, at)), start, step, scan, now);
        }
      }
    }
  }

  lemma {:induction false} FirstPassGoesOn<S(!new)>(c: Config<S>, s: Scan<S>, s1: Scan<S>, start: nat, step: nat,
                                                    scan: nat, now: nat)
    requires Sound(c.g) && WF(c.g, s.shard.table) && |s.shard.slots| > 0 && step < scan && !s1.done
    requires Alike(s.shard, s1.shard) && Noted(c, s, now)
    requires s1.owing == s.owing
             || (s1.owing.Some? && s1.owing.value < |s1.shard.slots| && CanGo(c, s1.shard, s1.owing.value, now))
    ensures var r := FirstPass(c, s1, start, step + 1, scan, now);
            if r.done then |r.shard.slots| == |s.shard.slots| - 1
            else Alike(s.shard, r.shard) && Noted(c, r, now)
    decreases scan - step, 0
  {
    hide Sound, HasExactRoom, FirstPass;
    NotedNow(c, s, s1.shard, s1.owing, now);
    FirstPassSizes(c, s1, start, step + 1, scan, now);
    var r := FirstPass(c, s1, start, step + 1, scan, now);
    if !r.done { AlikeTrans(s.shard, s1.shard, r.shard); }
  }

  lemma {:induction false} SecondPassSizes<S(!new)>(c: Config<S>, s: Scan<S>, start: nat, step: nat, scan: nat,
                                                    now: nat)
    requires Sound(c.g) && WF(c.g, s.shard.table) && |s.shard.slots| > 0 && step <= scan && !s.done
    ensures var r := SecondPass(c, s, start, step, scan, now);
            if r.done then |r.shard.slots| == |s.shard.slots| - 1 else Alike(s.shard, r.shard)
    decreases scan - step
  {
    hide Sound, HasExactRoom, Evictable, EvictAt, Alike;
    if step == scan {
      AlikeSelf(s.shard);
    } else {
      var pos := At(start, step, |s.shard.slots|);
      var (sh1, verdict) := Evictable(c, s.shard, pos, now);
      EvictableAlike(c, s.shard, pos, now);
      match verdict
      case Recovered => EvictionRemoves(c, sh1, pos, true, now);
      case Owing => EvictionRemoves(c, sh1, pos, false, now);
      case No(at) => {
        var s1 := s.(shard := sh1, earliest := Min(s.earliest, at));
        SecondPassSizes(c, s1, start, step + 1, scan, now);
        var r := SecondPass(c, s1, start, step + 1, scan, now);
        if !r.done { AlikeTrans(s.shard, sh1, r.shard); }
      }
    }
  }

  /** `evict_one` makes room for one, or says that it could not and changes
      nothing but bits and hints. */
  lemma EvictOneMakesRoom<S(!new)>(c: Config<S>, sh: Shard<S>, now: nat)
    requires Sound(c.g) && WF(c.g, sh.table) && |sh.slots| > 0
    ensures var (r, err) := EvictOne(c, sh, now);
            if err.None? then |r.slots| == |sh.slots| - 1 else Alike(sh, r)
  {
    hide Sound, HasExactRoom, FirstPass, SecondPass, EvictAt, Alike;
    var start, scan := Start(sh), Min(CLOCK_SCAN, |sh.slots|);
    var s0 := Scan(sh, false, None, UNKNOWN);
    FirstPassSizes(c, s0, start, 0, scan, now);
    var first := FirstPass(c, s0, start, 0, scan, now);
    if !first.done {
      if first.owing.Some? {
        EvictionRemoves(c, first.shard, first.owing.value, false, now);
      } else {
        SecondPassSizes(c, first, start, 0, scan, now);
        var second := SecondPass(c, first, start, 0, scan, now);
        if !second.done { AlikeTrans(sh, first.shard, second.shard); }
      }
    }
  }

  lemma SweepOneShrinks<S(!new)>(c: Config<S>, sh: Shard<S>, now: nat, ttl: nat)
    requires Sound(c.g) && WF(c.g, sh.table) && |sh.slots| > 0
    ensures |SweepOne(c, sh, now, ttl).slots| <= |sh.slots|
  {
    hide Sound, Evictable, EvictAt;
    var at := if sh.sweep >= |sh.slots| then 0 else sh.sweep;
    var sh1 := Evictable(c, sh.(sweep := at), at, now).0;
    EvictShrinks(c, sh1, at, true, now);
    EvictShrinks(c, sh1, at, false, now);
  }

  lemma {:induction false} SweepShrinks<S(!new)>(c: Config<S>, sh: Shard<S>, now: nat, ttl: nat, steps: nat)
    requires Sound(c.g) && WF(c.g, sh.table)
    ensures |SweepIdle(c, sh, now, ttl, steps).slots| <= |sh.slots|
    decreases steps
  {
    hide Sound, SweepOne;
    if steps > 0 && |sh.slots| > 0 {
      SweepOneShrinks(c, sh, now, ttl);
      SweepShrinks(c, SweepOne(c, sh, now, ttl), now, ttl, steps - 1);
    }
  }

  /** `make_room` leaves room for one more, unless it refuses. */
  lemma RoomIsMade<S(!new)>(c: Config<S>, sh: Shard<S>, now: nat)
    requires Sound(c.g) && WF(c.g, sh.table) && c.cap >= 1 && |sh.slots| <= c.cap
    ensures var (r, err) := MakeRoom(c, sh, now);
            |r.slots| <= c.cap && (err.None? ==> |r.slots| < c.cap)
  {
    hide Sound, SweepIdle, EvictOne;
    var swept := if c.ttl.Some? then SweepIdle(c, sh, now, c.ttl.value, TTL_SWEEP) else sh;
    if c.ttl.Some? { SweepShrinks(c, sh, now, c.ttl.value, TTL_SWEEP); }
    if |swept.slots| >= c.cap { EvictOneMakesRoom(c, swept, now); }
  }

  /** No check takes a shard past its cap. */
  lemma CapIsKept<S(!new)>(c: Config<S>, sh: Shard<S>, key: nat, n: nat, now: nat)
    requires Sound(c.g) && WF(c.g, sh.table) && c.cap >= 1 && |sh.slots| <= c.cap
    ensures |Check(c, sh, key, n, now).shard.slots| <= c.cap
  {
    hide Sound, MakeRoom, FirstHint, Take, Position;
    RoomIsMade(c, sh, now);
  }
}

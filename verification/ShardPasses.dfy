/** The sweeps keep the invariant of `ShardSafety`: whatever they evict, in
    whatever order, every absent key's debt stays covered. */
module ShardPasses {
  import opened Units
  import opened Probe
  import opened RecoveryTable
  import opened RecoveryFacts
  import opened RecoveryCover
  import opened KeyLaws
  import opened Shard
  import opened ShardIndex
  import opened ShardSafety

  /** Clearing a reference bit forgets the hint with it. */
  lemma SecondChanceKeepsInv<S(!new)>(c: Config<S>, keys: set<nat>, sh: Shard<S>, ideal: map<nat, S>, now: nat,
                                      m: map<Id, Record>, pos: nat)
    requires Sound(c.g) && Inv(c, keys, sh, ideal, now, m) && pos < |sh.slots|
    ensures Inv(c, keys, sh.(slots := sh.slots[pos := sh.slots[pos].(referenced := false, hint := UNKNOWN)]),
            ideal, now, m)
  {
    hide Sound, Away, AllAway, Stored, Holds, SpentFits, Indexed, Content;
    var y := sh.slots[pos].(referenced := false, hint := UNKNOWN);
    ContentAt(sh, pos);
    assert Good(c.ops, ideal, now, sh.slots[pos]);
    assert Good(c.ops, ideal, now, y);
    ReplaceKeepsInv(c, keys, sh, ideal, now, m, pos, y);
  }

  /** The part of the invariant the model's functions ask for. */
  lemma InvTable<S(!new)>(c: Config<S>, keys: set<nat>, sh: Shard<S>, ideal: map<nat, S>, now: nat, m: map<Id, Record>)
    requires Sound(c.g) && Inv(c, keys, sh, ideal, now, m)
    ensures WF(c.g, sh.table)
  {
  }

  lemma FinishKeepsInv<S(!new)>(c: Config<S>, keys: set<nat>, sh: Shard<S>, ideal: map<nat, S>, now: nat, m: map<Id,
                                Record>, pos: nat, recovered: bool)
    returns (m': map<Id, Record>)
    requires Setting(c, keys) && !c.forget && Inv(c, keys, sh, ideal, now, m) && pos < |sh.slots| && now < c.ops.horizon
    requires recovered ==> c.ops.debt(sh.slots[pos].state, now).None?
    ensures Inv(c, keys, FinishEviction(c, sh, pos, recovered, now), ideal, now, m')
  {
    InvTable(c, keys, sh, ideal, now, m);
    hide Orderly, FirstLaw, Sound, Distinct, Inv, EvictAt;
    m' := EvictAtKeepsInv(c, keys, sh, ideal, now, m, pos, recovered);
    CursorsDoNotMatter(c, keys, EvictAt(c, sh, pos, recovered, now), FinishEviction(c, sh, pos, recovered, now),
      ideal, now, m');
  }

  /** An expired slot goes, or is passed by. */
  lemma ExpiredKeepsInv<S(!new)>(c: Config<S>, keys: set<nat>, sh: Shard<S>, ideal: map<nat, S>, now: nat, ttl: nat,
                                 m: map<Id, Record>)
    returns (m': map<Id, Record>)
    requires Setting(c, keys) && !c.forget && Inv(c, keys, sh, ideal, now, m) && now < c.ops.horizon
    requires WF(c.g, sh.table) && sh.sweep < |sh.slots| && Expired(sh.slots[sh.sweep], Millis(now), Some(ttl))
    ensures Inv(c, keys, SweepOne(c, sh, now, ttl), ideal, now, m')
  {
    hide Orderly, FirstLaw, Sound, Distinct, Inv, Evictable, EvictAt, Expired;
    var at := sh.sweep;
    assert sh.(sweep := at) == sh;
    var (sh1, verdict) := Evictable(c, sh, at, now);
    EvictableKeepsInv(c, keys, sh, ideal, now, m, at);
    match verdict
    case Recovered => m' := EvictAtKeepsInv(c, keys, sh1, ideal, now, m, at, true);
    case Owing => m' := EvictAtKeepsInv(c, keys, sh1, ideal, now, m, at, false);
    case No(_) => {
      CursorsDoNotMatter(c, keys, sh1, sh1.(sweep := at + 1), ideal, now, m);
      m' := m;
    }
  }

  lemma SweepFrom<S(!new)>(c: Config<S>, sh: Shard<S>, now: nat, ttl: nat, at: nat)
    requires Sound(c.g) && WF(c.g, sh.table) && |sh.slots| > 0
    requires at == if sh.sweep >= |sh.slots| then 0 else sh.sweep
    ensures SweepOne(c, sh, now, ttl) == SweepOne(c, sh.(sweep := at), now, ttl)
    ensures !Expired(sh.slots[at], Millis(now), Some(ttl)) ==> SweepOne(c, sh, now, ttl) == sh.(sweep := at + 1)
  {
    hide Sound, Evictable, EvictAt, Expired;
    assert sh.(sweep := at).(sweep := at + 1) == sh.(sweep := at + 1);
  }

  lemma SweepOneKeepsInv<S(!new)>(c: Config<S>, keys: set<nat>, sh: Shard<S>, ideal: map<nat, S>, now: nat, ttl: nat,
                                  m: map<Id, Record>)
    returns (m': map<Id, Record>)
    requires Setting(c, keys) && !c.forget && Inv(c, keys, sh, ideal, now, m) && |sh.slots| > 0 && now < c.ops.horizon
    ensures Inv(c, keys, SweepOne(c, sh, now, ttl), ideal, now, m')
  {
    InvTable(c, keys, sh, ideal, now, m);
    hide Orderly, FirstLaw, Sound, Distinct, Inv, SweepOne, Expired;
    var at := if sh.sweep >= |sh.slots| then 0 else sh.sweep;
    SweepFrom(c, sh, now, ttl, at);
    m' := m;
    if Expired(sh.slots[at], Millis(now), Some(ttl)) {
      CursorsDoNotMatter(c, keys, sh, sh.(sweep := at), ideal, now, m);
      m' := ExpiredKeepsInv(c, keys, sh.(sweep := at), ideal, now, ttl, m);
    } else {
      CursorsDoNotMatter(c, keys, sh, sh.(sweep := at + 1), ideal, now, m);
    }
  }

  lemma {:induction false} SweepKeepsInv<S(!new)>(c: Config<S>, keys: set<nat>, sh: Shard<S>, ideal: map<nat, S>,
                                                  now: nat, ttl: nat, steps: nat, m: map<Id, Record>)
    returns (m': map<Id, Record>)
    requires Setting(c, keys) && !c.forget && Inv(c, keys, sh, ideal, now, m) && now < c.ops.horizon
    ensures Inv(c, keys, SweepIdle(c, sh, now, ttl, steps), ideal, now, m')
    decreases steps
  {
    InvTable(c, keys, sh, ideal, now, m);
    hide Orderly, FirstLaw, Sound, Distinct, Inv, SweepOne;
    m' := m;
    if steps > 0 && |sh.slots| > 0 {
      m' := SweepOneKeepsInv(c, keys, sh, ideal, now, ttl, m);
      m' := SweepKeepsInv(c, keys, SweepOne(c, sh, now, ttl), ideal, now, ttl, steps - 1, m');
    }
  }

  lemma {:induction false} FirstPassKeepsInv<S(!new)>(c: Config<S>, keys: set<nat>, s: Scan<S>, start: nat,
                                                      step: nat, scan: nat, ideal: map<nat, S>, now: nat, m: map<Id,
                                                      Record>)
    returns (m': map<Id, Record>)
    requires Setting(c, keys) && !c.forget && Inv(c, keys, s.shard, ideal, now, m) && now < c.ops.horizon
    requires |s.shard.slots| > 0 && step <= scan && (s.owing.Some? ==> s.owing.value < |s.shard.slots|)
    ensures Inv(c, keys, FirstPass(c, s, start, step, scan, now).shard, ideal, now, m')
    decreases scan - step
  {
    InvTable(c, keys, s.shard, ideal, now, m);
    hide Orderly, FirstLaw, Sound, Distinct, Inv, Evictable, EvictAt, SecondChance;
    m' := m;
    if step < scan && !s.done {
      var sh := s.shard;
      var pos := At(start, step, |sh.slots|);
      if SecondChance(sh.slots[pos], Millis(now), c.ttl) {
        SecondChanceKeepsInv(c, keys, sh, ideal, now, m, pos);
        var sh1 := sh.(slots := sh.slots[pos := sh.slots[pos].(referenced := false, hint := UNKNOWN)]);
        m' := FirstPassKeepsInv(c, keys, s.(shard := sh1), start, step + 1, scan, ideal, now, m);
      } else {
        var (sh1, verdict) := Evictable(c, sh, pos, now);
        EvictableKeepsInv(c, keys, sh, ideal, now, m, pos);
        match verdict
        case Recovered => m' := FinishKeepsInv(c, keys, sh1, ideal, now, m, pos, true);
        case Owing => {
          var s1 := s.(shard := sh1, owing := if s.owing.None? then Some(pos) else s.owing);
          m' := FirstPassKeepsInv(c, keys, s1, start, step + 1, scan, ideal, now, m);
        }
        case No(at) => {
          var s1 := s.(shard := sh1, earliest := Min(s.earliest, at));
          m' := FirstPassKeepsInv(c, keys, s1, start, step + 1, scan, ideal, now, m);
        }
      }
    }
  }

  lemma {:induction false} SecondPassKeepsInv<S(!new)>(c: Config<S>, keys: set<nat>, s: Scan<S>, start: nat,
                                                       step: nat, scan: nat, ideal: map<nat, S>, now: nat, m: map<Id,
                                                       Record>)
    returns (m': map<Id, Record>)
    requires Setting(c, keys) && !c.forget && Inv(c, keys, s.shard, ideal, now, m) && now < c.ops.horizon
    requires |s.shard.slots| > 0 && step <= scan
    ensures Inv(c, keys, SecondPass(c, s, start, step, scan, now).shard, ideal, now, m')
    decreases scan - step
  {
    InvTable(c, keys, s.shard, ideal, now, m);
    hide Orderly, FirstLaw, Sound, Distinct, Inv, Evictable, EvictAt;
    m' := m;
    if step < scan && !s.done {
      var pos := At(start, step, |s.shard.slots|);
      var (sh1, verdict) := Evictable(c, s.shard, pos, now);
      EvictableKeepsInv(c, keys, s.shard, ideal, now, m, pos);
      match verdict
      case Recovered => m' := FinishKeepsInv(c, keys, sh1, ideal, now, m, pos, true);
      case Owing => m' := FinishKeepsInv(c, keys, sh1, ideal, now, m, pos, false);
      case No(at) => {
        m' := SecondPassKeepsInv(c, keys, s.(shard := sh1, earliest := Min(s.earliest, at)), start, step + 1,
          scan, ideal, now, m);
      }
    }
  }

  lemma EvictOneKeepsInv<S(!new)>(c: Config<S>, keys: set<nat>, sh: Shard<S>, ideal: map<nat, S>, now: nat,
                                  m: map<Id, Record>)
    returns (m': map<Id, Record>)
    requires Setting(c, keys) && !c.forget && Inv(c, keys, sh, ideal, now, m) && now < c.ops.horizon
    ensures Inv(c, keys, EvictOne(c, sh, now).0, ideal, now, m')
  {
    InvTable(c, keys, sh, ideal, now, m);
    hide Orderly, FirstLaw, Sound, Distinct, Inv, FirstPass, SecondPass, EvictAt;
    m' := m;
    if |sh.slots| > 0 {
      var start, scan := Start(sh), Min(CLOCK_SCAN, |sh.slots|);
      var s0 := Scan(sh, false, None, UNKNOWN);
      m' := FirstPassKeepsInv(c, keys, s0, start, 0, scan, ideal, now, m);
      var first := FirstPass(c, s0, start, 0, scan, now);
      if !first.done {
        if first.owing.Some? {
          m' := FinishKeepsInv(c, keys, first.shard, ideal, now, m', first.owing.value, false);
        } else {
          m' := SecondPassKeepsInv(c, keys, first, start, 0, scan, ideal, now, m');
        }
      }
    }
  }

  /** Making room, by any sweep and any eviction, keeps the invariant. */
  lemma MakeRoomKeepsInv<S(!new)>(c: Config<S>, keys: set<nat>, sh: Shard<S>, ideal: map<nat, S>, now: nat,
                                  m: map<Id, Record>)
    returns (m': map<Id, Record>)
    requires Setting(c, keys) && !c.forget && Inv(c, keys, sh, ideal, now, m) && now < c.ops.horizon
    ensures Inv(c, keys, MakeRoom(c, sh, now).0, ideal, now, m')
  {
    InvTable(c, keys, sh, ideal, now, m);
    hide Orderly, FirstLaw, Sound, Distinct, Inv, SweepIdle, EvictOne;
    var swept := if c.ttl.Some? then SweepIdle(c, sh, now, c.ttl.value, TTL_SWEEP) else sh;
    m' := m;
    if c.ttl.Some? { m' := SweepKeepsInv(c, keys, sh, ideal, now, c.ttl.value, TTL_SWEEP, m); }
    if |swept.slots| >= c.cap { m' := EvictOneKeepsInv(c, keys, swept, ideal, now, m'); }
  }
}

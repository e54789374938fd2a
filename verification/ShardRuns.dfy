/** Eviction never resets a limit: in every run of a shard, each admission is one
    that an unbounded map of never-evicted keys, charged with the same
    admissions, grants too (src/store.rs:1310-1407, 1471-1504). */
module ShardRuns {
  import opened Units
  import opened Probe
  import opened RecoveryTable
  import opened RecoveryFacts
  import opened RecoveryCover
  import opened KeyLaws
  import opened Shard
  import opened ShardIndex
  import opened ShardHints
  import opened ShardMarks
  import opened ShardRecall
  import opened ShardSafety
  import opened ShardSteps
  import opened ShardPasses
  import opened ShardChecks

  /** One locked section: a check, a peek, or a chunk of `retain_recent`. */
  datatype Event =
    | Ask(key: nat, n: nat, now: nat)
    | Look(key: nat, now: nat)
    | Chunk(cursor: nat, now: nat)

  datatype Grant = Grant(key: nat, units: nat, at: nat)

  /** A shard and, beside it, the unbounded map. `agreed` is whether the map has
      granted everything the shard has; a key that can have no state is granted
      nothing but zero units. */
  datatype Sim<S> = Sim(shard: Shard<S>, ideal: map<nat, S>, now: nat, granted: seq<Grant>, agreed: bool)

  function Begin<S>(): Sim<S> { Sim(NewShard(), map[], 0, [], true) }

  /** The map with an entry for `key`, if it can have one. */
  function Known<S>(o: KeyOps<S>, ideal: map<nat, S>, key: nat, now: nat): map<nat, S> {
    if key !in ideal && o.create(key, now).Some? then ideal[key := o.create(key, now).value] else ideal
  }

  function AskStep<S>(c: Config<S>, s: Sim<S>, key: nat, n: nat, now: nat): Sim<S>
    requires Sound(c.g) && WF(c.g, s.shard.table)
  {
    var r := Check(c, s.shard, key, n, now);
    var ideal := Known(c.ops, s.ideal, key, now);
    if r.decision != Allow then s.(shard := r.shard, ideal := ideal, now := now)
    else
      var granted := s.granted + [Grant(key, n, now)];
      if key !in ideal then Sim(r.shard, ideal, now, granted, s.agreed && n == 0)
      else
        var (d, state) := c.ops.acquire(ideal[key], n, now);
        Sim(r.shard, ideal[key := state], now, granted, s.agreed && d == Allow)
  }

  function Step<S>(c: Config<S>, s: Sim<S>, e: Event): Sim<S>
    requires Sound(c.g) && WF(c.g, s.shard.table)
  {
    match e
    case Ask(key, n, now) => AskStep(c, s, key, n, now)
    case Look(key, now) => s.(shard := PeekKey(c, s.shard, key, now), now := now)
    case Chunk(cursor, now) => s.(shard := RetainChunk(c, s.shard, cursor, now).0, now := now)
  }

  /** Readings never go back and stay short of the horizon. */
  predicate Admissible<S>(c: Config<S>, keys: set<nat>, now: nat, e: Event) {
    && now <= e.now && e.now + NANOS_PER_MILLI < c.ops.horizon
    && (e.Ask? ==> e.key in keys && e.n <= U32_MAX)
  }

  ghost predicate SimInv<S(!new)>(c: Config<S>, keys: set<nat>, s: Sim<S>)
    requires Sound(c.g)
  {
    && s.agreed && |s.shard.slots| <= c.cap && WF(c.g, s.shard.table)
    && exists m :: Inv(c, keys, s.shard, s.ideal, s.now, m)
  }

  // ------------------------------------------------------------------ asking

  lemma DropIdeal<S(!new)>(c: Config<S>, keys: set<nat>, sh: Shard<S>, ideal: map<nat, S>, now: nat, m: map<Id,
                           Record>, key: nat)
    requires Sound(c.g) && Inv(c, keys, sh, ideal, now, m) && !Stored(Content(sh), key)
    ensures Inv(c, keys, sh, ideal - {key}, now, m)
  {
    hide Sound, HintOk, Away, Indexed, Content, Holds, SpentFits, Honest, Recalled, NoneHeld;
    forall x | x in Content(sh) ensures Good(c.ops, ideal - {key}, now, x) {
      assert Good(c.ops, ideal, now, x);
    }
  }

  lemma NotIdealNotStored<S(!new)>(c: Config<S>, keys: set<nat>, sh: Shard<S>, ideal: map<nat, S>, now: nat,
                                   m: map<Id, Record>, key: nat)
    requires Sound(c.g) && Inv(c, keys, sh, ideal, now, m) && key !in ideal
    ensures !Stored(Content(sh), key)
  {
    hide Sound, HintOk, Away, Indexed, Content, Holds, SpentFits, Honest, Recalled, NoneHeld;
    forall x | x in Content(sh) ensures x.key != key {
      assert Good(c.ops, ideal, now, x);
    }
  }

  /** Making room stores nobody. */
  lemma RoomStoresNobody<S(!new)>(c: Config<S>, keys: set<nat>, sh: Shard<S>, ideal: map<nat, S>, now: nat,
                                  m: map<Id, Record>, key: nat)
    requires Setting(c, keys) && !c.forget && Inv(c, keys, sh, ideal, now, m) && now < c.ops.horizon
    requires WF(c.g, sh.table) && !Stored(Content(sh), key)
    ensures !Stored(Content(MakeRoom(c, sh, now).0), key)
  {
    hide Orderly, FirstLaw, Sound, Distinct, Inv, MakeRoom, Stored, Content;
    DropIdeal(c, keys, sh, ideal, now, m, key);
    var m' := MakeRoomKeepsInv(c, keys, sh, ideal - {key}, now, m);
    NotIdealNotStored(c, keys, MakeRoom(c, sh, now).0, ideal - {key}, now, m', key);
  }

  lemma AskStored<S(!new)>(c: Config<S>, keys: set<nat>, s: Sim<S>, key: nat, n: nat, now: nat, m: map<Id, Record>)
    requires Setting(c, keys) && Inv(c, keys, s.shard, s.ideal, now, m) && now < c.ops.horizon && n <= U32_MAX
    requires WF(c.g, s.shard.table) && s.agreed && Position(s.shard, c.hash(key), key).Some?
    ensures var s' := AskStep(c, s, key, n, now);
            s'.agreed && Inv(c, keys, s'.shard, s'.ideal, now, m) && s'.now == now
  {
    hide Orderly, FirstLaw, Sound, Distinct, Inv, CheckStored, Position;
    var pos := Position(s.shard, c.hash(key), key).value;
    StoredKeepsInv(c, keys, s.shard, s.ideal, now, m, pos, n);
    assert s.shard.slots[pos].key == key && key in s.ideal;
    assert s.ideal[key := s.ideal[key]] == s.ideal;
  }

  /** Room is made, the key has an ideal, and is still absent. */
  lemma RoomFor<S(!new)>(c: Config<S>, keys: set<nat>, sh: Shard<S>, ideal: map<nat, S>, now: nat, m: map<Id,
                         Record>, key: nat)
    returns (m': map<Id, Record>)
    requires Setting(c, keys) && !c.forget && Inv(c, keys, sh, ideal, now, m) && key in keys && now < c.ops.horizon
    requires WF(c.g, sh.table) && c.ops.create(key, now).Some? && !Stored(Content(sh), key)
    ensures var known := Known(c.ops, ideal, key, now);
            && key in known && WF(c.g, MakeRoom(c, sh, now).0.table)
            && Inv(c, keys, MakeRoom(c, sh, now).0, known, now, m')
            && !Stored(Content(MakeRoom(c, sh, now).0), key)
  {
    hide Orderly, FirstLaw, Sound, Distinct, Inv, MakeRoom, Stored, Content;
    ExtendKeepsInv(c, keys, sh, ideal, now, m, key);
    RoomStoresNobody(c, keys, sh, ideal, now, m, key);
    m' := MakeRoomKeepsInv(c, keys, sh, Known(c.ops, ideal, key, now), now, m);
  }

  lemma AskNewIs<S(!new)>(c: Config<S>, s: Sim<S>, key: nat, n: nat, now: nat)
    requires Sound(c.g) && WF(c.g, s.shard.table)
    requires Position(s.shard, c.hash(key), key).None? && c.ops.create(key, now).Some?
    ensures var s' := AskStep(c, s, key, n, now);
            var ideal := Known(c.ops, s.ideal, key, now);
            var (roomy, err) := MakeRoom(c, s.shard, now);
            if err.Some? then s' == s.(shard := roomy, ideal := ideal, now := now)
            else
              var (r, d) := Admit(c, roomy, key, c.ops.create(key, now).value, n, now);
              && s'.shard == r && s'.now == now
              && s'.ideal == ideal[key := Followed(c.ops, ideal[key], n, now, d)]
              && s'.agreed == (s.agreed && (d == Allow ==> c.ops.acquire(ideal[key], n, now).0 == Allow))
  {
    hide Sound, MakeRoom, Admit, Position;
    var ideal := Known(c.ops, s.ideal, key, now);
    assert ideal[key := ideal[key]] == ideal;
  }

  lemma NotFoundNotStored<S(!new)>(c: Config<S>, keys: set<nat>, sh: Shard<S>, ideal: map<nat, S>, now: nat,
                                   m: map<Id, Record>, key: nat)
    requires Sound(c.g) && Inv(c, keys, sh, ideal, now, m)
    ensures Position(sh, c.hash(key), key).None? <==> !Stored(Content(sh), key)
  {
    hide Sound, Position, Indexed, Good, Away;
    LookupIff(c, sh, key);
  }

  lemma AskNew<S(!new)>(c: Config<S>, keys: set<nat>, s: Sim<S>, key: nat, n: nat, now: nat, m: map<Id, Record>)
    returns (m': map<Id, Record>)
    requires Setting(c, keys) && !c.forget && Inv(c, keys, s.shard, s.ideal, now, m) && key in keys
    requires now + NANOS_PER_MILLI < c.ops.horizon && n <= U32_MAX && WF(c.g, s.shard.table) && s.agreed
    requires Position(s.shard, c.hash(key), key).None? && c.ops.create(key, now).Some?
    ensures var s' := AskStep(c, s, key, n, now);
            s'.agreed && Inv(c, keys, s'.shard, s'.ideal, now, m') && s'.now == now
  {
    NotFoundNotStored(c, keys, s.shard, s.ideal, now, m, key);
    AskNewIs(c, s, key, n, now);
    hide *;
    m' := RoomFor(c, keys, s.shard, s.ideal, now, m, key);
    var (roomy, err) := MakeRoom(c, s.shard, now);
    if err.None? {
      m' := AdmitKeepsInv(c, keys, roomy, Known(c.ops, s.ideal, key, now), now, m', key, n);
    }
  }

  /** A key that can have no state has no ideal. */
  lemma NoQuotaNoIdeal<S(!new)>(c: Config<S>, keys: set<nat>, sh: Shard<S>, ideal: map<nat, S>, now: nat,
                                m: map<Id, Record>, key: nat)
    requires Setting(c, keys) && Inv(c, keys, sh, ideal, now, m) && c.ops.create(key, now).None?
    ensures key !in ideal
  {
    hide Orderly, FirstLaw, Sound, Distinct, Indexed, AllGood, AllAway, Honest, Recalled, NoneHeld;
    if key in ideal { HasQuota(c.ops, key, ideal[key], now); }
  }

  /** A check of such a key changes nothing, and grants zero units alone. */
  lemma ClosedIsAnswered<S(!new)>(c: Config<S>, sh: Shard<S>, key: nat, n: nat, now: nat)
    requires Sound(c.g) && WF(c.g, sh.table)
    requires Position(sh, c.hash(key), key).None? && c.ops.create(key, now).None?
    ensures var r := Check(c, sh, key, n, now);
            r.shard == sh && !r.refused && (r.decision == Allow <==> n == 0)
    ensures n > 0 ==> Check(c, sh, key, n, now).decision == Deny(DURATION_MAX)
  {
    hide Sound, MakeRoom, Admit, Position;
  }

  lemma AskClosed<S(!new)>(c: Config<S>, keys: set<nat>, s: Sim<S>, key: nat, n: nat, now: nat, m: map<Id, Record>)
    requires Setting(c, keys) && Inv(c, keys, s.shard, s.ideal, now, m) && WF(c.g, s.shard.table) && s.agreed
    requires Position(s.shard, c.hash(key), key).None? && c.ops.create(key, now).None?
    ensures var s' := AskStep(c, s, key, n, now);
            s'.agreed && s'.shard == s.shard && s'.ideal == s.ideal && s'.now == now
  {
    hide Orderly, FirstLaw, Sound, Distinct, Inv, Position, Check;
    NoQuotaNoIdeal(c, keys, s.shard, s.ideal, now, m, key);
    ClosedIsAnswered(c, s.shard, key, n, now);
  }

  // ----------------------------------------------------- peeking, retaining

  lemma LookKeepsInv<S(!new)>(c: Config<S>, keys: set<nat>, sh: Shard<S>, ideal: map<nat, S>, now: nat, m: map<Id,
                              Record>, pos: nat)
    requires Setting(c, keys) && Inv(c, keys, sh, ideal, now, m) && now < c.ops.horizon && pos < |sh.slots|
    ensures var y := sh.slots[pos].(state := c.ops.look(sh.slots[pos].state, now));
            var r := sh.(slots := sh.slots[pos := y]);
            Inv(c, keys, r, ideal, now, m) && Good(c.ops, ideal, now, y) && Good(c.ops, ideal, now, sh.slots[pos])
  {
    hide Orderly, FirstLaw, Sound, Distinct, Good, Away, AllAway, Stored, Holds, SpentFits, Indexed, Content, Honest,
      Recalled, NoneHeld;
    ContentAt(sh, pos);
    assert Good(c.ops, ideal, now, sh.slots[pos]);
    LookedIsGood(c.ops, keys, ideal, now, sh.slots[pos]);
    ReplaceKeepsInv(c, keys, sh, ideal, now, m, pos, sh.slots[pos].(state := c.ops.look(sh.slots[pos].state, now)));
  }

  lemma PeekKeepsInv<S(!new)>(c: Config<S>, keys: set<nat>, sh: Shard<S>, ideal: map<nat, S>, now: nat, m: map<Id,
                              Record>, key: nat)
    requires Setting(c, keys) && Inv(c, keys, sh, ideal, now, m) && now < c.ops.horizon
    ensures Inv(c, keys, PeekKey(c, sh, key, now), ideal, now, m)
  {
    hide Orderly, FirstLaw, Sound, Distinct, Inv, Good, Position;
    var pos := Position(sh, c.hash(key), key);
    if pos.Some? { LookKeepsInv(c, keys, sh, ideal, now, m, pos.value); }
  }

  lemma RetainOneKeepsInv<S(!new)>(c: Config<S>, keys: set<nat>, sh: Shard<S>, ideal: map<nat, S>, now: nat,
                                   m: map<Id, Record>, pos: nat)
    requires Setting(c, keys) && Inv(c, keys, sh, ideal, now, m) && now < c.ops.horizon && pos < |sh.slots|
    ensures Inv(c, keys, RetainOne(c, sh, pos, now), ideal, now, m)
  {
    assert IdealOk(c.ops, keys, ideal, now);
    hide Orderly, FirstLaw, Sound, Distinct, Inv, Good, Away, RemoveAt;
    LookKeepsInv(c, keys, sh, ideal, now, m, pos);
    var x := sh.slots[pos];
    GoodIsValid(c.ops, ideal, now, x);
    Owed(c.ops, x.key, x.state, now);
    if c.ops.isFull(x.state, now) {
      WholeIsAway(c, keys, ideal, now, x, m, sh.table.cells);
      RemoveKeepsInv(c, keys, sh.(slots := sh.slots[pos := x.(state := c.ops.look(x.state, now))]), ideal, now, m, pos);
    }
  }

  lemma {:induction false} RetainDownKeepsInv<S(!new)>(c: Config<S>, keys: set<nat>, sh: Shard<S>, cursor: nat,
                                                       stop: nat, ideal: map<nat, S>, now: nat, m: map<Id, Record>)
    requires Setting(c, keys) && Inv(c, keys, sh, ideal, now, m) && now < c.ops.horizon && cursor <= |sh.slots|
    ensures Inv(c, keys, RetainDown(c, sh, cursor, stop, now), ideal, now, m)
    decreases cursor
  {
    hide Orderly, FirstLaw, Sound, Distinct, Inv;
    if cursor > stop {
      RetainOneKeepsInv(c, keys, sh, ideal, now, m, cursor - 1);
      RetainDownKeepsInv(c, keys, RetainOne(c, sh, cursor - 1, now), cursor - 1, stop, ideal, now, m);
    }
  }

  /** Once the table has expired no absent key owes anything. */
  lemma ReleaseKeepsInv<S(!new)>(c: Config<S>, keys: set<nat>, sh: Shard<S>, ideal: map<nat, S>, now: nat, m: map<Id,
                                 Record>)
    requires Setting(c, keys) && Inv(c, keys, sh, ideal, now, m) && now < c.ops.horizon
             && IsSpent(sh.table, Millis(now))
    ensures Inv(c, keys, sh.(table := NEW), ideal, now, map[])
  {
    hide Orderly, FirstLaw, Sound, Distinct, Good, Stored, Content, KeysDiffer, Holds, IsSpent, Covered, Recalled;
    HoldsNothing(c.g, NEW, Millis(now));
    RecalledReleased(c.g, sh.marks, m, sh.table, Millis(now));
    SameSlots(sh, sh.(table := NEW));
    forall k | k in ideal && !Stored(Content(sh), k) ensures c.ops.debt(ideal[k], now).None? {
      var debt := c.ops.debt(ideal[k], now);
      if debt.Some? {
        Owed(c.ops, k, ideal[k], now);
        CeilMillisAfter(debt.value.until, now);
        ReleaseLosesNothing(c.g, sh.table, Millis(now), m, DueOf(c, k, debt.value));
      }
    }
  }

  lemma ChunkKeepsInv<S(!new)>(c: Config<S>, keys: set<nat>, sh: Shard<S>, ideal: map<nat, S>, now: nat, m: map<Id,
                               Record>, cursor: nat)
    returns (m': map<Id, Record>)
    requires Setting(c, keys) && Inv(c, keys, sh, ideal, now, m) && now < c.ops.horizon
    ensures Inv(c, keys, RetainChunk(c, sh, cursor, now).0, ideal, now, m')
  {
    hide Orderly, FirstLaw, Sound, Distinct, Inv, RetainDown, IsSpent;
    var from := Min(cursor, |sh.slots|);
    var stop := SatSub(from, RETAIN_CHUNK);
    RetainDownKeepsInv(c, keys, sh, from, stop, ideal, now, m);
    var sh1 := RetainDown(c, sh, from, stop, now);
    m' := m;
    if stop == 0 && IsSpent(sh1.table, Millis(now)) {
      ReleaseKeepsInv(c, keys, sh1, ideal, now, m);
      m' := map[];
    }
  }

  // -------------------------------------------------------------- whole runs

  lemma {:induction false} RetainShrinks<S(!new)>(c: Config<S>, sh: Shard<S>, cursor: nat, stop: nat, now: nat)
    requires cursor <= |sh.slots|
    ensures |RetainDown(c, sh, cursor, stop, now).slots| <= |sh.slots|
    decreases cursor
  {
    hide RemoveAt;
    if cursor > stop { RetainShrinks(c, RetainOne(c, sh, cursor - 1, now), cursor - 1, stop, now); }
  }

  lemma SizeIsKept<S(!new)>(c: Config<S>, s: Sim<S>, e: Event)
    requires Sound(c.g) && WF(c.g, s.shard.table) && c.cap >= 1 && |s.shard.slots| <= c.cap
    ensures |Step(c, s, e).shard.slots| <= c.cap
  {
    hide Sound, Check, Position, RetainDown, Known;
    match e
    case Ask(key, n, now) => CapIsKept(c, s.shard, key, n, now);
    case Look(key, now) =>
    case Chunk(cursor, now) =>
      var from := Min(cursor, |s.shard.slots|);
      RetainShrinks(c, s.shard, from, SatSub(from, RETAIN_CHUNK), now);
  }

  lemma AskKeeps<S(!new)>(c: Config<S>, keys: set<nat>, s: Sim<S>, key: nat, n: nat, now: nat, m: map<Id, Record>)
    returns (m': map<Id, Record>)
    requires Setting(c, keys) && !c.forget && Inv(c, keys, s.shard, s.ideal, now, m) && key in keys
    requires now + NANOS_PER_MILLI < c.ops.horizon && n <= U32_MAX && WF(c.g, s.shard.table) && s.agreed
    ensures var s' := AskStep(c, s, key, n, now);
            s'.agreed && Inv(c, keys, s'.shard, s'.ideal, now, m') && s'.now == now
  {
    m' := m;
    if Position(s.shard, c.hash(key), key).Some? {
      hide Orderly, FirstLaw, Sound, Distinct, Inv, AskStep, Position;
      AskStored(c, keys, s, key, n, now, m);
    } else if c.ops.create(key, now).Some? {
      hide Orderly, FirstLaw, Sound, Distinct, Inv, AskStep, Position;
      m' := AskNew(c, keys, s, key, n, now, m);
    } else {
      AskClosed(c, keys, s, key, n, now, m);
    }
  }

  /** Every step keeps the invariant, and the map agrees with every grant. */
  lemma StepKeepsInv<S(!new)>(c: Config<S>, keys: set<nat>, s: Sim<S>, e: Event)
    requires Setting(c, keys) && !c.forget && SimInv(c, keys, s) && Admissible(c, keys, s.now, e)
    ensures SimInv(c, keys, Step(c, s, e)) && Step(c, s, e).now == e.now
  {
    SizeIsKept(c, s, e);
    hide Orderly, FirstLaw, Sound, Distinct, Inv, AskStep, PeekKey, RetainChunk;
    var m :| Inv(c, keys, s.shard, s.ideal, s.now, m);
    InvLasts(c, keys, s.shard, s.ideal, s.now, e.now, m);
    m := Unexpired(m, Millis(e.now));
    match e
    case Ask(key, n, now) => m := AskKeeps(c, keys, s, key, n, now, m);
    case Look(key, now) => PeekKeepsInv(c, keys, s.shard, s.ideal, now, m, key);
    case Chunk(cursor, now) => m := ChunkKeepsInv(c, keys, s.shard, s.ideal, now, m, cursor);
    var s' := Step(c, s, e);
    InvTable(c, keys, s'.shard, s'.ideal, e.now, m);
  }

  /** The states a run passes through. */
  ghost predicate Run<S(!new)>(c: Config<S>, keys: set<nat>, events: seq<Event>, states: seq<Sim<S>>)
    requires Sound(c.g)
  {
    && |states| == |events| + 1 && states[0] == Begin()
    && (forall i: nat {:trigger events[i]} :: i < |events| ==>
          && Admissible(c, keys, states[i].now, events[i])
          && WF(c.g, states[i].shard.table) && states[i + 1] == Step(c, states[i], events[i]))
  }

  lemma StartsInv<S(!new)>(c: Config<S>, keys: set<nat>)
    requires Sound(c.g) && c.cap >= 1
    ensures SimInv(c, keys, Begin<S>())
  {
    HoldsNothing(c.g, NEW, 0);
    var s := Begin<S>();
    assert Content(s.shard) == {};
    assert Inv(c, keys, s.shard, s.ideal, 0, map[]);
  }

  lemma {:induction false} RunKeepsInv<S(!new)>(c: Config<S>, keys: set<nat>, events: seq<Event>,
                                                states: seq<Sim<S>>, i: nat)
    requires Setting(c, keys) && !c.forget && Run(c, keys, events, states) && i < |states|
    ensures SimInv(c, keys, states[i])
    decreases i
  {
    hide Orderly, FirstLaw, Sound, Distinct, SimInv, Step, Admissible;
    if i == 0 {
      StartsInv(c, keys);
    } else {
      RunKeepsInv(c, keys, events, states, i - 1);
      assert Admissible(c, keys, states[i - 1].now, events[i - 1]);
      StepKeepsInv(c, keys, states[i - 1], events[i - 1]);
    }
  }

  /** Eviction never resets a limit. In every run under FailClosed, whatever is
      evicted, swept, spilled, refused or retained, every admission of the
      bounded shard is one the unbounded map of never-evicted keys grants too;
      and the shard never outgrows its cap. */
  lemma EvictionNeverResets<S(!new)>(c: Config<S>, keys: set<nat>, events: seq<Event>, states: seq<Sim<S>>, i: nat)
    requires Setting(c, keys) && !c.forget && Run(c, keys, events, states) && i < |states|
    ensures states[i].agreed && |states[i].shard.slots| <= c.cap
    ensures Indexed(c, states[i].shard)
    ensures forall x :: x in states[i].shard.slots ==> HintOk(c.ops, x, states[i].now)
  {
    RunKeepsInv(c, keys, events, states, i);
    hide Orderly, FirstLaw, Sound, Distinct, Indexed, HintOk, Run;
    var s := states[i];
    var m :| Inv(c, keys, s.shard, s.ideal, s.now, m);
    forall x | x in s.shard.slots ensures HintOk(c.ops, x, s.now) {
      assert x in Content(s.shard) && Good(c.ops, s.ideal, s.now, x);
    }
  }

  /** Said of one check: if the shard grants it, the key's never-evicted state,
      charged with the shard's earlier grants alone, grants it too; a key that can
      have no state is granted nothing. */
  lemma EachGrantIsIdeal<S(!new)>(c: Config<S>, keys: set<nat>, events: seq<Event>, states: seq<Sim<S>>, i: nat)
    requires Setting(c, keys) && !c.forget && Run(c, keys, events, states) && i < |events| && events[i].Ask?
    requires var e := events[i];
             WF(c.g, states[i].shard.table) && Check(c, states[i].shard, e.key, e.n, e.now).decision == Allow
    ensures var e := events[i];
            var known := Known(c.ops, states[i].ideal, e.key, e.now);
            if e.key in known then c.ops.acquire(known[e.key], e.n, e.now).0 == Allow else e.n == 0
  {
    hide Orderly, FirstLaw, Sound, Distinct, Inv, Check, Position, Known, Admissible;
    RunKeepsInv(c, keys, events, states, i + 1);
    assert states[i + 1] == Step(c, states[i], events[i]);
  }
}

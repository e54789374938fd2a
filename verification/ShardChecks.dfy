/** Checks keep the invariant of `ShardSafety`, and a granted check is one the
    key's ideal grants too (src/store.rs:1310-1383). */
module ShardChecks {
  import opened Units
  import opened Probe
  import opened RecoveryTable
  import opened RecoveryFacts
  import opened RecoveryCover
  import opened KeyLaws
  import opened Shard
  import opened ShardIndex
  import opened ShardHints
  import opened ShardMarks
  import opened ShardRecall
  import opened ShardSafety

  /** The ideal's answer to a request, charged only if the shard granted it. */
  function Followed<S>(o: KeyOps<S>, s: S, n: nat, now: nat, d: Decision): S {
    if d == Allow then o.acquire(s, n, now).1 else s
  }

  lemma FollowedIsStricter<S(!new)>(o: KeyOps<S>, k: nat, r: S, s: S, n: nat, now: nat)
    requires Lawful(o) && o.valid(k, r, now) && o.valid(k, s, now) && o.native(k, s, now) && o.stricter(r, s, now)
    requires now < o.horizon && n <= U32_MAX
    ensures var (d, r') := o.acquire(r, n, now);
            && o.valid(k, r', now)
            && o.valid(k, Followed(o, s, n, now, d), now) && o.native(k, Followed(o, s, n, now, d), now)
            && o.stricter(r', Followed(o, s, n, now, d), now)
            && (d == Allow ==> o.acquire(s, n, now).0 == Allow)
  {
    hide Orderly, FirstLaw;
    Acquired(o, k, r, n, now);
    Acquired(o, k, s, n, now);
    Simulates(o, k, r, s, n, now);
  }

  // -------------------------------------------------------------- stored keys

  lemma StoredHere<S(!new)>(xs: set<Slot<S>>, x: Slot<S>)
    ensures x in xs ==> Stored(xs, x.key)
  {
  }

  /** A slot and its ideal may change together. */
  lemma SetSlotKeepsInv<S(!new)>(c: Config<S>, keys: set<nat>, sh: Shard<S>, ideal: map<nat, S>, now: nat, m: map<Id,
                                 Record>,
                                 pos: nat, y: Slot<S>, s: S)
    requires Sound(c.g) && Inv(c, keys, sh, ideal, now, m) && pos < |sh.slots|
    requires y.key == sh.slots[pos].key && y.hash == sh.slots[pos].hash && y.seeded == sh.slots[pos].seeded
             && y.key in ideal
    requires c.ops.valid(y.key, s, now) && c.ops.native(y.key, s, now) && Good(c.ops, ideal[y.key := s], now, y)
    ensures Inv(c, keys, sh.(slots := sh.slots[pos := y]), ideal[y.key := s], now, m)
  {
    hide Sound, HintOk, Away, Indexed, Content, Stored, Holds, SpentFits, Honest, Recalled, NoneHeld;
    var x, r, ideal' := sh.slots[pos], sh.(slots := sh.slots[pos := y]), ideal[y.key := s];
    ContentAt(sh, pos);
    ReplaceIndexes(c, sh, pos, y);
    HonestReplaced(c.g, sh.marks, Content(sh), m, sh.table.cells, x, y);
    NoneReplaced(c.g, Content(sh), m, x, y);
    forall k ensures Stored(Content(sh), k) <==> Stored(Content(r), k) {
      StoredReplaced(Content(sh), x, y, k);
    }
    forall z | z in Content(r) ensures Good(c.ops, ideal', now, z) {
      if z != y {
        if z.key == y.key { OneSlotPerKey(c, sh, z, x); }
        assert Good(c.ops, ideal, now, z);
      }
    }
    StoredHere(Content(r), y);
  }

  lemma StoredKeepsInv<S(!new)>(c: Config<S>, keys: set<nat>, sh: Shard<S>, ideal: map<nat, S>, now: nat, m: map<Id,
                                Record>, pos: nat, n: nat)
    requires Setting(c, keys) && Inv(c, keys, sh, ideal, now, m) && pos < |sh.slots| && now < c.ops.horizon
             && n <= U32_MAX
    ensures var (r, d) := CheckStored(c, sh, pos, n, now);
            var k := sh.slots[pos].key;
            && k in ideal
            && Inv(c, keys, r, ideal[k := Followed(c.ops, ideal[k], n, now, d)], now, m)
            && (d == Allow ==> c.ops.acquire(ideal[k], n, now).0 == Allow)
  {
    hide Orderly, FirstLaw, Sound, Distinct, Away, AllAway, Indexed, Content, Stored, Holds, SpentFits, Followed,
      Honest, Recalled, NoneHeld;
    var x := sh.slots[pos];
    ContentAt(sh, pos);
    assert Good(c.ops, ideal, now, x);
    var s := ideal[x.key];
    FollowedIsStricter(c.ops, x.key, x.state, s, n, now);
    var (r, d) := CheckStored(c, sh, pos, n, now);
    SetSlotKeepsInv(c, keys, sh, ideal, now, m, pos, r.slots[pos], Followed(c.ops, s, n, now, d));
  }

  // ---------------------------------------------------------------- newcomers

  /** The ideals with one for `key`, fresh if it is new. */
  function Extended<S>(o: KeyOps<S>, ideal: map<nat, S>, key: nat, now: nat): map<nat, S>
    requires o.create(key, now).Some?
  {
    if key in ideal then ideal else ideal[key := o.create(key, now).value]
  }

  lemma ExtendKeepsInv<S(!new)>(c: Config<S>, keys: set<nat>, sh: Shard<S>, ideal: map<nat, S>, now: nat, m: map<Id,
                                Record>, key: nat)
    requires Setting(c, keys) && Inv(c, keys, sh, ideal, now, m) && now < c.ops.horizon && key in keys
    requires c.ops.create(key, now).Some? && !Stored(Content(sh), key)
    ensures Inv(c, keys, sh, Extended(c.ops, ideal, key, now), now, m)
  {
    hide Orderly, FirstLaw, Sound, Distinct, HintOk, Indexed, Content, Stored, Holds, SpentFits, Covered, Honest,
      Recalled, NoneHeld;
    Fresh(c.ops, key, now);
    var ideal' := Extended(c.ops, ideal, key, now);
    forall x | x in Content(sh) ensures Good(c.ops, ideal', now, x) {
      assert Good(c.ops, ideal, now, x);
    }
  }

  lemma ChargeFits(g: Geometry, t: Table, h: nat, now: nat, m: map<Id, Record>)
    requires Sound(g) && TableOk(g, t, now, m) && PeekCharge(g, t, h, now).Some?
    ensures PeekCharge(g, t, h, now).value.spent <= U32_MAX
  {
    hide Holds, Own;
    OwnIff(g, t, now, m, h);
  }

  /** The state a newcomer starts with: charged what the table says it owes. */
  function Begun<S>(o: KeyOps<S>, s: S, charge: Option<Charge>, now: nat): S {
    if charge.Some? then o.restore(s, FromMillis(charge.value), now) else s
  }

  /** A key that comes back is no more permissive than its ideal. */
  lemma ComesBackStricter<S(!new)>(c: Config<S>, keys: set<nat>, s: S, key: nat, now: nat, t: Table, m: map<Id, Record>)
    requires Setting(c, keys) && now < c.ops.horizon && c.ops.create(key, now).Some?
    requires TableOk(c.g, t, Millis(now), m) && c.ops.valid(key, s, now) && c.ops.native(key, s, now)
    requires Away(c, s, key, now, m, t.cells)
    ensures var r := Begun(c.ops, c.ops.create(key, now).value, PeekCharge(c.g, t, c.hash(key), Millis(now)), now);
            c.ops.valid(key, r, now) && c.ops.stricter(r, s, now)
  {
    hide Orderly, FirstLaw, Sound, Distinct, Holds, SpentFits, PeekCharge, Covered;
    var o, f := c.ops, c.ops.create(key, now).value;
    var charge := PeekCharge(c.g, t, c.hash(key), Millis(now));
    Fresh(o, key, now);
    if charge.Some? {
      ChargeFits(c.g, t, c.hash(key), Millis(now), m);
      Restored(o, key, f, FromMillis(charge.value), now);
    }
    if o.debt(s, now).None? {
      WholeIsLoosest(o, key, Begun(o, f, charge, now), s, now);
    } else {
      var d := o.debt(s, now).value;
      Owed(o, key, s, now);
      CeilMillisAfter(d.until, now);
      CeilMillisIsCeiling(d.until);
      PeekCovers(c.g, t, Millis(now), m, c.hash(key), DueOf(c, key, d));
      Resumes(o, key, s, FromMillis(charge.value), now);
    }
  }

  /** Taking a key's debt uncovers no other key. */
  lemma TakeKeepsAway<S(!new)>(c: Config<S>, keys: set<nat>, s: S, k: nat, now: nat, t: Table, m: map<Id, Record>,
                               key: nat)
    requires Setting(c, keys) && k in keys && key in keys && k != key && WF(c.g, t)
    requires Away(c, s, k, now, m, t.cells)
    ensures Away(c, s, k, now, m - {IdOf(c.g, c.hash(key))}, t.cells)
  {
    hide Orderly, FirstLaw, Sound, InCells;
  }

  /** After `take`, only the newcomer itself may be uncovered. */
  ghost predicate InvBut<S(!new)>(c: Config<S>, keys: set<nat>, sh: Shard<S>, ideal: map<nat, S>, now: nat,
                                  m: map<Id, Record>, key: nat)
    requires Sound(c.g)
  {
    && Indexed(c, sh) && TableOk(c.g, sh.table, Millis(now), m)
    && IdealOk(c.ops, keys, ideal, now)
    && AllGood(c.ops, ideal, now, Content(sh))
    && (forall k :: k in ideal && k != key ==> Stored(Content(sh), k) || Away(c, ideal[k], k, now, m, sh.table.cells))
    && Honest(c.g, sh.marks, Content(sh), m, sh.table.cells)
    && Recalled(c.g, sh.marks, m, sh.table.cells, Millis(now)) && NoneHeld(c.g, Content(sh), m)
  }

  /** The shard without the debt that `key` takes back. */
  function Taken<S>(c: Config<S>, sh: Shard<S>, key: nat, now: nat): Shard<S>
    requires Sound(c.g) && WF(c.g, sh.table)
  {
    var (charge, table) := Take(c.g, sh.table, c.hash(key), Millis(now));
    var shared := charge.Some? && charge.value.shared;
    sh.(table := table, marks := MarksTaken(c.g, sh.marks, sh.table, c.hash(key), key, shared, Millis(now)))
  }

  lemma TakenLast<S(!new)>(c: Config<S>, sh: Shard<S>, key: nat, now: nat)
    requires Sound(c.g) && WF(c.g, sh.table)
    ensures Taken(c, sh, key, now).marks.last == sh.marks.last - {IdOf(c.g, c.hash(key))}
  {
    hide Sound, Take, OwnMarked, Unsaid;
  }

  lemma TakeKeepsOthers<S(!new)>(c: Config<S>, keys: set<nat>, sh: Shard<S>, ideal: map<nat, S>, now: nat, m: map<Id,
                                 Record>, key: nat)
    requires Setting(c, keys) && Inv(c, keys, sh, ideal, now, m) && key in keys && !Stored(Content(sh), key)
    ensures InvBut(c, keys, Taken(c, sh, key, now), ideal, now, m - {IdOf(c.g, c.hash(key))}, key)
    ensures var charge := PeekCharge(c.g, sh.table, c.hash(key), Millis(now));
            var marks := Taken(c, sh, key, now).marks;
            marks.lost || (key in marks.keys <==> charge.Some? && charge.value.shared)
  {
    hide Orderly, FirstLaw, Sound, Distinct, Good, Away, Stored, Content, KeysDiffer, Holds, PeekCharge, Forget,
      Honest, MarksTaken, Recalled;
    var h := c.hash(key);
    var t := Take(c.g, sh.table, h, Millis(now)).1;
    TakeForgets(c.g, sh.table, h, Millis(now));
    ForgetHolds(c.g, sh.table, Millis(now), m, h);
    HonestTaken(c.g, sh.marks, Content(sh), m, sh.table, h, key, Millis(now));
    TakenLast(c, sh, key, now);
    RecalledTaken(c.g, sh.marks, Taken(c, sh, key, now).marks, m, sh.table.cells, Millis(now), IdOf(c.g, h));
    SameSlots(sh, Taken(c, sh, key, now));
    forall k | k in ideal && k != key && !Stored(Content(sh), k)
      ensures Away(c, ideal[k], k, now, m - {IdOf(c.g, h)}, t.cells)
    {
      TakeKeepsAway(c, keys, ideal[k], k, now, sh.table, m, key);
    }
  }

  /** Storing a good slot for the newcomer restores the invariant. */
  lemma InsertKeepsInv<S(!new)>(c: Config<S>, keys: set<nat>, sh: Shard<S>, ideal: map<nat, S>, now: nat, m: map<Id,
                                Record>, x: Slot<S>, s: S)
    requires Sound(c.g) && InvBut(c, keys, sh, ideal, now, m, x.key) && x.key in keys && !Stored(Content(sh), x.key)
    requires x.hash == c.hash(x.key) && c.ops.valid(x.key, s, now) && c.ops.native(x.key, s, now)
    requires Good(c.ops, ideal[x.key := s], now, x) && (sh.marks.lost || (x.key in sh.marks.keys <==> x.seeded))
    requires IdOf(c.g, x.hash) !in m
    ensures Inv(c, keys, Insert(sh, x), ideal[x.key := s], now, m)
  {
    HonestMore(c.g, sh.marks, Content(sh), m, sh.table.cells, x);
    hide Sound, HintOk, Away, Indexed, Content, Holds, SpentFits, Honest, Recalled, IdOf;
    var r, ideal' := Insert(sh, x), ideal[x.key := s];
    InsertIndexes(c, sh, x);
    forall z | z in Content(r) ensures Good(c.ops, ideal', now, z) {
      if z != x { assert z in Content(sh) && Good(c.ops, ideal, now, z); }
    }
    forall k | k in ideal' ensures Stored(Content(r), k) || Away(c, ideal'[k], k, now, m, r.table.cells) {
      if k == x.key {
        assert x in Content(r);
      } else if Stored(Content(sh), k) {
        var z :| z in Content(sh) && z.key == k;
        assert z in Content(r);
      }
    }
  }

  /** The newcomer's slot, however its hint was found, is good. */
  lemma FirstHintIsGood<S(!new)>(o: KeyOps<S>, key: nat, charge: Option<Charge>, n: nat, now: nat, s: S)
    requires Lawful(o) && o.create(key, now).Some? && n <= U32_MAX && now + NANOS_PER_MILLI < o.horizon <= LAST
    requires o.valid(key, s, now) && o.native(key, s, now)
    requires var r := Begun(o, o.create(key, now).value, charge, now); o.valid(key, r, now) && o.stricter(r, s, now)
    ensures var (d, r) := o.acquire(Begun(o, o.create(key, now).value, charge, now), n, now);
            var (hint, r') := FirstHint(o, r, charge.Some?, n, d, now);
            && o.valid(key, r', now) && o.stricter(r', Followed(o, s, n, now, d), now)
            && Tells(o, r', now, hint)
  {
    hide Orderly, FirstLaw, Tells, Followed, ExactHint;
    var r0 := Begun(o, o.create(key, now).value, charge, now);
    FollowedIsStricter(o, key, r0, s, n, now);
    var (d, r) := o.acquire(r0, n, now);
    var s' := Followed(o, s, n, now, d);
    if charge.None? {
      FirstHintIsExact(o, key, n, now, s');
    } else {
      ExactIsWhole(o, key, r, now);
      Looked(o, key, r, now, now);
      StaysStricter(o, key, r, s', now, now);
      LookKeepsTelling(o, key, r, now, ExactHint(o, r, now));
    }
  }

  /** Storing a newcomer keeps the invariant, and grants only what its ideal does. */
  lemma AdmitKeepsInv<S(!new)>(c: Config<S>, keys: set<nat>, sh: Shard<S>, ideal: map<nat, S>, now: nat, m: map<Id,
                               Record>, key: nat, n: nat)
    returns (m': map<Id, Record>)
    requires Setting(c, keys) && Inv(c, keys, sh, ideal, now, m) && key in keys && key in ideal
    requires now + NANOS_PER_MILLI < c.ops.horizon && n <= U32_MAX && c.ops.create(key, now).Some?
             && !Stored(Content(sh), key)
    requires WF(c.g, sh.table)
    ensures var (r, d) := Admit(c, sh, key, c.ops.create(key, now).value, n, now);
            && Inv(c, keys, r, ideal[key := Followed(c.ops, ideal[key], n, now, d)], now, m')
            && (d == Allow ==> c.ops.acquire(ideal[key], n, now).0 == Allow)
  {
    var s, o, h := ideal[key], c.ops, c.hash(key);
    assert o.valid(key, s, now) && o.native(key, s, now) && TableOk(c.g, sh.table, Millis(now), m);
    assert Away(c, s, key, now, m, sh.table.cells);
    hide Orderly, FirstLaw, Sound, Distinct, Inv, InvBut, Followed, FirstHint, PeekCharge, Forget, Away, Stored,
      Content, Tells, TableOk, MarksTaken, Core, IdOf;
    ComesBackStricter(c, keys, s, key, now, sh.table, m);
    var charge := PeekCharge(c.g, sh.table, h, Millis(now));
    var r0 := Begun(o, o.create(key, now).value, charge, now);
    FollowedIsStricter(o, key, r0, s, n, now);
    FirstHintIsGood(o, key, charge, n, now, s);
    TakeKeepsOthers(c, keys, sh, ideal, now, m, key);
    m' := m - {IdOf(c.g, h)};
    var (d, r1) := o.acquire(r0, n, now);
    var (hint, r2) := FirstHint(o, r1, charge.Some?, n, d, now);
    var x := Slot(r2, false, charge.Some? && charge.value.shared, Millis(now), hint, h, key);
    SameSlots(sh, Taken(c, sh, key, now));
    InsertKeepsInv(c, keys, Taken(c, sh, key, now), ideal, now, m', x, Followed(o, s, n, now, d));
  }
}

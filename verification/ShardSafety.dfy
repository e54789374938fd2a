/** Why eviction never resets a limit (src/store.rs:978-1117, 1310-1407).

    Beside the shard runs an ideal: one never-evicted state per key, charged with
    exactly what the shard has granted. The invariant says that every stored
    state is stricter than its key's ideal, and that what the ideal of an absent
    key owes is covered by the recovery table. */
module ShardSafety {
  import opened Units
  import opened Probe
  import opened RecoveryTable
  import opened RecoveryFacts
  import opened RecoveryCover
  import RecoveryRuns
  import opened KeyLaws
  import opened Shard
  import opened ShardIndex
  import opened ShardHints
  import opened ShardMarks
  import opened ShardRecall

  /** The table tells the keys apart. */
  ghost predicate Distinct<S(!new)>(c: Config<S>, keys: set<nat>) {
    forall j, k :: j in keys && k in keys && IdOf(c.g, c.hash(j)) == IdOf(c.g, c.hash(k)) ==> j == k
  }

  /** What the theorems assume of a shard's configuration, beyond the code's own
      checks: a lawful algorithm, readings below the last deadline a sketch cell
      expresses, and keys with distinct table identities. */
  ghost predicate Setting<S(!new)>(c: Config<S>, keys: set<nat>) {
    Sound(c.g) && Lawful(c.ops) && c.cap >= 1 && c.ops.horizon <= LAST && Distinct(c, keys)
  }

  /** A stored slot is a valid state, stricter than its key's ideal, with a hint
      that is not early. */
  ghost predicate Good<S(!new)>(o: KeyOps<S>, ideal: map<nat, S>, now: nat, x: Slot<S>) {
    && x.key in ideal && o.valid(x.key, x.state, now)
    && o.stricter(x.state, ideal[x.key], now) && HintOk(o, x, now)
  }

  ghost predicate AllGood<S(!new)>(o: KeyOps<S>, ideal: map<nat, S>, now: nat, xs: set<Slot<S>>) {
    forall x :: x in xs ==> Good(o, ideal, now, x)
  }

  ghost predicate IdealOk<S(!new)>(o: KeyOps<S>, keys: set<nat>, ideal: map<nat, S>, now: nat) {
    forall k :: k in ideal ==> k in keys && o.valid(k, ideal[k], now) && o.native(k, ideal[k], now)
  }

  /** A key's debt in the table's terms. */
  function DueOf<S>(c: Config<S>, k: nat, d: Debt): Due {
    Due(IdOf(c.g, c.hash(k)), d.spent, CeilMillis(d.until), false)
  }

  /** What an absent key's ideal owes is covered. */
  ghost predicate Away<S(!new)>(c: Config<S>, s: S, k: nat, now: nat, m: map<Id, Record>, cells: seq<nat>)
    requires Sound(c.g)
  {
    c.ops.debt(s, now).Some? ==> Covered(c.g, m, cells, Millis(now), DueOf(c, k, c.ops.debt(s, now).value))
  }

  ghost predicate AllAway<S(!new)>(c: Config<S>, ideal: map<nat, S>, now: nat, xs: set<Slot<S>>, m: map<Id, Record>,
                                   cells: seq<nat>)
    requires Sound(c.g)
  {
    forall k :: k in ideal ==> Stored(xs, k) || Away(c, ideal[k], k, now, m, cells)
  }

  ghost predicate TableOk(g: Geometry, t: Table, nowMs: nat, m: map<Id, Record>) {
    WF(g, t) && Holds(g, t, nowMs, m) && SpentFits(m)
  }

  ghost predicate Core<S(!new)>(c: Config<S>, keys: set<nat>, sh: Shard<S>, ideal: map<nat, S>, now: nat, m: map<Id,
                                Record>)
    requires Sound(c.g)
  {
    && Indexed(c, sh) && TableOk(c.g, sh.table, Millis(now), m)
    && IdealOk(c.ops, keys, ideal, now)
    && AllGood(c.ops, ideal, now, Content(sh))
    && AllAway(c, ideal, now, Content(sh), m, sh.table.cells)
    && Honest(c.g, sh.marks, Content(sh), m, sh.table.cells)
    && Recalled(c.g, sh.marks, m, sh.table.cells, Millis(now))
  }

  /** And between locked sections no stored key has a record. */
  ghost predicate Inv<S(!new)>(c: Config<S>, keys: set<nat>, sh: Shard<S>, ideal: map<nat, S>, now: nat, m: map<Id,
                               Record>)
    requires Sound(c.g)
  {
    Core(c, keys, sh, ideal, now, m) && NoneHeld(c.g, Content(sh), m)
  }

  // ------------------------------------------------------------------- time

  lemma LowerIsCovered(g: Geometry, m: map<Id, Record>, cells: seq<nat>, now: nat, d: Due, e: Due)
    requires Sound(g) && Covered(g, m, cells, now, d) && e.id == d.id && e.spent <= d.spent && e.until <= d.until
    ensures Covered(g, m, cells, now, e)
  {
    hide CellUntil, CellSpent;
  }

  lemma MillisMonotone(now: nat, later: nat)
    requires now <= later
    ensures Millis(now) <= Millis(later)
  {
  }

  lemma AwayLasts<S(!new)>(c: Config<S>, s: S, k: nat, now: nat, later: nat, m: map<Id, Record>, cells: seq<nat>)
    requires Sound(c.g) && Lawful(c.ops) && c.ops.valid(k, s, now) && now <= later < c.ops.horizon <= LAST
    requires Away(c, s, k, now, m, cells) && SpentFits(m)
    ensures Away(c, s, k, later, Unexpired(m, Millis(later)), cells)
  {
    hide Orderly, FirstLaw, Sound, Covered;
    var o := c.ops;
    Decays(o, k, s, now, later);
    if o.debt(s, later).Some? {
      var d, e := o.debt(s, now).value, o.debt(s, later).value;
      Ages(o, k, s, now, later);
      Owed(o, k, s, later);
      Owed(o, k, s, now);
      MillisMonotone(now, later);
      CoverLasts(c.g, m, cells, Millis(now), Millis(later), DueOf(c, k, d));
      CeilMillisMonotone(e.until, d.until);
      LowerIsCovered(c.g, Unexpired(m, Millis(later)), cells, Millis(later), DueOf(c, k, d), DueOf(c, k, e));
    }
  }

  lemma GoodLasts<S(!new)>(o: KeyOps<S>, keys: set<nat>, ideal: map<nat, S>, now: nat, later: nat, x: Slot<S>)
    requires Lawful(o) && Good(o, ideal, now, x) && IdealOk(o, keys, ideal, now) && now <= later < o.horizon <= LAST
    ensures Good(o, ideal, later, x)
  {
    hide Orderly, FirstLaw, HintOk;
    Ages(o, x.key, x.state, now, later);
    StaysStricter(o, x.key, x.state, ideal[x.key], now, later);
    HintLasts(o, x, now, later);
  }

  lemma TableLasts(g: Geometry, t: Table, now: nat, later: nat, m: map<Id, Record>)
    requires TableOk(g, t, now, m) && now <= later
    ensures TableOk(g, t, later, Unexpired(m, later))
  {
    hide Holds;
    HoldsLater(g, t, now, later, m);
    RecoveryRuns.UnexpiredFits(m, later);
  }

  lemma NoneUnexpired<S(!new)>(g: Geometry, xs: set<Slot<S>>, m: map<Id, Record>, now: nat)
    requires NoneHeld(g, xs, m)
    ensures NoneHeld(g, xs, Unexpired(m, now))
  {
  }

  /** Time passing keeps the invariant. */
  lemma InvLasts<S(!new)>(c: Config<S>, keys: set<nat>, sh: Shard<S>, ideal: map<nat, S>, now: nat, later: nat,
                          m: map<Id, Record>)
    requires Setting(c, keys) && Inv(c, keys, sh, ideal, now, m) && now <= later < c.ops.horizon
    ensures Inv(c, keys, sh, ideal, later, Unexpired(m, Millis(later)))
  {
    hide Orderly, FirstLaw, Sound, Distinct, Good, Away, Indexed, Content, Stored, Holds, Unexpired, SpentFits,
      Honest, Recalled, NoneHeld;
    HonestLasts(c.g, sh.marks, Content(sh), m, sh.table.cells, Millis(later));
    NoneUnexpired(c.g, Content(sh), m, Millis(later));
    forall k | k in ideal
      ensures c.ops.valid(k, ideal[k], later) && c.ops.native(k, ideal[k], later)
    {
      Ages(c.ops, k, ideal[k], now, later);
    }
    forall x | x in Content(sh) ensures Good(c.ops, ideal, later, x) {
      GoodLasts(c.ops, keys, ideal, now, later, x);
    }
    forall k | k in ideal && !Stored(Content(sh), k)
      ensures Away(c, ideal[k], k, later, Unexpired(m, Millis(later)), sh.table.cells)
    {
      AwayLasts(c, ideal[k], k, now, later, m, sh.table.cells);
    }
    MillisMonotone(now, later);
    RecalledLasts(c.g, sh.marks, m, sh.table.cells, Millis(now), Millis(later));
    TableLasts(c.g, sh.table, Millis(now), Millis(later), m);
  }

  // ---------------------------------------------------------- slots replaced

  lemma StoredReplaced<S(!new)>(xs: set<Slot<S>>, x: Slot<S>, y: Slot<S>, k: nat)
    requires x in xs && y.key == x.key
    ensures Stored(xs, k) <==> Stored(xs - {x} + {y}, k)
  {
    if Stored(xs, k) {
      var z :| z in xs && z.key == k;
      assert z == x || z in xs - {x} + {y};
      assert y in xs - {x} + {y};
    }
  }

  lemma NoneReplaced<S(!new)>(g: Geometry, xs: set<Slot<S>>, m: map<Id, Record>, x: Slot<S>, y: Slot<S>)
    requires NoneHeld(g, xs, m) && x in xs && y.hash == x.hash
    ensures NoneHeld(g, xs - {x} + {y}, m)
  {
    hide IdOf;
  }

  /** A slot may be replaced by another good one of its key. */
  lemma ReplaceKeepsInv<S(!new)>(c: Config<S>, keys: set<nat>, sh: Shard<S>, ideal: map<nat, S>, now: nat, m: map<Id,
                                 Record>, pos: nat, y: Slot<S>)
    requires Sound(c.g) && Inv(c, keys, sh, ideal, now, m) && pos < |sh.slots|
    requires y.key == sh.slots[pos].key && y.hash == sh.slots[pos].hash && y.seeded == sh.slots[pos].seeded
    requires Good(c.ops, ideal, now, y)
    ensures Inv(c, keys, sh.(slots := sh.slots[pos := y]), ideal, now, m)
  {
    hide Sound, Good, Away, Indexed, Content, Stored, Holds, SpentFits, Honest, Recalled, NoneHeld;
    var x := sh.slots[pos];
    ContentAt(sh, pos);
    ReplaceIndexes(c, sh, pos, y);
    NoneReplaced(c.g, Content(sh), m, x, y);
    HonestReplaced(c.g, sh.marks, Content(sh), m, sh.table.cells, x, y);
    forall k ensures Stored(Content(sh), k) <==> Stored(Content(sh) - {x} + {y}, k) {
      StoredReplaced(Content(sh), x, y, k);
    }
  }

  lemma RefreshedIsGood<S(!new)>(o: KeyOps<S>, keys: set<nat>, ideal: map<nat, S>, now: nat, x: Slot<S>)
    requires Lawful(o) && Good(o, ideal, now, x) && IdealOk(o, keys, ideal, now) && now < o.horizon <= LAST
    ensures Good(o, ideal, now, Refreshed(o, x, now))
  {
    hide Orderly, FirstLaw, Tells, ExactHint;
    RefreshedIsWhole(o, x, now);
    StaysStricter(o, x.key, x.state, ideal[x.key], now, now);
  }

  lemma GoodIsValid<S(!new)>(o: KeyOps<S>, ideal: map<nat, S>, now: nat, x: Slot<S>)
    requires Good(o, ideal, now, x)
    ensures x.key in ideal && o.valid(x.key, x.state, now) && o.stricter(x.state, ideal[x.key], now)
            && HintOk(o, x, now)
  {
  }

  lemma RefreshedKeepsSeed<S(!new)>(o: KeyOps<S>, x: Slot<S>, now: nat)
    ensures Refreshed(o, x, now).seeded == x.seeded
  {
    hide ExactHint;
  }

  /** `evictable` keeps the invariant. */
  lemma EvictableKeepsInv<S(!new)>(c: Config<S>, keys: set<nat>, sh: Shard<S>, ideal: map<nat, S>, now: nat,
                                   m: map<Id, Record>, pos: nat)
    requires Setting(c, keys) && Inv(c, keys, sh, ideal, now, m) && pos < |sh.slots| && now < c.ops.horizon
    ensures Inv(c, keys, Evictable(c, sh, pos, now).0, ideal, now, m)
    ensures Evictable(c, sh, pos, now).1.Recovered? ==>
              c.ops.debt(Evictable(c, sh, pos, now).0.slots[pos].state, now).None?
  {
    RefreshedKeepsSeed(c.ops, sh.slots[pos], now);
    hide Orderly, FirstLaw, Sound, Distinct, Good, Away, AllAway, Indexed, Content, Stored, Holds, SpentFits,
      Refreshed, HasExactRoom, Honest, Recalled, NoneHeld;
    var x := sh.slots[pos];
    ContentAt(sh, pos);
    assert Good(c.ops, ideal, now, x);
    RefreshedIsGood(c.ops, keys, ideal, now, x);
    GoodIsValid(c.ops, ideal, now, x);
    RefreshedIsWhole(c.ops, x, now);
    ReplaceKeepsInv(c, keys, sh, ideal, now, m, pos, Refreshed(c.ops, x, now));
    if Refreshed(c.ops, x, now).hint <= Millis(now) { RecoveredOwesNothing(c.ops, x, now); }
  }

  // ---------------------------------------------------------- slots removed

  /** A slot may go once what its ideal owes is covered. */
  lemma RemoveKeepsCore<S(!new)>(c: Config<S>, keys: set<nat>, sh: Shard<S>, ideal: map<nat, S>, now: nat, m: map<Id,
                                Record>, pos: nat)
    requires Sound(c.g) && Core(c, keys, sh, ideal, now, m) && pos < |sh.slots| && sh.slots[pos].key in ideal
    requires Away(c, ideal[sh.slots[pos].key], sh.slots[pos].key, now, m, sh.table.cells)
    ensures Core(c, keys, RemoveAt(sh, pos), ideal, now, m)
    ensures Content(RemoveAt(sh, pos)) == Content(sh) - {sh.slots[pos]}
  {
    hide Sound, Good, Away, Indexed, Content, Holds, SpentFits, Honest, Recalled;
    RemoveIndexes(c, sh, pos);
    ContentAt(sh, pos);
    HonestFewer(c.g, sh.marks, Content(sh), m, sh.table.cells, sh.slots[pos]);
    assert RemoveAt(sh, pos).table == sh.table;
    forall k | k in ideal && Stored(Content(sh), k) && k != sh.slots[pos].key
      ensures Stored(Content(RemoveAt(sh, pos)), k)
    {
      var x :| x in Content(sh) && x.key == k;
      assert x in Content(sh) - {sh.slots[pos]};
    }
  }

  lemma RemoveKeepsInv<S(!new)>(c: Config<S>, keys: set<nat>, sh: Shard<S>, ideal: map<nat, S>, now: nat, m: map<Id,
                                Record>, pos: nat)
    requires Sound(c.g) && Inv(c, keys, sh, ideal, now, m) && pos < |sh.slots| && sh.slots[pos].key in ideal
    requires Away(c, ideal[sh.slots[pos].key], sh.slots[pos].key, now, m, sh.table.cells)
    ensures Inv(c, keys, RemoveAt(sh, pos), ideal, now, m)
  {
    hide Sound, Core, Away, Content, RemoveAt;
    RemoveKeepsCore(c, keys, sh, ideal, now, m, pos);
  }

  /** A key that owes nothing has an ideal that owes nothing. */
  lemma WholeIsAway<S(!new)>(c: Config<S>, keys: set<nat>, ideal: map<nat, S>, now: nat, x: Slot<S>, m: map<Id,
                             Record>, cells: seq<nat>)
    requires Setting(c, keys) && Good(c.ops, ideal, now, x) && IdealOk(c.ops, keys, ideal, now) && now < c.ops.horizon
    requires c.ops.debt(x.state, now).None?
    ensures Away(c, ideal[x.key], x.key, now, m, cells)
  {
    hide Orderly, FirstLaw, Sound, Distinct, HintOk, Covered;
    OwesMore(c.ops, x.key, x.state, ideal[x.key], now);
  }

  lemma MillisBelowMark(now: nat)
    requires now < LAST
    ensures Millis(now) < UNTIL_MAX < RECORD_UNTIL_MAX
  {
  }

  lemma DueExpressible<S(!new)>(c: Config<S>, k: nat, d: Debt)
    requires d.spent <= U32_MAX && d.until <= LAST
    ensures Expressible(DueOf(c, k, d))
  {
  }

  /** Recording a debt keeps every absent key covered. */
  lemma RecordKeepsAway<S(!new)>(c: Config<S>, s: S, k: nat, now: nat, t: Table, m: map<Id, Record>, h: nat,
                                 spent: nat, until: nat, inherited: bool)
    requires Sound(c.g) && Lawful(c.ops) && c.ops.valid(k, s, now) && c.ops.native(k, s, now)
             && now < c.ops.horizon <= LAST
    requires TableOk(c.g, t, Millis(now), m) && Away(c, s, k, now, m, t.cells)
    requires Millis(now) < until && spent <= U32_MAX
    ensures Away(c, s, k, now, After(c.g, t, m, h, spent, until, Millis(now), false, inherited),
                 RecordDebt(c.g, t, h, spent, until, Millis(now), false, inherited).table.cells)
  {
    hide Orderly, FirstLaw, Sound, Covered, Holds, SpentFits, After, RecordDebt;
    if c.ops.debt(s, now).Some? {
      Owed(c.ops, k, s, now);
      DueExpressible(c, k, c.ops.debt(s, now).value);
      MillisBelowMark(now);
      RecordCovers(c.g, t, m, h, spent, until, Millis(now), inherited, DueOf(c, k, c.ops.debt(s, now).value));
    }
  }

  /** The debt of an evicted slot covers its own ideal. */
  lemma RecordedIsAway<S(!new)>(c: Config<S>, keys: set<nat>, ideal: map<nat, S>, now: nat, x: Slot<S>, t: Table,
                                m: map<Id, Record>)
    requires Setting(c, keys) && Good(c.ops, ideal, now, x) && IdealOk(c.ops, keys, ideal, now) && now < c.ops.horizon
    requires TableOk(c.g, t, Millis(now), m) && c.ops.debt(x.state, now).Some? && x.hash == c.hash(x.key)
    requires var d := c.ops.debt(x.state, now).value;
             RecordDebt(c.g, t, x.hash, d.spent, CeilMillis(d.until), Millis(now), false, x.seeded).result.Some?
    ensures var d := c.ops.debt(x.state, now).value;
            Away(c, ideal[x.key], x.key, now,
                 After(c.g, t, m, x.hash, d.spent, CeilMillis(d.until), Millis(now), false, x.seeded),
                 RecordDebt(c.g, t, x.hash, d.spent, CeilMillis(d.until), Millis(now), false, x.seeded).table.cells)
  {
    hide Orderly, FirstLaw, Sound, Distinct, HintOk, Covered, Holds, SpentFits, After, RecordDebt;
    var d, s := c.ops.debt(x.state, now).value, ideal[x.key];
    if c.ops.debt(s, now).Some? {
      var e := c.ops.debt(s, now).value;
      OwesMore(c.ops, x.key, x.state, s, now);
      Owed(c.ops, x.key, x.state, now);
      Owed(c.ops, x.key, s, now);
      CeilMillisMonotone(e.until, d.until);
      CeilMillisAfter(d.until, now);
      DueExpressible(c, x.key, e);
      MillisBelowMark(now);
      RecordCovers(c.g, t, m, x.hash, d.spent, CeilMillis(d.until), Millis(now), x.seeded, DueOf(c, x.key, e));
    }
  }

  lemma SameSlots<S(!new)>(sh: Shard<S>, r: Shard<S>)
    requires sh.slots == r.slots
    ensures Content(sh) == Content(r)
  {
  }

  /** The marks once a slot's debt is recorded, or turned away. */
  function MarksAfter<S>(c: Config<S>, sh: Shard<S>, x: Slot<S>, spent: nat, until: nat, now: nat): Marks
    requires Sound(c.g) && WF(c.g, sh.table)
  {
    var o := RecordDebt(c.g, sh.table, x.hash, spent, until, Millis(now), false, x.seeded);
    if o.result.None? then sh.marks
    else
      var due := Due(IdOf(c.g, x.hash), spent, until, x.key in sh.marks.keys);
      MarksRecorded(c.g, sh.marks, sh.table, x.hash, x.key, due, o, Millis(now), false)
  }

  lemma MarksAfterHonest<S(!new)>(c: Config<S>, sh: Shard<S>, x: Slot<S>, spent: nat, until: nat, now: nat, m: map<Id,
                                  Record>)
    requires Sound(c.g) && TableOk(c.g, sh.table, Millis(now), m) && x in Content(sh) && now < LAST
    requires Honest(c.g, sh.marks, Content(sh), m, sh.table.cells) && Millis(now) < until && spent <= U32_MAX
    ensures Honest(c.g, MarksAfter(c, sh, x, spent, until, now), Content(sh),
                   After(c.g, sh.table, m, x.hash, spent, until, Millis(now), false, x.seeded),
                   RecordDebt(c.g, sh.table, x.hash, spent, until, Millis(now), false, x.seeded).table.cells)
  {
    hide Sound, Holds, SpentFits, RecordDebt, Content, Honest, MarksRecorded;
    MillisBelowMark(now);
    HonestRecorded(c.g, sh.marks, Content(sh), m, sh.table, x, spent, until, Millis(now));
    HonestTurnedAway(c.g, sh.marks, Content(sh), m, sh.table, x, spent, until, Millis(now));
  }

  lemma MarksAfterRecalled<S(!new)>(c: Config<S>, sh: Shard<S>, x: Slot<S>, spent: nat, until: nat, now: nat,
                                    m: map<Id, Record>)
    requires Sound(c.g) && TableOk(c.g, sh.table, Millis(now), m) && IdOf(c.g, x.hash) !in m && now < LAST
    requires Recalled(c.g, sh.marks, m, sh.table.cells, Millis(now)) && Millis(now) < until && spent <= U32_MAX
    ensures Recalled(c.g, MarksAfter(c, sh, x, spent, until, now),
                     After(c.g, sh.table, m, x.hash, spent, until, Millis(now), false, x.seeded),
                     RecordDebt(c.g, sh.table, x.hash, spent, until, Millis(now), false, x.seeded).table.cells,
                     Millis(now))
  {
    MillisBelowMark(now);
    if RecordDebt(c.g, sh.table, x.hash, spent, until, Millis(now), false, x.seeded).result.None? {
      hide Sound, Holds, SpentFits, RecordDebt, LastCovered, RecordsAre, MarksRecorded;
      RecordCoversLast(c.g, sh.table, m, x.hash, spent, until, Millis(now), x.seeded, sh.marks);
    } else {
      hide Sound, Holds, SpentFits, RecordDebt, Recalled, MarksRecorded, After;
      var due := Due(IdOf(c.g, x.hash), spent, until, x.key in sh.marks.keys);
      RecalledRecorded(c.g, sh.marks, m, sh.table, x.hash, x.key, due, Millis(now), x.seeded);
    }
  }

  lemma HeldHere<S(!new)>(c: Config<S>, sh: Shard<S>, m: map<Id, Record>, x: Slot<S>)
    requires NoneHeld(c.g, Content(sh), m) && x in Content(sh)
    ensures IdOf(c.g, x.hash) !in m
  {
  }

  /** A table that grew by one debt still covers every absent key. */
  lemma TableKeepsInv<S(!new)>(c: Config<S>, keys: set<nat>, sh: Shard<S>, ideal: map<nat, S>, now: nat, m: map<Id,
                               Record>, x: Slot<S>, spent: nat, until: nat)
    requires Setting(c, keys) && Inv(c, keys, sh, ideal, now, m) && now < c.ops.horizon && x in Content(sh)
    requires Millis(now) < until && spent <= U32_MAX
    ensures var o := RecordDebt(c.g, sh.table, x.hash, spent, until, Millis(now), false, x.seeded);
            Core(c, keys, sh.(table := o.table, marks := MarksAfter(c, sh, x, spent, until, now)), ideal, now,
              After(c.g, sh.table, m, x.hash, spent, until, Millis(now), false, x.seeded))
  {
    hide Orderly, FirstLaw, Sound, Distinct, Good, Away, Stored, Content, Holds, SpentFits, After, RecordDebt,
      KeysDiffer, Honest, MarksAfter, Recalled, NoneHeld, IdOf;
    var h, inherited := x.hash, x.seeded;
    var o := RecordDebt(c.g, sh.table, h, spent, until, Millis(now), false, inherited);
    MillisBelowMark(now);
    RecordHolds(c.g, sh.table, m, h, spent, until, Millis(now), false, inherited);
    forall k | k in ideal && !Stored(Content(sh), k)
      ensures Away(c, ideal[k], k, now, After(c.g, sh.table, m, h, spent, until, Millis(now), false, inherited),
              o.table.cells)
    {
      RecordKeepsAway(c, ideal[k], k, now, sh.table, m, h, spent, until, inherited);
    }
    MarksAfterHonest(c, sh, x, spent, until, now, m);
    HeldHere(c, sh, m, x);
    MarksAfterRecalled(c, sh, x, spent, until, now, m);
    SameSlots(sh, sh.(table := o.table, marks := MarksAfter(c, sh, x, spent, until, now)));
  }

  /** A slot read in passing stays good. */
  lemma LookedIsGood<S(!new)>(o: KeyOps<S>, keys: set<nat>, ideal: map<nat, S>, now: nat, x: Slot<S>)
    requires Lawful(o) && Good(o, ideal, now, x) && IdealOk(o, keys, ideal, now) && now < o.horizon
    ensures Good(o, ideal, now, x.(state := o.look(x.state, now)))
  {
    hide Orderly, FirstLaw, Tells;
    Looked(o, x.key, x.state, now, now);
    StaysStricter(o, x.key, x.state, ideal[x.key], now, now);
    if Trusted(x) { LookKeepsTelling(o, x.key, x.state, now, x.hint); }
  }

  /** Cursors do not matter. */
  lemma CursorsDoNotMatter<S(!new)>(c: Config<S>, keys: set<nat>, sh: Shard<S>, r: Shard<S>, ideal: map<nat, S>,
                                    now: nat, m: map<Id, Record>)
    requires Sound(c.g) && Inv(c, keys, sh, ideal, now, m)
    requires r.slots == sh.slots && r.index == sh.index && r.table == sh.table && r.marks == sh.marks
    ensures Inv(c, keys, r, ideal, now, m)
  {
    hide Sound, Good, Away, Stored, Holds, SpentFits, KeysDiffer, Honest, Recalled, NoneHeld;
    SameSlots(sh, r);
  }

  lemma HashIs<S(!new)>(c: Config<S>, sh: Shard<S>, pos: nat)
    requires Indexed(c, sh) && pos < |sh.slots|
    ensures sh.slots[pos].hash == c.hash(sh.slots[pos].key)
  {
  }

  lemma TurnedAwayKeeps(g: Geometry, t: Table, m: map<Id, Record>, h: nat, spent: nat, until: nat, now: nat,
                        inherited: bool)
    requires Sound(g) && WF(g, t)
    ensures RecordDebt(g, t, h, spent, until, now, false, inherited).result.None? ==>
              After(g, t, m, h, spent, until, now, false, inherited) == m
  {
    hide Sound, RecordDebt;
  }

  /** Recording one key's debt gives no other key a record. */
  lemma NoneRecorded<S(!new)>(c: Config<S>, keys: set<nat>, sh: Shard<S>, ideal: map<nat, S>, now: nat, m: map<Id,
                              Record>, pos: nat, spent: nat, until: nat)
    requires Setting(c, keys) && Inv(c, keys, sh, ideal, now, m) && pos < |sh.slots|
    ensures var x := sh.slots[pos];
            NoneHeld(c.g, Content(sh) - {x},
              After(c.g, sh.table, m, x.hash, spent, until, Millis(now), false, x.seeded))
  {
    var x := sh.slots[pos];
    ContentAt(sh, pos);
    hide Orderly, FirstLaw, Sound, HintOk, Away, AllAway, Honest, Recalled, Holds, SpentFits, RecordDebt, IdOf;
    assert Good(c.ops, ideal, now, x) && IdOf(c.g, x.hash) !in m;
    forall y | y in Content(sh) - {x}
      ensures IdOf(c.g, y.hash) !in m && IdOf(c.g, y.hash) != IdOf(c.g, x.hash)
    {
      assert Good(c.ops, ideal, now, y);
      if y.key == x.key { OneSlotPerKey(c, sh, y, x); }
    }
  }

  /** `evict_at` keeps the invariant, for a slot that owes nothing or is asked to
      record what it owes. */
  lemma EvictAtKeepsInv<S(!new)>(c: Config<S>, keys: set<nat>, sh: Shard<S>, ideal: map<nat, S>, now: nat, m: map<Id,
                                 Record>, pos: nat, recovered: bool)
    returns (m': map<Id, Record>)
    requires Setting(c, keys) && !c.forget && Inv(c, keys, sh, ideal, now, m) && pos < |sh.slots| && now < c.ops.horizon
    requires recovered ==> c.ops.debt(sh.slots[pos].state, now).None?
    ensures Inv(c, keys, EvictAt(c, sh, pos, recovered, now), ideal, now, m')
  {
    hide Orderly, FirstLaw, Sound, Distinct, Good, Away, AllAway, Indexed, Content, Stored, Holds, SpentFits,
      After, RecordDebt, RemoveAt, DueOf, Honest, MarksRecorded, Recalled, NoneHeld, IdOf;
    var x := sh.slots[pos];
    ContentAt(sh, pos);
    assert Good(c.ops, ideal, now, x);
    GoodIsValid(c.ops, ideal, now, x);
    var debt := c.ops.debt(x.state, now);
    if debt.None? {
      WholeIsAway(c, keys, ideal, now, x, m, sh.table.cells);
      RemoveKeepsInv(c, keys, sh, ideal, now, m, pos);
      m' := m;
    } else {
      var spent, until := debt.value.spent, CeilMillis(debt.value.until);
      Owed(c.ops, x.key, x.state, now);
      CeilMillisAfter(debt.value.until, now);
      HashIs(c, sh, pos);
      var o := RecordDebt(c.g, sh.table, x.hash, spent, until, Millis(now), false, x.seeded);
      m' := After(c.g, sh.table, m, x.hash, spent, until, Millis(now), false, x.seeded);
      TableKeepsInv(c, keys, sh, ideal, now, m, x, spent, until);
      var sh1 := sh.(table := o.table, marks := MarksAfter(c, sh, x, spent, until, now));
      if o.result.None? {
        SameSlots(sh, sh1);
        TurnedAwayKeeps(c.g, sh.table, m, x.hash, spent, until, Millis(now), x.seeded);
        LookedIsGood(c.ops, keys, ideal, now, x);
        ReplaceKeepsInv(c, keys, sh1, ideal, now, m', pos, x.(state := c.ops.look(x.state, now)));
      } else {
        RecordedIsAway(c, keys, ideal, now, x, sh.table, m);
        SameSlots(sh, sh1);
        NoneRecorded(c, keys, sh, ideal, now, m, pos, spent, until);
        RemoveKeepsCore(c, keys, sh1, ideal, now, m', pos);
      }
    }
  }
}

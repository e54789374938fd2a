/** No debt is lost (src/store.rs:631-834): once recorded, a debt stays covered,
    by the key's own record or by both of its sketch cells, until it expires or
    the key takes it back. */
module RecoveryCover {
  import opened Units
  import opened Probe
  import opened RecoveryTable
  import opened RecoveryFacts
  import opened RecoveryRecord

  /** A debt of an identity: `spent` units, back by `until` (ms). */
  datatype Due = Due(id: Id, spent: nat, until: nat, inherited: bool)

  ghost predicate InRecord(m: map<Id, Record>, d: Due) {
    d.id in m && m[d.id].spent >= d.spent && m[d.id].until >= d.until
  }

  ghost predicate InCell(cell: nat, d: Due) {
    CellSpent(cell) >= d.spent && CellUntil(cell) >= d.until
  }

  ghost predicate InCells(g: Geometry, cells: seq<nat>, d: Due)
    requires Sound(g)
  {
    && |cells| == g.cells
    && InCell(cells[g.cellA(d.id.tag, d.id.low)], d)
    && InCell(cells[g.cellB(d.id.tag, d.id.low)], d)
  }

  /** The debt is over, or a record or the sketch still says as much. */
  ghost predicate Covered(g: Geometry, m: map<Id, Record>, cells: seq<nat>, now: nat, d: Due)
    requires Sound(g)
  {
    d.until <= now || InRecord(m, d) || InCells(g, cells, d)
  }

  /** What the sketch can express: deadlines up to `UNTIL_MAX`. */
  predicate Expressible(d: Due) { d.spent <= U32_MAX && d.until <= UNTIL_MAX }

  // ------------------------------------------------------------------- time

  lemma CoverLasts(g: Geometry, m: map<Id, Record>, cells: seq<nat>, now: nat, later: nat, d: Due)
    requires Sound(g) && Covered(g, m, cells, now, d) && now <= later
    requires forall id :: id in m ==> m[id].tag != 0
    ensures Covered(g, Unexpired(m, later), cells, later, d)
  {
    hide InCells, Sound;
  }

  // ----------------------------------------------------------------- sketch

  lemma MergeReads(cell: nat, until: nat, spent: nat, now: nat)
    requires spent <= U32_MAX
    ensures var c := MergeCell(cell, until, spent, now);
            && CellSpent(c) >= spent && CellUntil(c) >= Min(until, UNTIL_MAX)
            && (CellUntil(cell) > now ==>
                  CellSpent(c) >= CellSpent(cell) && CellUntil(c) >= Min(CellUntil(cell), UNTIL_MAX))
  {
    if CellUntil(cell) > now {
      CellRoundTrip(Max(CellUntil(cell), until), Max(CellSpent(cell), spent));
    } else {
      CellRoundTrip(until, spent);
    }
  }

  lemma CellAt(g: Geometry, t: Table, r: Record, b: nat, now: nat, c: nat)
    requires Sound(g) && Allocated(g, t) && c < g.cells
    ensures var id := IdAt(g, b, r.tag);
            var u := Overflow(g, t, r, b, now);
            && |u.cells| == g.cells
            && u.cells[c] == if c == g.cellA(id.tag, id.low) || c == g.cellB(id.tag, id.low)
                             then MergeCell(t.cells[c], r.until, r.spent, now) else t.cells[c]
  {
    hide MergeCell;
  }

  lemma CellKeeps(g: Geometry, t: Table, r: Record, b: nat, now: nat, c: nat, d: Due)
    requires Sound(g) && Allocated(g, t) && c < g.cells && r.spent <= U32_MAX && Expressible(d)
    requires InCell(t.cells[c], d) && d.until > now
    ensures |Overflow(g, t, r, b, now).cells| == g.cells && InCell(Overflow(g, t, r, b, now).cells[c], d)
  {
    hide MergeCell, Overflow, Sound, CellUntil, CellSpent;
    CellAt(g, t, r, b, now, c);
    MergeReads(t.cells[c], r.until, r.spent, now);
  }

  /** Writing one debt to the sketch weakens no other. */
  lemma OverflowKeeps(g: Geometry, t: Table, r: Record, b: nat, now: nat, d: Due)
    requires Sound(g) && Allocated(g, t) && r.spent <= U32_MAX && Expressible(d)
    requires InCells(g, t.cells, d) && d.until > now
    ensures InCells(g, Overflow(g, t, r, b, now).cells, d)
  {
    hide MergeCell, Overflow, InCell;
    CellKeeps(g, t, r, b, now, g.cellA(d.id.tag, d.id.low), d);
    CellKeeps(g, t, r, b, now, g.cellB(d.id.tag, d.id.low), d);
  }

  /** A debt written to the sketch is there. */
  lemma OverflowCovers(g: Geometry, t: Table, r: Record, b: nat, now: nat, d: Due)
    requires Sound(g) && Allocated(g, t) && r.spent <= U32_MAX && Expressible(d)
    requires d.id == IdAt(g, b, r.tag) && r.spent >= d.spent && r.until >= d.until
    ensures InCells(g, Overflow(g, t, r, b, now).cells, d)
  {
    hide MergeCell, Overflow;
    var i, j := g.cellA(d.id.tag, d.id.low), g.cellB(d.id.tag, d.id.low);
    CellAt(g, t, r, b, now, i);
    CellAt(g, t, r, b, now, j);
    MergeReads(t.cells[i], r.until, r.spent, now);
    MergeReads(t.cells[j], r.until, r.spent, now);
  }

  // -------------------------------------------------------------- recording

  ghost predicate SpentFits(m: map<Id, Record>) {
    forall id :: id in m ==> m[id].spent <= U32_MAX && m[id].tag != 0
  }

  lemma WantedCovers(m: map<Id, Record>, id: Id, debt: Record, d: Due)
    requires InRecord(m, d) || (d.id == id && debt.spent >= d.spent && debt.until >= d.until)
    ensures InRecord(Wanted(m, id, debt), d)
  {
  }

  /** What the exact table holds after recording. */
  ghost function Kept(g: Geometry, wanted: map<Id, Record>, spilled: Option<Homeless>): map<Id, Record> {
    if spilled.None? then wanted
    else wanted - {IdAt(g, spilled.value.bucket, spilled.value.record.tag)}
  }

  /** A debt the table was asked to hold is in it or in the sketch. */
  lemma KeepsCovers(g: Geometry, t: Table, o: Outcome, now: nat, wanted: map<Id, Record>, d: Due)
    requires Sound(g) && Allocated(g, t) && Keeps(g, t, o, now, false, wanted) && SpentFits(wanted)
    requires Expressible(d) && (InRecord(wanted, d) || InCells(g, t.cells, d))
    ensures Covered(g, Kept(g, wanted, o.spilled), o.table.cells, now, d)
  {
    hide Holds, Overflow, InCell, Sound;
    if d.until > now && o.spilled.Some? {
      var r, b := o.spilled.value.record, o.spilled.value.bucket;
      if InCells(g, t.cells, d) {
        OverflowKeeps(g, t, r, b, now, d);
      } else if d.id == IdAt(g, b, r.tag) {
        OverflowCovers(g, t, r, b, now, d);
      }
    }
  }

  lemma AllocateCovers(g: Geometry, t: Table, d: Due)
    requires Sound(g) && WF(g, t) && InCells(g, t.cells, d)
    ensures InCells(g, Allocate(g, t).cells, d)
  {
  }

  /** The table after `record`, as the map it holds. */
  ghost function After(g: Geometry, t0: Table, m: map<Id, Record>, h: nat, spent: nat, until: nat, now: nat,
                       forget: bool, inherited: bool): map<Id, Record>
    requires Sound(g) && WF(g, t0)
  {
    var o := RecordDebt(g, t0, h, spent, until, now, forget, inherited);
    if o.result.None? then m
    else Kept(g, Wanted(m, IdOf(g, h), DebtOf(g, h, spent, until, inherited)), o.spilled)
  }

  lemma TagsNotZero(g: Geometry, h: nat)
    requires Sound(g)
    ensures g.tagOf(h) != 0
  {
  }

  /** Recording keeps the shape of the table. */
  lemma RecordHolds(g: Geometry, t0: Table, m: map<Id, Record>, h: nat, spent: nat, until: nat, now: nat,
                    forget: bool, inherited: bool)
    requires Sound(g) && WF(g, t0) && Holds(g, t0, now, m) && now < until && now < RECORD_UNTIL_MAX
    requires SpentFits(m) && spent <= U32_MAX
    ensures var o := RecordDebt(g, t0, h, spent, until, now, forget, inherited);
            && WF(g, o.table)
            && Holds(g, o.table, now, After(g, t0, m, h, spent, until, now, forget, inherited))
            && SpentFits(After(g, t0, m, h, spent, until, now, forget, inherited))
  {
    hide Holds, RecordDebt, Sound, CellsFollow;
    RecordKeeps(g, t0, h, spent, until, now, forget, inherited, m);
    AllocateHolds(g, t0, now, m);
    var o := RecordDebt(g, t0, h, spent, until, now, forget, inherited);
    TagsNotZero(g, h);
    if o.result.None? {
      HoldsSame(g, Allocate(g, t0), o.table, now, m);
    }
  }

  /** Recording leaves every debt that was covered covered, and covers the new
      one unless it is turned away. */
  lemma RecordCovers(g: Geometry, t0: Table, m: map<Id, Record>, h: nat, spent: nat, until: nat, now: nat,
                     inherited: bool, d: Due)
    requires Sound(g) && WF(g, t0) && Holds(g, t0, now, m) && now < until && now < RECORD_UNTIL_MAX
    requires SpentFits(m) && spent <= U32_MAX && Expressible(d)
    requires var o := RecordDebt(g, t0, h, spent, until, now, false, inherited);
             || Covered(g, m, t0.cells, now, d)
             || (o.result.Some? && d.id == IdOf(g, h) && spent >= d.spent && until >= d.until)
    ensures Covered(g, After(g, t0, m, h, spent, until, now, false, inherited),
                    RecordDebt(g, t0, h, spent, until, now, false, inherited).table.cells, now, d)
  {
    hide Holds, RecordDebt, Sound, InCells, Allocate, HoldsAllBut;
    RecordKeeps(g, t0, h, spent, until, now, false, inherited, m);
    AllocateHolds(g, t0, now, m);
    var o := RecordDebt(g, t0, h, spent, until, now, false, inherited);
    var debt := DebtOf(g, h, spent, until, inherited);
    var wanted := Wanted(m, IdOf(g, h), debt);
    TagsNotZero(g, h);
    if InCells(g, t0.cells, d) { AllocateCovers(g, t0, d); }
    if o.result.Some? && d.until > now {
      if !InCells(g, t0.cells, d) { WantedCovers(m, IdOf(g, h), debt, d); }
      KeepsCovers(g, Allocate(g, t0), o, now, wanted, d);
    }
  }

  // ------------------------------------------------- taking and releasing

  /** `take` and `forget` clear the key's own record and nothing else. */
  lemma ForgetHolds(g: Geometry, t: Table, now: nat, m: map<Id, Record>, h: nat)
    requires Sound(g) && WF(g, t) && Holds(g, t, now, m)
    ensures var u := Forget(g, t, h, now);
            WF(g, u) && u.cells == t.cells && Holds(g, u, now, m - {IdOf(g, h)})
  {
    hide Holds, Own, Sound;
    OwnIff(g, t, now, m, h);
    var own := Own(g, t, h, now);
    if own.Some? {
      Clears(g, t, now, m, own.value);
    } else {
      assert m - {IdOf(g, h)} == m;
    }
  }

  lemma SpentHoldsNothing(g: Geometry, t: Table, now: nat, m: map<Id, Record>)
    requires Holds(g, t, now, m) && IsSpent(t, now)
    ensures m == map[]
  {
    var at: Places :| Located(g, t, now, at) && Held(t, at) == m;
    assert forall id :: id in at ==> at[id] < |t.records|;
    assert forall id :: id in m ==> id in at;
  }

  /** A table is released only when it covers nothing any more. */
  lemma ReleaseLosesNothing(g: Geometry, t: Table, now: nat, m: map<Id, Record>, d: Due)
    requires Sound(g) && Holds(g, t, now, m) && IsSpent(t, now) && Covered(g, m, t.cells, now, d)
    ensures d.until <= now
  {
    SpentHoldsNothing(g, t, now, m);
    hide Holds;
  }

  lemma EmptyOwnsNothing(g: Geometry, t: Table, now: nat, h: nat)
    requires Sound(g) && WF(g, t)
    ensures t.records == [] ==> Own(g, t, h, now).None?
  {
  }

  /** A covered debt that is still live is charged in full to its key, and to
      any key that the table cannot tell from it. */
  lemma PeekCovers(g: Geometry, t: Table, now: nat, m: map<Id, Record>, h: nat, d: Due)
    requires Sound(g) && WF(g, t) && Holds(g, t, now, m) && Covered(g, m, t.cells, now, d)
    requires d.id == IdOf(g, h) && d.until > now
    ensures var c := PeekCharge(g, t, h, now);
            c.Some? && c.value.spent >= d.spent && c.value.until >= d.until
  {
    hide Holds, Own, CellUntil, CellSpent;
    OwnIff(g, t, now, m, h);
    EmptyOwnsNothing(g, t, now, h);
  }
}

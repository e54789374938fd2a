/** What a key left owing (src/store.rs:662-805, 978-996): as long as it is live,
    the debt last recorded for a key is in its own record to the unit, or pushed
    out to the sketch. */
module ShardRecall {
  import opened Units
  import opened Probe
  import opened RecoveryTable
  import opened RecoveryFacts
  import opened RecoveryCover
  import RecoveryRuns
  import opened Shard

  /** A live record is exactly the debt last recorded for its identity. */
  ghost predicate RecordsAre(marks: Marks, m: map<Id, Record>) {
    forall id :: id in m ==>
      && id in marks.last && m[id].spent == marks.last[id].spent
      && m[id].until == Min(marks.last[id].until, RECORD_UNTIL_MAX)
  }

  /** And such a debt is covered until it is over. */
  ghost predicate LastCovered(g: Geometry, marks: Marks, m: map<Id, Record>, cells: seq<nat>, now: nat)
    requires Sound(g)
  {
    forall id :: id in marks.last ==>
      && marks.last[id].id == id && marks.last[id].spent <= U32_MAX
      && Covered(g, m, cells, now, RecoveryRuns.Clip(marks.last[id]))
  }

  ghost predicate Recalled(g: Geometry, marks: Marks, m: map<Id, Record>, cells: seq<nat>, now: nat)
    requires Sound(g)
  {
    RecordsAre(marks, m) && LastCovered(g, marks, m, cells, now)
  }

  /** No key that is stored has a record. */
  ghost predicate NoneHeld<S(!new)>(g: Geometry, xs: set<Slot<S>>, m: map<Id, Record>) {
    forall x :: x in xs ==> IdOf(g, x.hash) !in m
  }

  lemma RecalledLasts(g: Geometry, marks: Marks, m: map<Id, Record>, cells: seq<nat>, now: nat, later: nat)
    requires Sound(g) && Recalled(g, marks, m, cells, now) && SpentFits(m) && now <= later
    ensures Recalled(g, marks, Unexpired(m, later), cells, later)
  {
    hide Sound, Covered;
    forall id | id in marks.last
      ensures Covered(g, Unexpired(m, later), cells, later, RecoveryRuns.Clip(marks.last[id]))
    {
      CoverLasts(g, m, cells, now, later, RecoveryRuns.Clip(marks.last[id]));
    }
  }

  lemma RecordCoversLast(g: Geometry, t: Table, m: map<Id, Record>, h: nat, spent: nat, until: nat, now: nat,
                         inherited: bool, marks: Marks)
    requires Sound(g) && WF(g, t) && Holds(g, t, now, m) && SpentFits(m) && now < until && now < RECORD_UNTIL_MAX
    requires spent <= U32_MAX && LastCovered(g, marks, m, t.cells, now)
    ensures LastCovered(g, marks, After(g, t, m, h, spent, until, now, false, inherited),
                        RecordDebt(g, t, h, spent, until, now, false, inherited).table.cells, now)
  {
    hide Sound, Covered, Holds, SpentFits, RecordDebt, After;
    var o := RecordDebt(g, t, h, spent, until, now, false, inherited);
    forall id | id in marks.last
      ensures Covered(g, After(g, t, m, h, spent, until, now, false, inherited), o.table.cells, now,
                RecoveryRuns.Clip(marks.last[id]))
    {
      RecordCovers(g, t, m, h, spent, until, now, inherited, RecoveryRuns.Clip(marks.last[id]));
    }
  }

  lemma MarksRecordedLast(g: Geometry, marks: Marks, t: Table, h: nat, key: nat, due: Due, o: Outcome, now: nat)
    requires Sound(g) && WF(g, t)
    ensures MarksRecorded(g, marks, t, h, key, due, o, now, false).last == marks.last[due.id := due]
  {
    hide Sound, OwnMarked;
  }

  lemma RecordedIs(g: Geometry, marks: Marks, marks': Marks, m: map<Id, Record>, t: Table, h: nat, due: Due, now: nat,
                   inherited: bool)
    requires Sound(g) && WF(g, t) && RecordsAre(marks, m) && due.id == IdOf(g, h) && IdOf(g, h) !in m
    requires marks'.last == marks.last[due.id := due]
    requires RecordDebt(g, t, h, due.spent, due.until, now, false, inherited).result.Some?
    ensures RecordsAre(marks', After(g, t, m, h, due.spent, due.until, now, false, inherited))
  {
    hide Sound, RecordDebt, IdOf;
  }

  lemma LastGrows(g: Geometry, marks: Marks, marks': Marks, m: map<Id, Record>, cells: seq<nat>, now: nat, due: Due)
    requires Sound(g) && LastCovered(g, marks, m, cells, now) && marks'.last == marks.last[due.id := due]
    requires due.spent <= U32_MAX && Covered(g, m, cells, now, RecoveryRuns.Clip(due))
    ensures LastCovered(g, marks', m, cells, now)
  {
    hide Sound, Covered;
  }

  lemma RecalledRecorded(g: Geometry, marks: Marks, m: map<Id, Record>, t: Table, h: nat, key: nat, due: Due,
                         now: nat, inherited: bool)
    requires Sound(g) && WF(g, t) && Holds(g, t, now, m) && SpentFits(m) && now < due.until && now < RECORD_UNTIL_MAX
    requires Recalled(g, marks, m, t.cells, now) && IdOf(g, h) !in m
    requires due.id == IdOf(g, h) && due.spent <= U32_MAX
    requires RecordDebt(g, t, h, due.spent, due.until, now, false, inherited).result.Some?
    ensures var o := RecordDebt(g, t, h, due.spent, due.until, now, false, inherited);
            Recalled(g, MarksRecorded(g, marks, t, h, key, due, o, now, false),
                     After(g, t, m, h, due.spent, due.until, now, false, inherited), o.table.cells, now)
  {
    hide Sound, Covered, Holds, SpentFits, RecordDebt, MarksRecorded, After, RecordsAre, LastCovered, IdOf;
    var o := RecordDebt(g, t, h, due.spent, due.until, now, false, inherited);
    var m' := After(g, t, m, h, due.spent, due.until, now, false, inherited);
    var marks' := MarksRecorded(g, marks, t, h, key, due, o, now, false);
    MarksRecordedLast(g, marks, t, h, key, due, o, now);
    RecordedIs(g, marks, marks', m, t, h, due, now, inherited);
    RecordCoversLast(g, t, m, h, due.spent, due.until, now, inherited, marks);
    RecordCovers(g, t, m, h, due.spent, due.until, now, inherited, RecoveryRuns.Clip(due));
    LastGrows(g, marks, marks', m', o.table.cells, now, due);
  }

  lemma TakenCovers(g: Geometry, m: map<Id, Record>, cells: seq<nat>, now: nat, id: Id, d: Due)
    requires Sound(g) && Covered(g, m, cells, now, d) && d.id != id
    ensures Covered(g, m - {id}, cells, now, d)
  {
    hide Sound, InCells;
  }

  lemma RecalledTaken(g: Geometry, marks: Marks, marks': Marks, m: map<Id, Record>, cells: seq<nat>, now: nat, id: Id)
    requires Sound(g) && Recalled(g, marks, m, cells, now) && marks'.last == marks.last - {id}
    ensures Recalled(g, marks', m - {id}, cells, now)
  {
    hide Sound, Covered;
    forall i | i in marks'.last ensures Covered(g, m - {id}, cells, now, RecoveryRuns.Clip(marks.last[i])) {
      TakenCovers(g, m, cells, now, id, RecoveryRuns.Clip(marks.last[i]));
    }
  }

  lemma RecalledReleased(g: Geometry, marks: Marks, m: map<Id, Record>, t: Table, now: nat)
    requires Sound(g) && Recalled(g, marks, m, t.cells, now) && Holds(g, t, now, m) && IsSpent(t, now)
    ensures Recalled(g, marks, map[], [], now)
  {
    hide Sound, Holds, IsSpent;
    forall id | id in marks.last ensures Covered(g, map[], [], now, RecoveryRuns.Clip(marks.last[id])) {
      ReleaseLosesNothing(g, t, now, m, RecoveryRuns.Clip(marks.last[id]));
    }
  }

  // ------------------------------------------------------- what is charged

  /** The debt last recorded for an identity, while it lasts. */
  function Recollection(marks: Marks, id: Id, now: nat): Option<Due> {
    if id in marks.last && marks.last[id].until > now then Some(marks.last[id]) else None
  }

  function DueUnits(d: Option<Due>): nat { if d.Some? then d.value.spent else 0 }

  function SharedUnits(c: Option<Charge>): nat { if c.Some? then c.value.spent else 0 }

  /** What the sketch says an identity owes, if there is one. */
  function Sketched(g: Geometry, t: Table, id: Id, now: nat): Option<Charge>
    requires Sound(g) && WF(g, t)
  {
    if t.records == [] then None else Shared(g, t, id, now)
  }

  /** The larger of what a key left owing and what the sketch says. */
  function UnitsOwed(g: Geometry, marks: Marks, t: Table, id: Id, now: nat): nat
    requires Sound(g) && WF(g, t)
  {
    Max(DueUnits(Recollection(marks, id, now)), SharedUnits(Sketched(g, t, id, now)))
  }

  /** While it lasts it is in the record, to the unit, or both cells say as much. */
  lemma RecollectionIsThere(g: Geometry, marks: Marks, t: Table, m: map<Id, Record>, id: Id, now: nat)
    requires Sound(g) && WF(g, t) && Recalled(g, marks, m, t.cells, now) && now < UNTIL_MAX
    ensures var due, shared := Recollection(marks, id, now), Sketched(g, t, id, now);
            due.Some? ==>
              || (id in m && m[id].spent == due.value.spent && m[id].until == Min(due.value.until, RECORD_UNTIL_MAX))
              || (shared.Some? && shared.value.spent >= due.value.spent
                    && shared.value.until >= Min(due.value.until, UNTIL_MAX))
  {
    assert g.cells >= 2;
    hide Sound, CellUntil, CellSpent;
  }

  lemma RecordIsRecollected(g: Geometry, marks: Marks, t: Table, m: map<Id, Record>, h: nat, now: nat)
    requires Sound(g) && WF(g, t) && Holds(g, t, now, m) && RecordsAre(marks, m)
    ensures var own, due := Own(g, t, h, now), Recollection(marks, IdOf(g, h), now);
            && (own.Some? <==> IdOf(g, h) in m)
            && (own.Some? ==>
                  && due.Some? && t.records[own.value] == m[IdOf(g, h)]
                  && m[IdOf(g, h)].spent == due.value.spent
                  && m[IdOf(g, h)].until == Min(due.value.until, RECORD_UNTIL_MAX) > now)
  {
    hide Sound, Holds, Own, IdOf;
    OwnIff(g, t, now, m, h);
  }

  lemma SharedIsLive(g: Geometry, t: Table, id: Id, now: nat)
    requires Sound(g) && WF(g, t)
    ensures var shared := Sketched(g, t, id, now); shared.Some? ==> shared.value.shared && shared.value.until > now
  {
    hide Sound, CellUntil, CellSpent;
  }

  /** What a key is charged: exactly what it left owing, if its cells have expired;
      otherwise the larger of that and what the sketch says. */
  lemma ChargeIs(g: Geometry, marks: Marks, t: Table, m: map<Id, Record>, h: nat, now: nat)
    requires Sound(g) && WF(g, t) && Holds(g, t, now, m) && Recalled(g, marks, m, t.cells, now)
    requires now < UNTIL_MAX
    ensures var due, shared := Recollection(marks, IdOf(g, h), now), Sketched(g, t, IdOf(g, h), now);
            var charge := PeekCharge(g, t, h, now);
            && (charge.None? <==> due.None? && shared.None?)
            && (charge.Some? ==>
                  && charge.value.shared == shared.Some? && charge.value.until > now
                  && charge.value.spent == UnitsOwed(g, marks, t, IdOf(g, h), now))
            && (shared.None? && due.Some? ==> charge.value.until == Min(due.value.until, RECORD_UNTIL_MAX))
            && (shared.Some? && due.Some? ==>
                  Min(due.value.until, UNTIL_MAX) <= charge.value.until <= Max(due.value.until, shared.value.until))
            && (shared.Some? ==> charge.value.until >= shared.value.until)
            && (shared.Some? && due.None? ==> charge == shared)
  {
    RecordIsRecollected(g, marks, t, m, h, now);
    RecollectionIsThere(g, marks, t, m, IdOf(g, h), now);
    SharedIsLive(g, t, IdOf(g, h), now);
    if t.records == [] { EmptyOwnsNothing(g, t, now, h); }
    hide Sound, Holds, Own, IdOf, Shared, Recalled, Recollection;
  }
}

/** Who was charged from the sketch (src/store.rs:66-75, 978-996, 1369-1377): as
    long as no mark is lost, the bits of slots and records say exactly that, no
    debt so charged is in the sketch, and all that the sketch says was owed by
    keys that were not so charged. */
module ShardMarks {
  import opened Units
  import opened Probe
  import opened RecoveryTable
  import opened RecoveryFacts
  import opened RecoveryRecord
  import opened RecoveryCover
  import RecoveryRuns
  import opened RecoveryOrigins
  import opened Shard
  import opened ShardIndex

  /** A slot is seeded exactly if its key was charged from the sketch. */
  ghost predicate SlotsSay<S(!new)>(marks: Marks, xs: set<Slot<S>>) {
    forall x :: x in xs ==> (x.seeded <==> x.key in marks.keys)
  }

  /** A live record is inherited exactly if it was written while so charged. */
  ghost predicate RecordsSay(marks: Marks, m: map<Id, Record>) {
    forall id :: id in m ==> (m[id].inherited <==> id in marks.records)
  }

  ghost predicate SketchSays(g: Geometry, marks: Marks, m: map<Id, Record>, cells: seq<nat>) {
    !marks.leaked && RecordsOwed(marks.debts, m) && CellsOwed(g, marks.debts, cells)
  }

  ghost predicate Honest<S(!new)>(g: Geometry, marks: Marks, xs: set<Slot<S>>, m: map<Id, Record>, cells: seq<nat>) {
    marks.lost || (SlotsSay(marks, xs) && RecordsSay(marks, m) && SketchSays(g, marks, m, cells))
  }

  // ------------------------------------------------------------- small moves

  lemma HonestLasts<S(!new)>(g: Geometry, marks: Marks, xs: set<Slot<S>>, m: map<Id, Record>, cells: seq<nat>, now: nat)
    requires Honest(g, marks, xs, m, cells)
    ensures Honest(g, marks, xs, Unexpired(m, now), cells)
  {
    hide RecordsOwed, CellsOwed;
    if !marks.lost { FewerOwed(marks.debts, m, Unexpired(m, now)); }
  }

  lemma HonestReplaced<S(!new)>(g: Geometry, marks: Marks, xs: set<Slot<S>>, m: map<Id, Record>, cells: seq<nat>,
                                x: Slot<S>, y: Slot<S>)
    requires Honest(g, marks, xs, m, cells) && x in xs && y.key == x.key && y.seeded == x.seeded
    ensures Honest(g, marks, xs - {x} + {y}, m, cells)
  {
    hide RecordsSay, SketchSays;
  }

  lemma HonestFewer<S(!new)>(g: Geometry, marks: Marks, xs: set<Slot<S>>, m: map<Id, Record>, cells: seq<nat>,
                             x: Slot<S>)
    requires Honest(g, marks, xs, m, cells)
    ensures Honest(g, marks, xs - {x}, m, cells)
  {
    hide RecordsSay, SketchSays;
  }

  lemma HonestMore<S(!new)>(g: Geometry, marks: Marks, xs: set<Slot<S>>, m: map<Id, Record>, cells: seq<nat>,
                            x: Slot<S>)
    requires Honest(g, marks, xs, m, cells) && (marks.lost || (x.key in marks.keys <==> x.seeded))
    ensures Honest(g, marks, xs + {x}, m, cells)
  {
    hide RecordsSay, SketchSays;
  }

  // --------------------------------------------------------------- recording

  /** The records after one more, each with the mark it should have. */
  lemma WantedSays(marks: Marks, m: map<Id, Record>, id: Id, debt: Record, charged: bool)
    requires RecordsSay(marks, m) && (charged <==> debt.inherited || (id in m && id in marks.records))
    ensures RecordsSay(marks.(records := if charged then marks.records + {id} else marks.records - {id}),
                       Wanted(m, id, debt))
  {
  }

  lemma RecordedSays(g: Geometry, marks: Marks, m: map<Id, Record>, t: Table, h: nat, key: nat, due: Due, until: nat,
                     now: nat)
    requires Sound(g) && WF(g, t) && Holds(g, t, now, m) && now < until && now < RECORD_UNTIL_MAX
    requires RecordsSay(marks, m) && !marks.leaked && (due.inherited <==> key in marks.keys)
    requires RecordDebt(g, t, h, due.spent, until, now, false, due.inherited).result.Some?
    ensures var o := RecordDebt(g, t, h, due.spent, until, now, false, due.inherited);
            var marks' := MarksRecorded(g, marks, t, h, key, due, o, now, false);
            RecordsSay(marks', After(g, t, m, h, due.spent, until, now, false, due.inherited)) && !marks'.leaked
  {
    hide Holds, RecordDebt, Sound, CellsFollow, Own, Allocate;
    var o := RecordDebt(g, t, h, due.spent, until, now, false, due.inherited);
    RecordKeeps(g, t, h, due.spent, until, now, false, due.inherited, m);
    OwnIff(g, t, now, m, h);
    var debt := DebtOf(g, h, due.spent, until, due.inherited);
    WantedSays(marks, m, IdOf(g, h), debt, key in marks.keys || OwnMarked(g, marks, t, h, now));
  }

  lemma RecordedOwes(g: Geometry, marks: Marks, m: map<Id, Record>, t: Table, h: nat, due: Due, until: nat, now: nat)
    requires Sound(g) && WF(g, t) && Holds(g, t, now, m) && SpentFits(m) && now < until && now < RECORD_UNTIL_MAX
    requires SketchSays(g, marks, m, t.cells) && due.spent <= U32_MAX
    requires due == Due(IdOf(g, h), due.spent, until, due.inherited)
    ensures var o := RecordDebt(g, t, h, due.spent, until, now, false, due.inherited);
            var debts := marks.debts + {due};
            && RecordsOwed(debts, After(g, t, m, h, due.spent, until, now, false, due.inherited))
            && CellsOwed(g, debts, o.table.cells)
  {
    hide Holds, RecordDebt, Sound, CellsOwed, RecordsOwed, After;
    var op := RecoveryRuns.Owe(h, due.spent, until, due.inherited);
    OwedGrows(g, marks.debts, marks.debts + {due}, m, t.cells);
    RecordOwedAfter(g, marks.debts + {due}, t, m, op, now, false);
  }

  lemma HonestRecorded<S(!new)>(g: Geometry, marks: Marks, xs: set<Slot<S>>, m: map<Id, Record>, t: Table, x: Slot<S>,
                                spent: nat, until: nat, now: nat)
    requires Sound(g) && WF(g, t) && Holds(g, t, now, m) && SpentFits(m) && now < until && now < RECORD_UNTIL_MAX
    requires Honest(g, marks, xs, m, t.cells) && x in xs && spent <= U32_MAX
    ensures var o := RecordDebt(g, t, x.hash, spent, until, now, false, x.seeded);
            var due := Due(IdOf(g, x.hash), spent, until, x.key in marks.keys);
            o.result.Some? ==> Honest(g, MarksRecorded(g, marks, t, x.hash, x.key, due, o, now, false), xs,
                                      After(g, t, m, x.hash, spent, until, now, false, x.seeded), o.table.cells)
  {
    hide Holds, RecordDebt, Sound, SpentFits, RecordsOwed, CellsOwed, RecordsSay, After, OwnMarked;
    var o := RecordDebt(g, t, x.hash, spent, until, now, false, x.seeded);
    if o.result.Some? && !marks.lost {
      var due := Due(IdOf(g, x.hash), spent, until, x.seeded);
      RecordedSays(g, marks, m, t, x.hash, x.key, due, until, now);
      RecordedOwes(g, marks, m, t, x.hash, due, until, now);
    }
  }

  /** A debt that is turned away leaves the cells as they were. */
  lemma HonestTurnedAway<S(!new)>(g: Geometry, marks: Marks, xs: set<Slot<S>>, m: map<Id, Record>, t: Table,
                                  x: Slot<S>, spent: nat, until: nat, now: nat)
    requires Sound(g) && WF(g, t) && Holds(g, t, now, m) && now < until && now < RECORD_UNTIL_MAX
    requires Honest(g, marks, xs, m, t.cells)
    ensures var o := RecordDebt(g, t, x.hash, spent, until, now, false, x.seeded);
            o.result.None? ==> Honest(g, marks, xs, m, o.table.cells)
  {
    hide Holds, RecordDebt, Sound, RecordsOwed, CellsOwed, RecordsSay, SlotsSay, Allocate, CellsFollow, HoldsAllBut;
    RecordKeeps(g, t, x.hash, spent, until, now, false, x.seeded, m);
    if !marks.lost { AllocateOwed(g, marks.debts, t); }
  }

  // ------------------------------------------------------------------ taking

  lemma TakenSays(marks: Marks, marks': Marks, m: map<Id, Record>, id: Id)
    requires RecordsSay(marks, m) && marks'.records == marks.records - {id}
    ensures RecordsSay(marks', m - {id})
    ensures id in m ==> (id in marks.records <==> m[id].inherited)
  {
  }

  /** `take` loses the mark exactly when the record's is not said. */
  lemma HonestTaken<S(!new)>(g: Geometry, marks: Marks, xs: set<Slot<S>>, m: map<Id, Record>, t: Table, h: nat,
                             key: nat, now: nat)
    requires Sound(g) && WF(g, t) && Holds(g, t, now, m) && Honest(g, marks, xs, m, t.cells) && !Stored(xs, key)
    ensures var charge := PeekCharge(g, t, h, now);
            var shared := charge.Some? && charge.value.shared;
            var marks' := MarksTaken(g, marks, t, h, key, shared, now);
            && Honest(g, marks', xs, m - {IdOf(g, h)}, t.cells)
            && (marks'.lost || (key in marks'.keys <==> shared))
  {
    hide Holds, Own, RecordsOwed, CellsOwed, RecordsSay, CellUntil, CellSpent, Sound;
    OwnIff(g, t, now, m, h);
    if !marks.lost {
      FewerOwed(marks.debts, m, m - {IdOf(g, h)});
      var charge := PeekCharge(g, t, h, now);
      TakenSays(marks, MarksTaken(g, marks, t, h, key, charge.Some? && charge.value.shared, now), m, IdOf(g, h));
    }
  }
}

/** Where the sketch comes from (src/store.rs:662-759, 807-815): whatever a cell
    says was owed in debts recorded as not inherited. That such a debt was not
    itself charged from the sketch is up to whoever records it: see `ShardSpread`. */
module RecoveryOrigins {
  import opened Units
  import opened Probe
  import opened RecoveryTable
  import opened RecoveryFacts
  import opened RecoveryRecord
  import opened RecoveryCover
  import opened RecoveryRuns

  /** Some debt of the identity, not inherited, had a deadline at least `until`. */
  ghost predicate UntilOwed(history: set<Due>, id: Id, until: nat) {
    exists d :: d in history && !d.inherited && d.id == id && until <= d.until
  }

  ghost predicate SpentOwed(history: set<Due>, id: Id, spent: nat) {
    exists d :: d in history && !d.inherited && d.id == id && spent <= d.spent
  }

  ghost predicate RecordOwed(history: set<Due>, id: Id, r: Record) {
    r.inherited || (UntilOwed(history, id, r.until) && SpentOwed(history, id, r.spent))
  }

  ghost predicate RecordsOwed(history: set<Due>, m: map<Id, Record>) {
    forall id :: id in m ==> RecordOwed(history, id, m[id])
  }

  /** Cell `c` is one of the identity's two. */
  predicate CellOf(g: Geometry, id: Id, c: nat) {
    c == g.cellA(id.tag, id.low) || c == g.cellB(id.tag, id.low)
  }

  /** Some debt of an identity with cell `c`, not inherited, had such a deadline. */
  ghost predicate CellUntilOwed(g: Geometry, history: set<Due>, c: nat, until: nat) {
    exists d :: d in history && !d.inherited && CellOf(g, d.id, c) && until <= d.until
  }

  /** The same of the count, or of one that saturates a cell's 24 bits. */
  ghost predicate CellSpentOwed(g: Geometry, history: set<Due>, c: nat, spent: nat) {
    exists d :: d in history && !d.inherited && CellOf(g, d.id, c) && (spent <= d.spent || d.spent >= SPENT_MAX)
  }

  ghost predicate CellOwed(g: Geometry, history: set<Due>, c: nat, cell: nat) {
    CellUntil(cell) == 0 ||
    (CellUntilOwed(g, history, c, CellUntil(cell)) && CellSpentOwed(g, history, c, CellSpent(cell)))
  }

  ghost predicate CellsOwed(g: Geometry, history: set<Due>, cells: seq<nat>) {
    forall c: nat :: c < |cells| ==> CellOwed(g, history, c, cells[c])
  }

  // ----------------------------------------------------------------- growth

  lemma OwedGrows(g: Geometry, history: set<Due>, more: set<Due>, m: map<Id, Record>, cells: seq<nat>)
    requires history <= more && RecordsOwed(history, m) && CellsOwed(g, history, cells)
    ensures RecordsOwed(more, m) && CellsOwed(g, more, cells)
  {
    forall id | id in m ensures RecordOwed(more, id, m[id]) {
      assert RecordOwed(history, id, m[id]);
    }
    forall c: nat | c < |cells| ensures CellOwed(g, more, c, cells[c]) {
      assert CellOwed(g, history, c, cells[c]);
    }
  }

  lemma MaxOwed(history: set<Due>, id: Id, r: Record, s: Record)
    requires RecordOwed(history, id, r) && RecordOwed(history, id, s)
    ensures RecordOwed(history, id, Merged(r, s))
  {
    hide UntilOwed, SpentOwed;
  }

  lemma WantedOwed(history: set<Due>, m: map<Id, Record>, id: Id, debt: Record)
    requires RecordsOwed(history, m) && RecordOwed(history, id, debt)
    ensures RecordsOwed(history, Wanted(m, id, debt))
  {
    hide RecordOwed, Merged;
    if id in m { MaxOwed(history, id, m[id], debt); }
  }

  lemma DebtOwed(g: Geometry, history: set<Due>, op: Op)
    requires op.Owe? && Of(g, op) in history
    ensures RecordOwed(history, IdOf(g, op.h), DebtOf(g, op.h, op.spent, op.until, op.inherited))
  {
    assert !op.inherited ==> UntilOwed(history, IdOf(g, op.h), Min(op.until, RECORD_UNTIL_MAX));
    assert !op.inherited ==> SpentOwed(history, IdOf(g, op.h), op.spent);
  }

  // ----------------------------------------------------------------- sketch

  lemma RecordToCell(g: Geometry, history: set<Due>, id: Id, r: Record, c: nat)
    requires RecordOwed(history, id, r) && !r.inherited && CellOf(g, id, c)
    ensures CellUntilOwed(g, history, c, r.until)
    ensures exists d :: d in history && !d.inherited && CellOf(g, d.id, c) && r.spent <= d.spent
  {
    var d :| d in history && !d.inherited && d.id == id && r.until <= d.until;
    var e :| e in history && !e.inherited && e.id == id && r.spent <= e.spent;
    assert CellOf(g, d.id, c) && CellOf(g, e.id, c);
  }

  /** Less is owed if more is. */
  lemma CellUntilDown(g: Geometry, history: set<Due>, c: nat, until: nat, lower: nat)
    requires CellUntilOwed(g, history, c, until) && lower <= until
    ensures CellUntilOwed(g, history, c, lower)
  {
    hide CellOf;
  }

  /** What a cell reads back of a count is owed if the count is. */
  lemma PackedSpentOwed(g: Geometry, history: set<Due>, c: nat, until: nat, spent: nat)
    requires spent <= U32_MAX
    requires exists d ::
               d in history && !d.inherited && CellOf(g, d.id, c) && (spent <= d.spent || d.spent >= SPENT_MAX)
    ensures CellSpentOwed(g, history, c, CellSpent(PackCell(until, spent)))
  {
    hide CellOf;
    CellRoundTrip(until, spent);
    var d :| d in history && !d.inherited && CellOf(g, d.id, c) && (spent <= d.spent || d.spent >= SPENT_MAX);
    assert CellSpent(PackCell(until, spent)) <= d.spent || d.spent >= SPENT_MAX;
  }

  lemma SpentFitsCell(cell: nat)
    ensures CellSpent(cell) <= U32_MAX
  {
  }

  lemma MergeOwed(g: Geometry, history: set<Due>, id: Id, r: Record, c: nat, cell: nat, now: nat)
    requires RecordOwed(history, id, r) && !r.inherited && CellOf(g, id, c) && r.spent <= U32_MAX
    requires CellOwed(g, history, c, cell)
    ensures CellOwed(g, history, c, MergeCell(cell, r.until, r.spent, now))
  {
    hide CellOf, CellUntil, CellSpent, PackCell;
    RecordToCell(g, history, id, r, c);
    var live := CellUntil(cell) > now;
    var until := if live then Max(CellUntil(cell), r.until) else r.until;
    var spent := if live then Max(CellSpent(cell), r.spent) else r.spent;
    SpentFitsCell(cell);
    CellRoundTrip(until, spent);
    CellUntilDown(g, history, c, until, CellUntil(PackCell(until, spent)));
    PackedSpentOwed(g, history, c, until, spent);
  }

  lemma OverflowSize(g: Geometry, t: Table, r: Record, b: nat, now: nat)
    requires Sound(g) && Allocated(g, t)
    ensures |Overflow(g, t, r, b, now).cells| == g.cells
  {
    hide MergeCell;
  }

  lemma OverflowOwed(g: Geometry, history: set<Due>, t: Table, r: Record, b: nat, now: nat)
    requires Sound(g) && Allocated(g, t) && CellsOwed(g, history, t.cells)
    requires RecordOwed(history, IdAt(g, b, r.tag), r) && !r.inherited && r.spent <= U32_MAX
    ensures CellsOwed(g, history, Overflow(g, t, r, b, now).cells)
  {
    hide Overflow, MergeCell, Sound, RecordOwed, CellOwed;
    var u := Overflow(g, t, r, b, now);
    var id := IdAt(g, b, r.tag);
    OverflowSize(g, t, r, b, now);
    forall c: nat | c < |u.cells| ensures CellOwed(g, history, c, u.cells[c]) {
      CellAt(g, t, r, b, now, c);
      if CellOf(g, id, c) { MergeOwed(g, history, id, r, c, t.cells[c], now); }
    }
  }

  // -------------------------------------------------------------- recording

  lemma KeepsOwed(g: Geometry, history: set<Due>, t: Table, o: Outcome, now: nat, forget: bool, wanted: map<Id, Record>)
    requires Sound(g) && Allocated(g, t) && Keeps(g, t, o, now, forget, wanted) && SpentFits(wanted)
    requires RecordsOwed(history, wanted) && CellsOwed(g, history, t.cells)
    ensures RecordsOwed(history, Kept(g, wanted, o.spilled)) && CellsOwed(g, history, o.table.cells)
  {
    hide Holds, Overflow, Sound, CellsOwed, RecordOwed;
    if o.spilled.Some? && !forget {
      var r, b := o.spilled.value.record, o.spilled.value.bucket;
      OverflowOwed(g, history, t, r, b, now);
    }
  }

  lemma AllocateOwed(g: Geometry, history: set<Due>, t: Table)
    requires WF(g, t) && CellsOwed(g, history, t.cells)
    ensures CellsOwed(g, history, Allocate(g, t).cells)
  {
    hide CellUntilOwed, CellSpentOwed;
  }

  lemma RecordOwedAfter(g: Geometry, history: set<Due>, t0: Table, m: map<Id, Record>, op: Op, now: nat, forget: bool)
    requires Sound(g) && WF(g, t0) && Sane(g, t0, now, m) && op.Owe?
    requires now < op.until && now < RECORD_UNTIL_MAX && op.spent <= U32_MAX
    requires RecordsOwed(history, m) && CellsOwed(g, history, t0.cells)
    requires var o := RecordDebt(g, t0, op.h, op.spent, op.until, now, forget, op.inherited);
             o.result.Some? ==> Of(g, op) in history
    ensures RecordsOwed(history, RecoveryCover.After(g, t0, m, op.h, op.spent, op.until, now, forget, op.inherited))
    ensures CellsOwed(g, history, RecordDebt(g, t0, op.h, op.spent, op.until, now, forget, op.inherited).table.cells)
  {
    hide Holds, RecordDebt, Sound, CellsOwed, RecordsOwed, Allocate, HoldsAllBut, CellsFollow, RecordOwed;
    RecordKeeps(g, t0, op.h, op.spent, op.until, now, forget, op.inherited, m);
    AllocateHolds(g, t0, now, m);
    AllocateOwed(g, history, t0);
    TagsNotZero(g, op.h);
    var o := RecordDebt(g, t0, op.h, op.spent, op.until, now, forget, op.inherited);
    var debt := DebtOf(g, op.h, op.spent, op.until, op.inherited);
    if o.result.Some? {
      DebtOwed(g, history, op);
      WantedOwed(history, m, IdOf(g, op.h), debt);
      KeepsOwed(g, history, Allocate(g, t0), o, now, forget, Wanted(m, IdOf(g, op.h), debt));
    }
  }

  // ------------------------------------------------------------- whole runs

  ghost predicate Origins(g: Geometry, s: State) {
    exists m :: Sane(g, s.table, s.now, m) && RecordsOwed(s.history, m) && CellsOwed(g, s.history, s.table.cells)
  }

  lemma FewerOwed(history: set<Due>, m: map<Id, Record>, m0: map<Id, Record>)
    requires RecordsOwed(history, m) && (forall id :: id in m0 ==> id in m && m0[id] == m[id])
    ensures RecordsOwed(history, m0)
  {
    hide RecordOwed;
  }

  lemma ForgetKeepsCells(g: Geometry, t: Table, h: nat, now: nat)
    requires Sound(g) && WF(g, t)
    ensures Forget(g, t, h, now).cells == t.cells
  {
    hide Own;
  }

  lemma StepKeepsOrigins(g: Geometry, s: State, e: Event, forget: bool)
    requires Sound(g) && WF(g, s.table) && Origins(g, s) && Admissible(s.now, e)
    ensures Origins(g, Step(g, s, e, forget))
  {
    hide Holds, RecordDebt, Forget, Take, IsSpent, Sound, Sane, RecordsOwed, RecordOwed, CellOwed;
    var m :| Sane(g, s.table, s.now, m) && RecordsOwed(s.history, m) && CellsOwed(g, s.history, s.table.cells);
    var s', m', m0 := Step(g, s, e, forget), HeldAfter(g, s, e, forget, m), Unexpired(m, e.at);
    StepHolds(g, s, e, forget, m);
    SaneLater(g, s.table, s.now, e.at, m);
    FewerOwed(s.history, m, m0);
    if e.op.Owe? {
      OwedGrows(g, s.history, s'.history, m0, s.table.cells);
      RecordOwedAfter(g, s'.history, s.table, m0, e.op, e.at, forget);
    } else if e.op.Sweep? {
      assert CellsOwed(g, s'.history, s'.table.cells);
    } else {
      FewerOwed(s.history, m0, m');
      TakeForgets(g, s.table, e.op.h, e.at);
      ForgetKeepsCells(g, s.table, e.op.h, e.at);
    }
  }

  lemma {:induction false} RunKeepsOrigins(g: Geometry, s: State, events: seq<Event>, forget: bool)
    requires Sound(g) && WF(g, s.table) && Origins(g, s) && Timely(s.now, events)
    ensures Origins(g, RecoveryRuns.After(g, s, events, forget))
    decreases |events|
  {
    hide Origins, Step, Sound;
    if events != [] {
      StepKeepsOrigins(g, s, events[0], forget);
      RunKeepsOrigins(g, Step(g, s, events[0], forget), events[1..], forget);
    }
  }

  lemma StartOrigins(g: Geometry)
    requires Sound(g)
    ensures Origins(g, START)
  {
    HoldsNothing(g, NEW, 0);
    assert Sane(g, NEW, 0, map[]) && RecordsOwed({}, map[]) && CellsOwed(g, {}, []);
  }

  /** In every run, each live cell's deadline and count were owed by keys with
      that cell, in debts recorded as not inherited. */
  lemma SketchIsOwed(g: Geometry, events: seq<Event>, forget: bool)
    requires Sound(g) && Timely(0, events)
    ensures var s := RecoveryRuns.After(g, START, events, forget);
            forall c: nat :: c < |s.table.cells| && CellUntil(s.table.cells[c]) > 0 ==>
              && CellUntilOwed(g, s.history, c, CellUntil(s.table.cells[c]))
              && CellSpentOwed(g, s.history, c, CellSpent(s.table.cells[c]))
  {
    hide Holds, RecoveryRuns.After, Sound, CellUntilOwed, CellSpentOwed, CellUntil, CellSpent;
    StartOrigins(g);
    RunKeepsOrigins(g, START, events, forget);
    var s := RecoveryRuns.After(g, START, events, forget);
    assert CellsOwed(g, s.history, s.table.cells);
    assert forall c: nat :: c < |s.table.cells| ==> CellOwed(g, s.history, c, s.table.cells[c]);
  }

  lemma CellSpentDown(g: Geometry, history: set<Due>, c: nat, spent: nat, lower: nat)
    requires CellSpentOwed(g, history, c, spent) && lower <= spent
    ensures CellSpentOwed(g, history, c, lower)
  {
    hide CellOf;
  }

  /** So what the sketch charges an identity is no more than such debts: through
      each of its two cells, some key owed that long and some key owed that much,
      or more than a cell can count. */
  ghost predicate ChargeOwed(g: Geometry, history: set<Due>, id: Id, c: Charge) {
    && CellUntilOwed(g, history, g.cellA(id.tag, id.low), c.until)
    && CellUntilOwed(g, history, g.cellB(id.tag, id.low), c.until)
    && CellSpentOwed(g, history, g.cellA(id.tag, id.low), c.spent)
    && CellSpentOwed(g, history, g.cellB(id.tag, id.low), c.spent)
  }

  lemma CellsOweCharge(g: Geometry, history: set<Due>, t: Table, id: Id, later: nat)
    requires Sound(g) && Allocated(g, t) && CellsOwed(g, history, t.cells) && Shared(g, t, id, later).Some?
    ensures ChargeOwed(g, history, id, Shared(g, t, id, later).value)
  {
    hide CellUntilOwed, CellSpentOwed, CellUntil, CellSpent;
    var a, b := g.cellA(id.tag, id.low), g.cellB(id.tag, id.low);
    var c := Shared(g, t, id, later).value;
    assert CellOwed(g, history, a, t.cells[a]) && CellOwed(g, history, b, t.cells[b]);
    CellUntilDown(g, history, a, CellUntil(t.cells[a]), c.until);
    CellUntilDown(g, history, b, CellUntil(t.cells[b]), c.until);
    CellSpentDown(g, history, a, CellSpent(t.cells[a]), c.spent);
    CellSpentDown(g, history, b, CellSpent(t.cells[b]), c.spent);
  }

  lemma SharedIsOwed(g: Geometry, events: seq<Event>, forget: bool, id: Id, later: nat)
    requires Sound(g) && Timely(0, events)
    requires var s := RecoveryRuns.After(g, START, events, forget);
             Allocated(g, s.table) && Shared(g, s.table, id, later).Some?
    ensures var s := RecoveryRuns.After(g, START, events, forget);
            ChargeOwed(g, s.history, id, Shared(g, s.table, id, later).value)
  {
    hide RecoveryRuns.After, CellUntilOwed, CellSpentOwed, CellUntil, CellSpent;
    SketchIsOwed(g, events, forget);
    CellsOweCharge(g, RecoveryRuns.After(g, START, events, forget).history,
      RecoveryRuns.After(g, START, events, forget).table, id, later);
  }
}

/** Whole lives of a recovery table (src/store.rs:631-834): any sequence of
    records, takes, forgets and releases, at nondecreasing instants. */
module RecoveryRuns {
  import opened Units
  import opened Probe
  import opened RecoveryTable
  import opened RecoveryFacts
  import opened RecoveryCover

  datatype Op =
    | Owe(h: nat, spent: nat, until: nat, inherited: bool)  // `record`
    | Collect(h: nat)                                       // `take`
    | Pardon(h: nat)                                        // `forget`
    | Sweep                                                 // `retain_recent`

  datatype Event = Event(at: nat, op: Op)

  /** The table and two ghosts of what was asked of it: `ledger`, the debts
      recorded for an identity since it was last taken or forgotten, and
      `history`, every debt ever recorded. */
  datatype State = State(table: Table, now: nat, ledger: set<Due>, history: set<Due>)

  const START := State(NEW, 0, {}, {})

  function Of(g: Geometry, op: Op): Due
    requires op.Owe?
  {
    Due(IdOf(g, op.h), op.spent, op.until, op.inherited)
  }

  function Settled(ledger: set<Due>, id: Id): set<Due> { set d | d in ledger && d.id != id }

  function Step(g: Geometry, s: State, e: Event, forget: bool): (s': State)
    requires Sound(g) && WF(g, s.table)
    ensures WF(g, s'.table) && s'.now == e.at
  {
    match e.op
    case Owe(h, spent, until, inherited) =>
      var o := RecordDebt(g, s.table, h, spent, until, e.at, forget, inherited);
      var added := if o.result.Some? then {Of(g, e.op)} else {};
      State(o.table, e.at, s.ledger + added, s.history + added)
    case Collect(h) =>
      TakeForgets(g, s.table, h, e.at);
      State(Take(g, s.table, h, e.at).1, e.at, Settled(s.ledger, IdOf(g, h)), s.history)
    case Pardon(h) =>
      TakeForgets(g, s.table, h, e.at);
      State(Forget(g, s.table, h, e.at), e.at, Settled(s.ledger, IdOf(g, h)), s.history)
    case Sweep =>
      s.(table := Release(s.table, e.at), now := e.at)
  }

  /** Debts are recorded while they are live, and instants never go back. */
  predicate Admissible(now: nat, e: Event) {
    && now <= e.at < UNTIL_MAX
    && (e.op.Owe? ==> e.at < e.op.until && e.op.spent <= U32_MAX)
  }

  predicate Timely(now: nat, events: seq<Event>)
    decreases |events|
  {
    events == [] || (Admissible(now, events[0]) && Timely(events[0].at, events[1..]))
  }

  function After(g: Geometry, s: State, events: seq<Event>, forget: bool): (s': State)
    requires Sound(g) && WF(g, s.table)
    ensures WF(g, s'.table)
    decreases |events|
  {
    if events == [] then s else After(g, Step(g, s, events[0], forget), events[1..], forget)
  }

  // ---------------------------------------------------------- what it holds

  /** The map the table holds after a step, given the one it held before. */
  ghost function HeldAfter(g: Geometry, s: State, e: Event, forget: bool, m: map<Id, Record>): map<Id, Record>
    requires Sound(g) && WF(g, s.table)
  {
    var m0 := Unexpired(m, e.at);
    match e.op
    case Owe(h, spent, until, inherited) =>
      RecoveryCover.After(g, s.table, m0, h, spent, until, e.at, forget, inherited)
    case Collect(h) => m0 - {IdOf(g, h)}
    case Pardon(h) => m0 - {IdOf(g, h)}
    case Sweep => m0
  }

  ghost predicate Sane(g: Geometry, t: Table, now: nat, m: map<Id, Record>) {
    Holds(g, t, now, m) && SpentFits(m)
  }

  lemma UnexpiredFits(m: map<Id, Record>, now: nat)
    requires SpentFits(m)
    ensures SpentFits(Unexpired(m, now))
  {
  }

  lemma SaneLater(g: Geometry, t: Table, now: nat, later: nat, m: map<Id, Record>)
    requires Sane(g, t, now, m) && now <= later
    ensures Sane(g, t, later, Unexpired(m, later))
  {
    hide Holds, SpentFits;
    HoldsLater(g, t, now, later, m);
    UnexpiredFits(m, later);
  }

  lemma ReleaseHolds(g: Geometry, t: Table, now: nat, m: map<Id, Record>)
    requires Holds(g, t, now, m)
    ensures Holds(g, Release(t, now), now, m)
  {
    hide Holds, IsSpent;
    if IsSpent(t, now) {
      SpentHoldsNothing(g, t, now, m);
      HoldsNothing(g, NEW, now);
    }
  }

  /** Every step leaves at most one live record for each identity, in one of its
      own two buckets: the table is still a map. */
  lemma StepHolds(g: Geometry, s: State, e: Event, forget: bool, m: map<Id, Record>)
    requires Sound(g) && WF(g, s.table) && Sane(g, s.table, s.now, m) && Admissible(s.now, e)
    ensures Sane(g, Step(g, s, e, forget).table, e.at, HeldAfter(g, s, e, forget, m))
  {
    hide Holds, RecordDebt, Forget, Take, Release, Sound;
    var m0 := Unexpired(m, e.at);
    SaneLater(g, s.table, s.now, e.at, m);
    match e.op
    case Owe(h, spent, until, inherited) => {
      RecordHolds(g, s.table, m0, h, spent, until, e.at, forget, inherited);
    }
    case Collect(h) => {
      TakeForgets(g, s.table, h, e.at);
      ForgetHolds(g, s.table, e.at, m0, h);
    }
    case Pardon(h) => ForgetHolds(g, s.table, e.at, m0, h);
    case Sweep => ReleaseHolds(g, s.table, e.at, m0);
  }

  // ---------------------------------------------------------- no debt is lost

  /** The debt with the deadline the sketch can express. */
  function Clip(d: Due): Due { d.(until := Min(d.until, UNTIL_MAX)) }

  ghost predicate LedgerCovered(g: Geometry, s: State, m: map<Id, Record>)
    requires Sound(g)
  {
    forall d :: d in s.ledger ==> d.spent <= U32_MAX && Covered(g, m, s.table.cells, s.now, Clip(d))
  }

  ghost predicate Inv(g: Geometry, s: State)
    requires Sound(g)
  {
    exists m :: Sane(g, s.table, s.now, m) && LedgerCovered(g, s, m)
  }

  /** One debt of the ledger across one step. */
  lemma StepCovers(g: Geometry, s: State, e: Event, m: map<Id, Record>, d: Due)
    requires Sound(g) && WF(g, s.table) && Sane(g, s.table, s.now, m) && Admissible(s.now, e)
    requires Covered(g, m, s.table.cells, s.now, Clip(d)) && d.spent <= U32_MAX
    requires e.op.Collect? || e.op.Pardon? ==> d.id != IdOf(g, e.op.h)
    ensures Covered(g, HeldAfter(g, s, e, false, m), Step(g, s, e, false).table.cells, e.at, Clip(d))
  {
    hide Holds, RecordDebt, Forget, Take, IsSpent, Sound, InCells;
    var m0 := Unexpired(m, e.at);
    SaneLater(g, s.table, s.now, e.at, m);
    CoverLasts(g, m, s.table.cells, s.now, e.at, Clip(d));
    match e.op
    case Owe(h, spent, until, inherited) => {
      RecordCovers(g, s.table, m0, h, spent, until, e.at, inherited, Clip(d));
    }
    case Collect(h) => {
      TakeForgets(g, s.table, h, e.at);
      ForgetHolds(g, s.table, e.at, m0, h);
    }
    case Pardon(h) => ForgetHolds(g, s.table, e.at, m0, h);
    case Sweep => {
      if IsSpent(s.table, e.at) { ReleaseLosesNothing(g, s.table, e.at, m0, Clip(d)); }
    }
  }

  /** The debt a step records. */
  lemma NewCovered(g: Geometry, s: State, e: Event, m: map<Id, Record>, d: Due)
    requires Sound(g) && WF(g, s.table) && Sane(g, s.table, s.now, m) && Admissible(s.now, e)
    requires e.op.Owe? && d == Of(g, e.op)
    requires RecordDebt(g, s.table, e.op.h, e.op.spent, e.op.until, e.at, false, e.op.inherited).result.Some?
    ensures Covered(g, HeldAfter(g, s, e, false, m), Step(g, s, e, false).table.cells, e.at, Clip(d))
  {
    hide Holds, RecordDebt, Sound, InCells;
    SaneLater(g, s.table, s.now, e.at, m);
    RecordCovers(g, s.table, Unexpired(m, e.at), e.op.h, e.op.spent, e.op.until, e.at, e.op.inherited, Clip(d));
  }

  lemma StepKeepsInv(g: Geometry, s: State, e: Event)
    requires Sound(g) && WF(g, s.table) && Inv(g, s) && Admissible(s.now, e)
    ensures Inv(g, Step(g, s, e, false))
  {
    hide Holds, RecordDebt, Forget, Take, Release, Sound, Covered, Sane;
    var m :| Sane(g, s.table, s.now, m) && LedgerCovered(g, s, m);
    var s', m' := Step(g, s, e, false), HeldAfter(g, s, e, false, m);
    StepHolds(g, s, e, false, m);
    forall d | d in s'.ledger
      ensures d.spent <= U32_MAX && Covered(g, m', s'.table.cells, s'.now, Clip(d))
    {
      if d in s.ledger {
        StepCovers(g, s, e, m, d);
      } else {
        NewCovered(g, s, e, m, d);
      }
    }
    assert LedgerCovered(g, s', m');
  }

  lemma {:induction false} RunKeepsInv(g: Geometry, s: State, events: seq<Event>)
    requires Sound(g) && WF(g, s.table) && Inv(g, s) && Timely(s.now, events)
    ensures Inv(g, After(g, s, events, false))
    decreases |events|
  {
    hide Inv, Step, Sound;
    if events != [] {
      StepKeepsInv(g, s, events[0]);
      RunKeepsInv(g, Step(g, s, events[0], false), events[1..]);
    }
  }

  lemma StartInv(g: Geometry)
    requires Sound(g)
    ensures Inv(g, START)
  {
    HoldsNothing(g, NEW, 0);
    assert Sane(g, NEW, 0, map[]) && LedgerCovered(g, START, map[]);
  }

  lemma InvPeek(g: Geometry, s: State, d: Due, h: nat, later: nat)
    requires Sound(g) && WF(g, s.table) && Inv(g, s) && later >= s.now
    requires d in s.ledger && d.id == IdOf(g, h) && Clip(d).until > later
    ensures var c := PeekCharge(g, s.table, h, later);
            c.Some? && c.value.spent >= d.spent && c.value.until >= Clip(d).until
  {
    hide Holds, PeekCharge, Sound, InCells;
    var m :| Sane(g, s.table, s.now, m) && LedgerCovered(g, s, m);
    SaneLater(g, s.table, s.now, later, m);
    CoverLasts(g, m, s.table.cells, s.now, later, Clip(d));
    PeekCovers(g, s.table, later, Unexpired(m, later), h, Clip(d));
  }

  /** The recovery table never loses a debt: whatever else was recorded, walked,
      backed off, taken, forgotten or released, a debt recorded for a key since
      it was last taken is charged to the key, in units and in deadline, for as
      long as it is live. A deadline past the 40 bits of a sketch cell counts as
      the last one a cell holds. */
  lemma NoDebtIsLost(g: Geometry, events: seq<Event>, d: Due, h: nat, later: nat)
    requires Sound(g) && Timely(0, events)
    requires var s := After(g, START, events, false);
             d in s.ledger && d.id == IdOf(g, h) && s.now <= later < Clip(d).until
    ensures var c := PeekCharge(g, After(g, START, events, false).table, h, later);
            c.Some? && c.value.spent >= d.spent && c.value.until >= Clip(d).until
  {
    hide Inv, After, PeekCharge, Sound;
    StartInv(g);
    RunKeepsInv(g, START, events);
    InvPeek(g, After(g, START, events, false), d, h, later);
  }
}

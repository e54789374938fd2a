/** While nothing has spilled, the cuckoo table is a plain map from identities to
    the largest debt recorded, with expiry (src/store.rs:440-480, 574-583,
    662-803). */
module RecoveryPlain {
  import opened Units
  import opened Probe
  import opened RecoveryTable
  import opened RecoveryFacts
  import opened RecoveryRecord
  import opened RecoveryCover
  import opened RecoveryRuns

  /** The plain map: no buckets, no tags, no walks. */
  ghost function PlainStep(g: Geometry, m: map<Id, Record>, e: Event): map<Id, Record> {
    var m0 := Unexpired(m, e.at);
    match e.op
    case Owe(h, spent, until, inherited) => Wanted(m0, IdOf(g, h), DebtOf(g, h, spent, until, inherited))
    case Collect(h) => m0 - {IdOf(g, h)}
    case Pardon(h) => m0 - {IdOf(g, h)}
    case Sweep => m0
  }

  ghost function Plain(g: Geometry, m: map<Id, Record>, events: seq<Event>): map<Id, Record>
    decreases |events|
  {
    if events == [] then m else Plain(g, PlainStep(g, m, events[0]), events[1..])
  }

  /** Every debt of the run found a place in the exact table. */
  ghost predicate AllExact(g: Geometry, s: State, events: seq<Event>, forget: bool)
    requires Sound(g) && WF(g, s.table)
    decreases |events|
  {
    events == [] ||
    (var e := events[0];
     && (e.op.Owe? ==>
           RecordDebt(g, s.table, e.op.h, e.op.spent, e.op.until, e.at, forget, e.op.inherited).result == Some(Exact))
     && AllExact(g, Step(g, s, e, forget), events[1..], forget))
  }

  ghost predicate Blank(cells: seq<nat>) { forall c :: 0 <= c < |cells| ==> cells[c] == 0 }

  lemma StepIsPlain(g: Geometry, s: State, e: Event, forget: bool, m: map<Id, Record>)
    requires Sound(g) && WF(g, s.table) && Sane(g, s.table, s.now, m) && Admissible(s.now, e)
    requires Blank(s.table.cells)
    requires e.op.Owe? ==>
               RecordDebt(g, s.table, e.op.h, e.op.spent, e.op.until, e.at, forget, e.op.inherited).result ==
                 Some(Exact)
    ensures Sane(g, Step(g, s, e, forget).table, e.at, PlainStep(g, m, e))
    ensures Blank(Step(g, s, e, forget).table.cells)
  {
    hide Holds, RecordDebt, Forget, Take, IsSpent, Sound, Overflow, HoldsAllBut;
    StepHolds(g, s, e, forget, m);
    SaneLater(g, s.table, s.now, e.at, m);
    if e.op.Owe? {
      var m0 := Unexpired(m, e.at);
      AllocateHolds(g, s.table, e.at, m0);
      RecordKeeps(g, s.table, e.op.h, e.op.spent, e.op.until, e.at, forget, e.op.inherited, m0);
    } else if !e.op.Sweep? {
      TakeForgets(g, s.table, e.op.h, e.at);
      ForgetHolds(g, s.table, e.at, Unexpired(m, e.at), e.op.h);
    }
  }

  lemma {:induction false} RunIsPlain(g: Geometry, s: State, events: seq<Event>, forget: bool, m: map<Id, Record>)
    requires Sound(g) && WF(g, s.table) && Sane(g, s.table, s.now, m) && Timely(s.now, events)
    requires Blank(s.table.cells) && AllExact(g, s, events, forget)
    ensures var s' := RecoveryRuns.After(g, s, events, forget);
            Sane(g, s'.table, s'.now, Plain(g, m, events)) && Blank(s'.table.cells)
    decreases |events|
  {
    hide Sane, Step, Sound, PlainStep, Blank;
    if events != [] {
      StepIsPlain(g, s, events[0], forget, m);
      RunIsPlain(g, Step(g, s, events[0], forget), events[1..], forget, PlainStep(g, m, events[0]));
    }
  }

  /** The answer of the plain map. */
  ghost function PlainCharge(m: map<Id, Record>, id: Id): Option<Charge> {
    if id in m then Some(Charge(m[id].spent, m[id].until, false)) else None
  }

  lemma BlankPeek(g: Geometry, t: Table, now: nat, m: map<Id, Record>, h: nat)
    requires Sound(g) && WF(g, t) && Holds(g, t, now, m) && Blank(t.cells)
    ensures PeekCharge(g, t, h, now) == PlainCharge(m, IdOf(g, h))
  {
    hide Holds, Own;
    OwnIff(g, t, now, m, h);
    EmptyOwnsNothing(g, t, now, h);
  }

  lemma BlankStart()
    ensures Blank(START.table.cells)
  {
  }

  /** The refinement: in a run that spills nothing, the table holds exactly the
      plain map's live entries, each in one record of one of its two buckets, and
      answers every key as the plain map does. */
  lemma RefinesPlainMap(g: Geometry, events: seq<Event>, forget: bool, h: nat, later: nat)
    requires Sound(g) && Timely(0, events) && AllExact(g, START, events, forget)
    requires RecoveryRuns.After(g, START, events, forget).now <= later
    ensures var s := RecoveryRuns.After(g, START, events, forget);
            var m := Unexpired(Plain(g, map[], events), later);
            Holds(g, s.table, later, m) && PeekCharge(g, s.table, h, later) == PlainCharge(m, IdOf(g, h))
  {
    hide Holds, RecoveryRuns.After, Plain, AllExact, PeekCharge, Sound, Blank, Timely;
    assert START.table.cells == [] && Blank(START.table.cells) by { BlankStart(); }
    HoldsNothing(g, NEW, 0);
    RunIsPlain(g, START, events, forget, map[]);
    var s := RecoveryRuns.After(g, START, events, forget);
    SaneLater(g, s.table, s.now, later, Plain(g, map[], events));
    BlankPeek(g, s.table, later, Unexpired(Plain(g, map[], events), later), h);
  }

  /** No event of the run records a debt of this identity. */
  ghost predicate NeverOwed(g: Geometry, id: Id, events: seq<Event>) {
    forall e :: e in events ==> e.op.Owe? ==> IdOf(g, e.op.h) != id
  }

  lemma {:induction false} PlainOnlyHoldsOwed(g: Geometry, m: map<Id, Record>, events: seq<Event>, id: Id)
    requires NeverOwed(g, id, events) && id !in m
    ensures id !in Plain(g, m, events)
    decreases |events|
  {
    if events != [] {
      assert events[0] in events;
      assert forall e :: e in events[1..] ==> e in events;
      PlainOnlyHoldsOwed(g, PlainStep(g, m, events[0]), events[1..], id);
    }
  }

  /** A key that never owed reads back nothing. */
  lemma NeverOwedReadsNothing(g: Geometry, events: seq<Event>, forget: bool, h: nat, later: nat)
    requires Sound(g) && Timely(0, events) && AllExact(g, START, events, forget)
    requires RecoveryRuns.After(g, START, events, forget).now <= later
    requires NeverOwed(g, IdOf(g, h), events)
    ensures PeekCharge(g, RecoveryRuns.After(g, START, events, forget).table, h, later).None?
  {
    hide Holds, RecoveryRuns.After, Plain, AllExact, PeekCharge, Sound, NeverOwed, Timely;
    RefinesPlainMap(g, events, forget, h, later);
    PlainOnlyHoldsOwed(g, map[], events, IdOf(g, h));
  }

  // ------------------------------------------------------------ identities

  /** Taking one key's debt clears another's exactly when the table cannot tell
      the two apart: same tag, same pair of buckets. */
  lemma TakingClearsIff(g: Geometry, t: Table, now: nat, m: map<Id, Record>, taken: nat, h: nat)
    requires Sound(g) && WF(g, t) && Holds(g, t, now, m) && Own(g, t, h, now).Some?
    ensures Own(g, Forget(g, t, taken, now), h, now).None? <==> IdOf(g, taken) == IdOf(g, h)
  {
    hide Holds, Own, Sound;
    OwnIff(g, t, now, m, h);
    ForgetHolds(g, t, now, m, taken);
    OwnIff(g, Forget(g, t, taken, now), now, m - {IdOf(g, taken)}, h);
  }
}

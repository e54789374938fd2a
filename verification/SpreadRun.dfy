/** A debt charged from the sketch finds its way back into it (src/store.rs:66-75,
    775-797, 1369-1377): a run of checks of a shard with room for one key, in which
    a key that is never granted anything is evicted while charged from the sketch,
    comes back after its cells have expired, and is evicted again; the sketch then
    says more than any key ever owed that was not charged from it. */
module SpreadRun {
  import opened Units
  import opened Probe
  import opened RecoveryTable
  import opened KeyLaws
  import KeyLog
  import opened Shard
  import opened ShardSafety
  import opened ShardRuns
  import ShardAhead
  import opened LoneShard
  import opened SpreadTable
  import SpreadProbe

  // ------------------------------------------------------------- longer runs

  const KEYS: set<nat> := set k: nat | 0 < k < 100

  /** A run of such checks that ends with the one key `l`. */
  ghost predicate Reached(c: Config<KeyLog.Cell>, events: seq<Event>, states: seq<Sim<KeyLog.Cell>>, l: Lone)
    requires Sound(c.g)
  {
    && Run(c, KEYS, events, states) && |states| == |events| + 1
    && var s := states[|events|];
       && Is(s.shard, l) && s.now == l.at * NANOS_PER_MILLI && l.at < 9000 && WF(c.g, l.table)
       && forall x :: x in s.granted ==> x.key != VICTIM
  }

  lemma RunGoesOn(c: Config<KeyLog.Cell>, events: seq<Event>, states: seq<Sim<KeyLog.Cell>>, e: Event)
    requires Sound(c.g) && Run(c, KEYS, events, states) && WF(c.g, states[|events|].shard.table)
    requires Admissible(c, KEYS, states[|events|].now, e)
    ensures Run(c, KEYS, events + [e], states + [Step(c, states[|events|], e)])
  {
    hide Sound, Step, Admissible, WF;
    var events', states' := events + [e], states + [Step(c, states[|events|], e)];
    forall i: nat | i < |events'|
      ensures Admissible(c, KEYS, states'[i].now, events'[i]) && WF(c.g, states'[i].shard.table)
      ensures states'[i + 1] == Step(c, states'[i], events'[i])
    {
      if i < |events| { assert events'[i] == events[i]; }
    }
  }

  /** What one check needs to be a step of `Next`. */
  ghost predicate Ready(g: Geometry, l: Lone, key: nat, now: nat)
    requires Sound(g) && WF(g, l.table)
  {
    && 0 < key < 100 && key != l.key && l.at <= now && now + 1 < l.at + PERIOD && now + PERIOD < 9000
    && (l.seeded ==> HasExactRoom(g, l.table, l.key, now))
    && var charge := PeekCharge(g, Left(g, l, now).table, key, now);
       && (charge.Some? ==> charge.value.spent == LIMIT && charge.value.until > now)
       && (key == VICTIM ==> charge.Some?)
  }

  lemma AskIs(c: Config<KeyLog.Cell>, s: Sim<KeyLog.Cell>, key: nat, now: nat)
    requires c == SmallConfig(c.g) && Sound(c.g) && WF(c.g, s.shard.table)
    ensures var r := Check(c, s.shard, key, LIMIT, now);
            var s' := AskStep(c, s, key, LIMIT, now);
            && s'.shard == r.shard && s'.now == now
            && (s'.granted == s.granted || (r.decision == Allow && s'.granted == s.granted + [Grant(key, LIMIT, now)]))
  {
    hide Sound, Check, Position, Known, KeyLog.Acquire;
    assert c.ops.create(key, now).Some?;
  }

  lemma NextIsWF(g: Geometry, l: Lone, key: nat, now: nat)
    requires Sound(g) && WF(g, l.table)
    ensures WF(g, Next(g, l, key, now).table) && Next(g, l, key, now).at == now
  {
    hide Sound, RecordDebt, PeekCharge, Forget, MarksRecorded, MarksTaken;
    TakeForgets(g, Left(g, l, now).table, key, now);
  }

  lemma GoesOn(c: Config<KeyLog.Cell>, events: seq<Event>, states: seq<Sim<KeyLog.Cell>>, l: Lone, key: nat, now: nat)
    returns (events': seq<Event>, states': seq<Sim<KeyLog.Cell>>)
    requires c == SmallConfig(c.g) && Sound(c.g) && Reached(c, events, states, l) && Ready(c.g, l, key, now)
    ensures Reached(c, events', states', Next(c.g, l, key, now))
  {
    var s, ns := states[|events|], now * NANOS_PER_MILLI;
    var e := Ask(key, LIMIT, ns);
    CheckIsNext(c, s.shard, l, key, now);
    AskIs(c, s, key, ns);
    NextIsWF(c.g, l, key, now);
    assert Admissible(c, KEYS, s.now, e);
    RunGoesOn(c, events, states, e);
    hide Sound, Run, Check, AskStep, Next, WF, HasExactRoom, PeekCharge, SmallConfig;
    events', states' := events + [e], states + [Step(c, s, e)];
  }

  // --------------------------------------------------------------- the marks

  /** No debt lasted until 2500 ms unless it was charged from the sketch. */
  ghost predicate Early(marks: Marks) { forall d :: d in marks.debts ==> d.inherited || d.until < 2500 }

  lemma IdIs(g: Geometry, k: nat)
    requires Cast(g) && 0 < k < 100
    ensures IdOf(g, k) == Id(k, 0)
  {
    Two(g, g.homeOf(k), k);
  }

  /** The record of `id` is pushed out to the sketch. */
  predicate Pushed(g: Geometry, o: Outcome, id: Id) {
    o.spilled.Some? && id == IdAt(g, o.spilled.value.bucket, o.spilled.value.record.tag)
  }

  /** What one check does to the marks. */
  lemma MarksNext(g: Geometry, l: Lone, key: nat, now: nat, id: Id)
    requires Sound(g) && WF(g, l.table) && Early(l.marks) && (l.key in l.marks.keys || l.at + PERIOD < 2500)
    ensures var marks := Next(g, l, key, now).marks;
            var o := Left(g, l, now);
            && Early(marks)
            && (Next(g, l, key, now).seeded ==> key in marks.keys)
            && (OwnMarked(g, MarksLeft(g, l, now), o.table, key, now) ==> key in marks.keys)
            && (Pushed(g, o, id) && id in l.marks.records && id != IdOf(g, l.key) ==> marks.leaked)
  {
    hide Sound, RecordDebt, PeekCharge, Forget, Own, Unsaid, IdAt;
  }

  /** A marked record stays marked while neither its key nor its record moves. */
  lemma MarkStays(g: Geometry, l: Lone, now: nat, id: Id)
    requires Sound(g) && WF(g, l.table)
    requires !Pushed(g, Left(g, l, now), id)
    requires (id in l.marks.records && id != IdOf(g, l.key)) || (id == IdOf(g, l.key) && l.key in l.marks.keys)
    ensures id in MarksLeft(g, l, now).records
    ensures forall key: nat :: id != IdOf(g, key) ==> id in Next(g, l, key, now).marks.records
  {
    hide Sound, RecordDebt, PeekCharge, Forget, Own, Unsaid, IdAt;
  }

  // -------------------------------------------------------------- the stages

  ghost predicate Filling(g: Geometry, l: Lone, j: nat) {
    && j < 9 && l.key == FILL[j] && !l.seeded && l.at == 0 && Early(l.marks)
    && (if j == 0 then l.table == NEW else Filled(g, l.table, j))
  }

  ghost predicate Charging(g: Geometry, l: Lone, n: nat) {
    n < 4 && l.key == CHARGED[n] && l.seeded && l.at == 900 && Early(l.marks) && l.key in l.marks.keys
    && Inherited(g, l.table, n)
  }

  ghost predicate Refilling(g: Geometry, l: Lone, n: nat) {
    n < 5 && l.key == REFILL[n] && !l.seeded && l.at == 1400 && Early(l.marks) && Refilled(g, l.table, n)
    && Id(VICTIM, 0) in l.marks.records
  }

  ghost predicate VictimIsBack(g: Geometry, l: Lone) {
    l.key == VICTIM && !l.seeded && l.at == 1500 && Early(l.marks) && Full8(g, l.table, EMPTY) && VICTIM in l.marks.keys
  }

  ghost predicate PusherIsIn(g: Geometry, l: Lone) {
    l.key == PUSHER && l.seeded && l.at == 1500 && Early(l.marks) && Full8(g, l.table, Ten(VICTIM, 2500, false))
    && Id(VICTIM, 0) in l.marks.records && PUSHER in l.marks.keys
  }

  ghost predicate Leaked(g: Geometry, l: Lone) {
    l.marks.leaked && Early(l.marks) && Allocated(g, l.table) && |l.table.cells| == 8
    && l.table.cells[6] == LATE_CELL == l.table.cells[7]
  }

  lemma NextFills(g: Geometry, l: Lone, j: nat)
    requires Cast(g) && Filling(g, l, j) && j < 8
    ensures WF(g, l.table) && Ready(g, l, FILL[j + 1], 0) && Filling(g, Next(g, l, FILL[j + 1], 0), j + 1)
  {
    var t := if j == 0 then Allocate(g, NEW) else l.table;
    if j == 0 {
      AllocatesFirst(g, FILL[j], 1000, 0);
      FillsEmpty(g);
    }
    Fills(g, t, j);
    assert Left(g, l, 0) == RecordDebt(g, t, FILL[j], 10, 1000, 0, false, false);
    FillTakes(g, Left(g, l, 0).table, j + 1);
    Differ(j, j + 1);
    TakeIsPeek(g, Left(g, l, 0).table, FILL[j + 1], 0);
    MarksNext(g, l, FILL[j + 1], 0, Id(0, 0));
    hide RecordDebt, PeekCharge, Forget, MarksRecorded, MarksTaken, Early, Filled, Sound, Cast, HasExactRoom;
    assert FILL[j + 1] != VICTIM;
  }

  lemma NextOverfills(g: Geometry, l: Lone)
    requires Cast(g) && Filling(g, l, 8)
    ensures WF(g, l.table) && Ready(g, l, CHARGED[0], 900) && Charging(g, Next(g, l, CHARGED[0], 900), 0)
  {
    Overfills(g, l.table);
    assert FILL[8] == 28 && CHARGED[0] != 28 && CHARGED[0] != VICTIM && 0 < CHARGED[0] < 100;
    InheritedTakes(g, Left(g, l, 900).table, 0);
    TakeIsPeek(g, Left(g, l, 900).table, CHARGED[0], 900);
    MarksNext(g, l, CHARGED[0], 900, Id(0, 0));
    hide RecordDebt, PeekCharge, Forget, MarksRecorded, MarksTaken, Early, Inherited, Sound, Cast, HasExactRoom, FILL,
      CHARGED;
  }

  lemma NextCharges(g: Geometry, l: Lone, n: nat)
    requires Cast(g) && Charging(g, l, n) && n < 3
    ensures WF(g, l.table) && Ready(g, l, CHARGED[n + 1], 900) && Charging(g, Next(g, l, CHARGED[n + 1], 900), n + 1)
  {
    Displaces(g, l.table, n);
    InheritedHasRoom(g, l.table, n);
    InheritedTakes(g, Left(g, l, 900).table, n + 1);
    ChargedTags(n, n + 1);
    TakeIsPeek(g, Left(g, l, 900).table, CHARGED[n + 1], 900);
    MarksNext(g, l, CHARGED[n + 1], 900, Id(0, 0));
    hide RecordDebt, PeekCharge, Forget, MarksRecorded, MarksTaken, Early, Sound, Cast, HasExactRoom, CHARGED, OLD_CELL,
      Old, OldCells;
  }

  lemma NextStartsRefill(g: Geometry, l: Lone)
    requires Cast(g) && Charging(g, l, 3)
    ensures WF(g, l.table) && Ready(g, l, REFILL[0], 1400) && Refilling(g, Next(g, l, REFILL[0], 1400), 0)
  {
    assert CHARGED[3] == VICTIM && REFILL[0] == 2;
    FourthArrives(g, l.table);
    RefillTakes(g, Left(g, l, 1400).table, 0);
    TakeIsPeek(g, Left(g, l, 1400).table, 2, 1400);
    IdIs(g, VICTIM);
    IdIs(g, 2);
    MarksNext(g, l, 2, 1400, Id(0, 0));
    MarkStays(g, l, 1400, Id(VICTIM, 0));
    hide RecordDebt, PeekCharge, Forget, MarksRecorded, MarksTaken, Early, Sound, Cast, HasExactRoom, CHARGED, OLD_CELL,
      Old, OldCells, REFILL;
  }

  lemma NextRefills(g: Geometry, l: Lone, n: nat)
    requires Cast(g) && Refilling(g, l, n) && n < 4
    ensures WF(g, l.table) && Ready(g, l, REFILL[n + 1], 1400) && Refilling(g, Next(g, l, REFILL[n + 1], 1400), n + 1)
  {
    Refills(g, l.table, n);
    RefillTakes(g, Left(g, l, 1400).table, n + 1);
    RefillTags(n, n + 1);
    assert REFILL[n] != VICTIM && REFILL[n + 1] != VICTIM;
    TakeIsPeek(g, Left(g, l, 1400).table, REFILL[n + 1], 1400);
    IdIs(g, REFILL[n]);
    IdIs(g, REFILL[n + 1]);
    MarksNext(g, l, REFILL[n + 1], 1400, Id(0, 0));
    MarkStays(g, l, 1400, Id(VICTIM, 0));
    hide RecordDebt, PeekCharge, Forget, MarksRecorded, MarksTaken, Early, Sound, Cast, HasExactRoom, CHARGED, OLD_CELL,
      Old, OldCells, REFILL;
  }

  lemma NextVictim(g: Geometry, l: Lone)
    requires Cast(g) && Refilling(g, l, 4)
    ensures WF(g, l.table) && Ready(g, l, VICTIM, 1500) && VictimIsBack(g, Next(g, l, VICTIM, 1500))
  {
    assert REFILL[4] == 15;
    Respills(g, l.table);
    VictimTakes(g, Left(g, l, 1500).table);
    TakeIsPeek(g, Left(g, l, 1500).table, VICTIM, 1500);
    IdIs(g, 15);
    IdIs(g, VICTIM);
    Two(g, 1, 15);
    MarkStays(g, l, 1500, Id(VICTIM, 0));
    MarksNext(g, l, VICTIM, 1500, Id(0, 0));
    hide RecordDebt, PeekCharge, Forget, MarksRecorded, MarksTaken, Early, Sound, Cast, HasExactRoom, CHARGED, OLD_CELL,
      Old, OldCells, REFILL, Own, MarksLeft, Full8, Refilled;
  }

  lemma NextPusher(g: Geometry, l: Lone)
    requires Cast(g) && VictimIsBack(g, l)
    ensures WF(g, l.table) && Ready(g, l, PUSHER, 1500) && PusherIsIn(g, Next(g, l, PUSHER, 1500))
  {
    VictimReturns(g, l.table);
    PusherTakes(g, Left(g, l, 1500).table);
    TakeIsPeek(g, Left(g, l, 1500).table, PUSHER, 1500);
    IdIs(g, PUSHER);
    IdIs(g, VICTIM);
    MarkStays(g, l, 1500, Id(VICTIM, 0));
    MarksNext(g, l, PUSHER, 1500, Id(0, 0));
    hide RecordDebt, PeekCharge, Forget, MarksRecorded, MarksTaken, Early, Sound, Cast, HasExactRoom, CHARGED, OLD_CELL,
      Old, OldCells, REFILL, Own;
  }

  lemma NextLeaks(g: Geometry, l: Lone)
    requires Cast(g) && PusherIsIn(g, l)
    ensures WF(g, l.table) && Ready(g, l, LAST_KEY, 1500) && Leaked(g, Next(g, l, LAST_KEY, 1500))
  {
    Pushes(g, l.table);
    LastTakes(g, l.table, Left(g, l, 1500).table);
    IdIs(g, PUSHER);
    Two(g, 1, VICTIM);
    MarksNext(g, l, LAST_KEY, 1500, Id(VICTIM, 0));
    hide RecordDebt, PeekCharge, Forget, MarksRecorded, MarksTaken, Early, Sound, Cast, HasExactRoom, CHARGED, OLD_CELL,
      Old, OldCells, REFILL, Own, LATE_CELL;
  }

  // ----------------------------------------------------------------- the run

  const FIRST := Ask(5, LIMIT, 0)

  /** The first key, in a shard that has never seen another. */
  function FirstLone(g: Geometry): Lone
    requires Sound(g)
  {
    Lone(NEW, MarksTaken(g, UNMARKED, NEW, 5, 5, false, 0), 5, false, 0)
  }

  lemma FirstMarks(g: Geometry)
    requires Sound(g)
    ensures Filling(g, FirstLone(g), 0) && Take(g, NEW, 5, 0) == (None, NEW) && PeekCharge(g, NEW, 5, 0).None?
  {
    assert FILL[0] == 5;
  }

  lemma FirstCheck(c: Config<KeyLog.Cell>, sh: Shard<KeyLog.Cell>)
    requires c == SmallConfig(c.g) && Sound(c.g) && sh.slots == [] && WF(c.g, sh.table)
    ensures Check(c, sh, 5, LIMIT, 0).shard == Admit(c, sh, 5, FRESH, LIMIT, 0).0
  {
    ShardAhead.NobodyHome(sh, 5, 5);
    ShardAhead.EmptyRoom(c, sh, 0);
    assert c.ops.create(5, 0) == Some(FRESH) && c.hash(5) == 5;
    hide SmallConfig, Sound, MakeRoom, Position, Admit;
  }

  lemma EmptyRun(c: Config<KeyLog.Cell>)
    requires c == SmallConfig(c.g) && Sound(c.g)
    ensures Run(c, KEYS, [], [Begin()]) && Admissible(c, KEYS, 0, FIRST)
  {
    hide Sound;
  }

  lemma FirstFills(c: Config<KeyLog.Cell>)
    returns (events: seq<Event>, states: seq<Sim<KeyLog.Cell>>, l: Lone)
    requires c == SmallConfig(c.g) && Cast(c.g)
    ensures Reached(c, events, states, l) && Filling(c.g, l, 0)
  {
    assert Sound(c.g);
    hide Cast, SmallConfig, Sound, AskStep, Admissible, Admit, Check, MarksTaken, PeekCharge, Filling, Is, Take, Run;
    var s: Sim<KeyLog.Cell> := Begin();
    EmptyRun(c);
    RunGoesOn(c, [], [s], FIRST);
    AskIs(c, s, 5, 0);
    FirstCheck(c, s.shard);
    FirstMarks(c.g);
    Arrives(c, s.shard, 5, 0);
    l := FirstLone(c.g);
    events, states := [] + [FIRST], [s] + [Step(c, s, FIRST)];
  }

  lemma {:induction false} FillRun(c: Config<KeyLog.Cell>, j: nat)
    returns (events: seq<Event>, states: seq<Sim<KeyLog.Cell>>, l: Lone)
    requires c == SmallConfig(c.g) && Cast(c.g) && j < 9
    ensures Reached(c, events, states, l) && Filling(c.g, l, j)
    decreases j
  {
    assert Sound(c.g);
    hide Filling, Reached, Ready, Next, Cast, SmallConfig, Sound;
    if j == 0 {
      events, states, l := FirstFills(c);
    } else {
      events, states, l := FillRun(c, j - 1);
      NextFills(c.g, l, j - 1);
      events, states := GoesOn(c, events, states, l, FILL[j], 0);
      l := Next(c.g, l, FILL[j], 0);
    }
  }

  lemma {:induction false} ChargeRun(c: Config<KeyLog.Cell>, n: nat)
    returns (events: seq<Event>, states: seq<Sim<KeyLog.Cell>>, l: Lone)
    requires c == SmallConfig(c.g) && Cast(c.g) && n < 4
    ensures Reached(c, events, states, l) && Charging(c.g, l, n)
    decreases n
  {
    assert Sound(c.g);
    hide Filling, Charging, Reached, Ready, Next, Cast, SmallConfig, Sound;
    if n == 0 {
      events, states, l := FillRun(c, 8);
      NextOverfills(c.g, l);
    } else {
      events, states, l := ChargeRun(c, n - 1);
      NextCharges(c.g, l, n - 1);
    }
    events, states := GoesOn(c, events, states, l, CHARGED[n], 900);
    l := Next(c.g, l, CHARGED[n], 900);
  }

  lemma {:induction false} RefillRun(c: Config<KeyLog.Cell>, n: nat)
    returns (events: seq<Event>, states: seq<Sim<KeyLog.Cell>>, l: Lone)
    requires c == SmallConfig(c.g) && Cast(c.g) && n < 5
    ensures Reached(c, events, states, l) && Refilling(c.g, l, n)
    decreases n
  {
    assert Sound(c.g);
    hide Charging, Refilling, Reached, Ready, Next, Cast, SmallConfig, Sound;
    if n == 0 {
      events, states, l := ChargeRun(c, 3);
      NextStartsRefill(c.g, l);
    } else {
      events, states, l := RefillRun(c, n - 1);
      NextRefills(c.g, l, n - 1);
    }
    events, states := GoesOn(c, events, states, l, REFILL[n], 1400);
    l := Next(c.g, l, REFILL[n], 1400);
  }

  lemma LeakRun(c: Config<KeyLog.Cell>) returns (events: seq<Event>, states: seq<Sim<KeyLog.Cell>>, l: Lone)
    requires c == SmallConfig(c.g) && Cast(c.g)
    ensures Reached(c, events, states, l) && Leaked(c.g, l)
  {
    assert Sound(c.g);
    hide Refilling, VictimIsBack, PusherIsIn, Leaked, Reached, Ready, Next, Cast, SmallConfig, Sound;
    events, states, l := RefillRun(c, 4);
    NextVictim(c.g, l);
    events, states := GoesOn(c, events, states, l, VICTIM, 1500);
    l := Next(c.g, l, VICTIM, 1500);
    NextPusher(c.g, l);
    events, states := GoesOn(c, events, states, l, PUSHER, 1500);
    l := Next(c.g, l, PUSHER, 1500);
    NextLeaks(c.g, l);
    events, states := GoesOn(c, events, states, l, LAST_KEY, 1500);
    l := Next(c.g, l, LAST_KEY, 1500);
  }

  lemma QuotaFits()
    ensures KeyLog.QuotasFit(Everyone, HORIZON) && KeyLog.PeriodsOutlast(Everyone)
  {
    assert KeyLog.Allotted(QUOTA, HORIZON) == 100;
  }

  lemma SmallSetting(c: Config<KeyLog.Cell>)
    requires c == SmallConfig(c.g) && Cast(c.g)
    ensures Setting(c, KEYS) && !c.forget
  {
    QuotaFits();
    KeyLog.LogIsLawful(Everyone, HORIZON);
    hide Orderly, FirstLaw, KeyLog.QuotasFit, KeyLog.Ops;
    forall j, k | j in KEYS && k in KEYS && IdOf(c.g, c.hash(j)) == IdOf(c.g, c.hash(k)) ensures j == k {
      IdIs(c.g, j);
      IdIs(c.g, k);
    }
  }

  /** In the crate's own table for a shard with room for one key: a run, in the
      setting of all the theorems, in which a debt charged from the sketch is
      written to it. Its key was never granted anything, and both of its cells end
      up holding ten units until 2500 ms, although no key that was not charged from
      the sketch ever owed anything that long. */
  lemma SpreadHappens() returns (events: seq<Event>, states: seq<Sim<KeyLog.Cell>>)
    ensures var c := SmallConfig(ProbeGeometry(1, 3));
            && Setting(c, KEYS) && !c.forget && Run(c, KEYS, events, states) && |states| == |events| + 1
            && var s := states[|events|];
               && s.shard.marks.leaked && |s.shard.table.cells| == 8
               && (forall i :: 6 <= i < 8 ==>
                     CellUntil(s.shard.table.cells[i]) == 2500 && CellSpent(s.shard.table.cells[i]) == 10)
               && (forall d :: d in s.shard.marks.debts && !d.inherited ==> d.until < 2500)
               && (forall x :: x in s.granted ==> x.key != VICTIM)
  {
    var g := ProbeGeometry(1, 3);
    SpreadProbe.CrateCast(g);
    var c := SmallConfig(g);
    var l;
    hide ProbeGeometry, Cast, Run, Setting;
    events, states, l := LeakRun(c);
    SmallSetting(c);
    LateCellReads(0);
    hide CellUntil, CellSpent, LATE_CELL;
  }
}

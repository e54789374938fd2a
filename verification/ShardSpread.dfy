/** No spreading (src/store.rs:66-75, 662-679, 775-797, 1369-1377): a debt charged
    from the sketch is not written back to it, in every run in which no key takes
    back an inherited record after one of its cells has expired. Then `peek` does
    not say that the record was inherited, and the key is stored as if the debt
    were its own. */
module ShardSpread {
  import opened Units
  import opened Probe
  import opened RecoveryTable
  import opened RecoveryFacts
  import opened RecoveryOrigins
  import opened KeyLaws
  import opened Shard
  import opened ShardIndex
  import opened ShardSafety
  import opened ShardMarks
  import opened ShardRuns

  // ---------------------------------------------------------------- one step

  /** Before any mark is lost, a newcomer charged from the sketch, directly or
      through its record, is stored as not seeded exactly if its record is live
      and inherited and one of its cells has expired. */
  lemma MarkLostIff<S(!new)>(c: Config<S>, keys: set<nat>, sh: Shard<S>, ideal: map<nat, S>, now: nat, m: map<Id,
                             Record>, key: nat, s: S, n: nat)
    requires Sound(c.g) && Inv(c, keys, sh, ideal, now, m) && WF(c.g, sh.table) && !sh.marks.lost
    ensures var r := Admit(c, sh, key, s, n, now).0;
            && |r.slots| == |sh.slots| + 1
            && var x := r.slots[|sh.slots|];
               && x.key == key
               && (x.key in r.marks.keys && !x.seeded <==> Unsaid(c.g, sh.table, c.hash(key), Millis(now)))
  {
    var h := c.hash(key);
    assert Holds(c.g, sh.table, Millis(now), m) && RecordsSay(sh.marks, m);
    hide Sound, Inv, Own, Holds, FirstHint, Forget, CellUntil, CellSpent;
    OwnIff(c.g, sh.table, Millis(now), m, h);
  }

  /** The check loses a mark: it stores a newcomer whose record is inherited and
      one of whose cells has expired. */
  predicate Loses<S>(c: Config<S>, s: Sim<S>, e: Event)
    requires Sound(c.g)
  {
    && e.Ask? && WF(c.g, s.shard.table) && Position(s.shard, c.hash(e.key), e.key).None?
    && c.ops.create(e.key, e.now).Some?
    && var (roomy, err) := MakeRoom(c, s.shard, e.now);
       err.None? && Unsaid(c.g, roomy.table, c.hash(e.key), Millis(e.now))
  }

  lemma CheckLoses<S(!new)>(c: Config<S>, s: Sim<S>, key: nat, n: nat, now: nat)
    requires Sound(c.g) && WF(c.g, s.shard.table)
    ensures Check(c, s.shard, key, n, now).shard.marks.lost == (s.shard.marks.lost || Loses(c, s, Ask(key, n, now)))
  {
    hide Sound, MakeRoom, Position, Take, FirstHint, Unsaid, OwnMarked;
  }

  lemma {:induction false} RetainLoses<S(!new)>(c: Config<S>, sh: Shard<S>, cursor: nat, stop: nat, now: nat)
    requires cursor <= |sh.slots|
    ensures RetainDown(c, sh, cursor, stop, now).marks == sh.marks
    decreases cursor
  {
    if cursor > stop { RetainLoses(c, RetainOne(c, sh, cursor - 1, now), cursor - 1, stop, now); }
  }

  lemma StepLoses<S(!new)>(c: Config<S>, s: Sim<S>, e: Event)
    requires Sound(c.g) && WF(c.g, s.shard.table)
    ensures Step(c, s, e).shard.marks.lost == (s.shard.marks.lost || Loses(c, s, e))
  {
    hide Sound, Check, Position, RetainDown, Known, MakeRoom, Unsaid;
    match e
    case Ask(key, n, now) => CheckLoses(c, s, key, n, now);
    case Look(key, now) =>
    case Chunk(cursor, now) =>
      var from := Min(cursor, |s.shard.slots|);
      RetainLoses(c, s.shard, from, SatSub(from, RETAIN_CHUNK), now);
  }

  // -------------------------------------------------------------- whole runs

  /** No check before state `i` loses a mark. */
  ghost predicate LosesNone<S(!new)>(c: Config<S>, events: seq<Event>, states: seq<Sim<S>>, i: nat)
    requires Sound(c.g) && i <= |events| < |states|
  {
    forall j: nat {:trigger states[j]} :: j < i ==> !Loses(c, states[j], events[j])
  }

  lemma {:induction false} RunLoses<S(!new)>(c: Config<S>, keys: set<nat>, events: seq<Event>, states: seq<Sim<S>>,
                                             i: nat)
    requires Sound(c.g) && Run(c, keys, events, states) && i < |states|
    ensures states[i].shard.marks.lost <==> !LosesNone(c, events, states, i)
    decreases i
  {
    hide Sound, Step, Loses, Admissible;
    if i > 0 {
      RunLoses(c, keys, events, states, i - 1);
      assert states[i] == Step(c, states[i - 1], events[i - 1]);
      StepLoses(c, states[i - 1], events[i - 1]);
    }
  }

  /** No spreading: in every FailClosed run in which no check loses a mark, no debt
      charged from the sketch is ever written to it; the bits of slots say exactly
      who was so charged; and whatever a cell says was owed by keys that were not. */
  lemma NothingSpreads<S(!new)>(c: Config<S>, keys: set<nat>, events: seq<Event>, states: seq<Sim<S>>, i: nat)
    requires Setting(c, keys) && !c.forget && Run(c, keys, events, states) && i < |states|
    requires LosesNone(c, events, states, i)
    ensures var sh := states[i].shard;
            && !sh.marks.leaked
            && (forall x :: x in sh.slots ==> (x.seeded <==> x.key in sh.marks.keys))
            && CellsOwed(c.g, sh.marks.debts, sh.table.cells)
  {
    RunLoses(c, keys, events, states, i);
    RunKeepsInv(c, keys, events, states, i);
    hide Orderly, FirstLaw, Sound, Distinct, Indexed, Run, LosesNone, AllGood, AllAway, TableOk, IdealOk, CellsOwed,
      RecordsOwed, RecordsSay;
    var s := states[i];
    var m :| Inv(c, keys, s.shard, s.ideal, s.now, m);
    forall x | x in s.shard.slots ensures x.seeded <==> x.key in s.shard.marks.keys {
      assert x in Content(s.shard);
    }
  }

  /** So a newcomer is charged from the sketch no more than keys owed that were not
      charged from it themselves. */
  lemma NothingRatchets<S(!new)>(c: Config<S>, keys: set<nat>, events: seq<Event>, states: seq<Sim<S>>, i: nat, id: Id,
                                 later: nat)
    requires Setting(c, keys) && !c.forget && Run(c, keys, events, states) && i < |states|
    requires LosesNone(c, events, states, i)
    requires Allocated(c.g, states[i].shard.table) && Shared(c.g, states[i].shard.table, id, later).Some?
    ensures ChargeOwed(c.g, states[i].shard.marks.debts, id, Shared(c.g, states[i].shard.table, id, later).value)
  {
    NothingSpreads(c, keys, events, states, i);
    hide *;
    CellsOweCharge(c.g, states[i].shard.marks.debts, states[i].shard.table, id, later);
  }
}

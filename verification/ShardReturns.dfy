/** What a newcomer is charged (src/store.rs:1357-1383): in every run, neither less
    nor more than what it left owing, or what the sketch says if that is more. */
module ShardReturns {
  import opened Units
  import opened Probe
  import opened RecoveryTable
  import opened RecoveryFacts
  import opened KeyLaws
  import opened Shard
  import opened ShardIndex
  import opened ShardHints
  import opened ShardSafety
  import opened ShardRecall
  import opened ShardChecks
  import opened ShardRuns

  /** A newcomer that finds room. */
  ghost predicate Arrives<S(!new)>(c: Config<S>, sh: Shard<S>, key: nat, now: nat)
    requires Sound(c.g)
  {
    && WF(c.g, sh.table) && Position(sh, c.hash(key), key).None? && c.ops.create(key, now).Some?
    && MakeRoom(c, sh, now).1.None?
  }

  /** A charge of `spent` units until millisecond `until`. */
  function Charged<S>(o: KeyOps<S>, key: nat, spent: nat, until: nat, now: nat): S
    requires o.create(key, now).Some?
  {
    o.restore(o.create(key, now).value, Debt(spent, until * NANOS_PER_MILLI), now)
  }

  /** The decision on a newcomer in a shard with room, and its slot. */
  function Newcomer<S>(c: Config<S>, sh: Shard<S>, key: nat, n: nat, now: nat): (Decision, Slot<S>)
    requires Sound(c.g) && WF(c.g, sh.table) && c.ops.create(key, now).Some?
  {
    var charge := PeekCharge(c.g, sh.table, c.hash(key), Millis(now));
    var (d, s) := c.ops.acquire(Begun(c.ops, c.ops.create(key, now).value, charge, now), n, now);
    var (hint, s') := FirstHint(c.ops, s, charge.Some?, n, d, now);
    (d, Slot(s', false, charge.Some? && charge.value.shared, Millis(now), hint, c.hash(key), key))
  }

  lemma TakeIsPeek(g: Geometry, t: Table, h: nat, now: nat)
    requires Sound(g) && WF(g, t)
    ensures Take(g, t, h, now).0 == PeekCharge(g, t, h, now)
  {
  }

  /** The check stores what its own acquisition leaves, and answers as that does. */
  lemma ArrivalIs<S(!new)>(c: Config<S>, sh: Shard<S>, key: nat, n: nat, now: nat)
    requires Sound(c.g) && Arrives(c, sh, key, now)
    ensures var r := Check(c, sh, key, n, now);
            var roomy := MakeRoom(c, sh, now).0;
            var (d, x) := Newcomer(c, roomy, key, n, now);
            r.decision == d && !r.refused && r.shard.slots == roomy.slots + [x]
  {
    hide Sound, MakeRoom, Position, Take, FirstHint, MarksTaken;
    TakeIsPeek(c.g, MakeRoom(c, sh, now).0.table, c.hash(key), Millis(now));
  }

  /** However its hint was found, a newcomer's slot owes what its state did. */
  lemma HintKeepsDebt<S(!new)>(o: KeyOps<S>, key: nat, charge: Option<Charge>, n: nat, now: nat)
    requires Lawful(o) && o.create(key, now).Some? && n <= U32_MAX && now + NANOS_PER_MILLI < o.horizon <= LAST
    requires charge.Some? ==> charge.value.spent <= U32_MAX
    ensures var (d, s) := o.acquire(Begun(o, o.create(key, now).value, charge, now), n, now);
            o.debt(FirstHint(o, s, charge.Some?, n, d, now).1, now) == o.debt(s, now)
  {
    hide Orderly, FirstLaw, ExactHint, Millis;
    var f := o.create(key, now).value;
    var b := Begun(o, f, charge, now);
    Fresh(o, key, now);
    if charge.Some? { Restored(o, key, f, FromMillis(charge.value), now); }
    Acquired(o, key, b, n, now);
    var (d, s) := o.acquire(b, n, now);
    Looked(o, key, s, now, now);
    if charge.None? {
      MillisFloor(now);
      var ahead := (Millis(now) + 1) * NANOS_PER_MILLI;
      KeyLaws.LooksAhead(o, key, n, now, ahead, s);
      Looked(o, key, o.look(s, ahead), now, now);
    }
  }

  lemma CoreIs<S(!new)>(c: Config<S>, keys: set<nat>, sh: Shard<S>, ideal: map<nat, S>, now: nat, m: map<Id, Record>)
    requires Sound(c.g) && Core(c, keys, sh, ideal, now, m)
    ensures TableOk(c.g, sh.table, Millis(now), m) && Recalled(c.g, sh.marks, m, sh.table.cells, Millis(now))
  {
  }

  /** What the run's invariant says of the shard a newcomer is stored in. */
  lemma RoomyIs<S(!new)>(c: Config<S>, keys: set<nat>, events: seq<Event>, states: seq<Sim<S>>, i: nat, key: nat,
                         now: nat) returns (m: map<Id, Record>)
    requires Setting(c, keys) && !c.forget && Run(c, keys, events, states) && i < |states| && key in keys
    requires states[i].now <= now < c.ops.horizon && Arrives(c, states[i].shard, key, now)
    ensures var roomy := MakeRoom(c, states[i].shard, now).0;
            TableOk(c.g, roomy.table, Millis(now), m) && Recalled(c.g, roomy.marks, m, roomy.table.cells, Millis(now))
  {
    RunKeepsInv(c, keys, events, states, i);
    hide Orderly, FirstLaw, Sound, Distinct, Run, MakeRoom, Core, Recalled, NoneHeld, TableOk, Position, Stored,
      Content;
    var s := states[i];
    m :| Inv(c, keys, s.shard, s.ideal, s.now, m);
    InvLasts(c, keys, s.shard, s.ideal, s.now, now, m);
    m := Unexpired(m, Millis(now));
    NotFoundNotStored(c, keys, s.shard, s.ideal, now, m, key);
    m := RoomFor(c, keys, s.shard, s.ideal, now, m, key);
    CoreIs(c, keys, MakeRoom(c, s.shard, now).0, Known(c.ops, s.ideal, key, now), now, m);
  }

  /** The deadline a newcomer is charged to: that of the debt it left, if its cells
      have expired; otherwise the later of that and the sketch's, short of deadlines
      no cell expresses. */
  ghost predicate ChargedTo(g: Geometry, marks: Marks, t: Table, id: Id, now: nat, until: nat)
    requires Sound(g) && WF(g, t)
  {
    var due, shared := Recollection(marks, id, now), Sketched(g, t, id, now);
    && until > now
    && (shared.None? && due.Some? ==> until == Min(due.value.until, RECORD_UNTIL_MAX))
    && (shared.Some? && due.None? ==> until == shared.value.until)
    && (shared.Some? && due.Some? ==>
          Max(Min(due.value.until, UNTIL_MAX), shared.value.until) <= until <= Max(due.value.until, shared.value.until))
  }

  /** In every run, a newcomer that finds room is judged as a fresh state is that has
      been charged exactly the units it left owing or, if more, those the sketch
      says; and its slot owes what that state then owes. */
  lemma NewcomerIsCharged<S(!new)>(c: Config<S>, keys: set<nat>, events: seq<Event>, states: seq<Sim<S>>, i: nat,
                                   key: nat, n: nat, now: nat) returns (until: nat)
    requires Setting(c, keys) && !c.forget && Run(c, keys, events, states) && i < |states| && key in keys
    requires states[i].now <= now && now + NANOS_PER_MILLI < c.ops.horizon && n <= U32_MAX
    requires Arrives(c, states[i].shard, key, now)
    ensures var roomy := MakeRoom(c, states[i].shard, now).0;
            var id := IdOf(c.g, c.hash(key));
            var units := UnitsOwed(c.g, roomy.marks, roomy.table, id, Millis(now));
            var free := Recollection(roomy.marks, id, Millis(now)).None?
                          && Sketched(c.g, roomy.table, id, Millis(now)).None?;
            var s := if free then c.ops.create(key, now).value else Charged(c.ops, key, units, until, now);
            var (d, s') := c.ops.acquire(s, n, now);
            var r := Check(c, states[i].shard, key, n, now);
            && (!free ==> ChargedTo(c.g, roomy.marks, roomy.table, id, Millis(now), until) && units <= U32_MAX)
            && r.decision == d && !r.refused
            && |r.shard.slots| == |roomy.slots| + 1
            && var x := r.shard.slots[|roomy.slots|];
               x.key == key && c.ops.debt(x.state, now) == c.ops.debt(s', now)
  {
    var m := RoomyIs(c, keys, events, states, i, key, now);
    hide Orderly, FirstLaw, Distinct, Run, MakeRoom, Recalled, Position, FirstHint, PeekCharge, Check, Recollection,
      Sketched, UnitsOwed, IdOf, Holds;
    var roomy := MakeRoom(c, states[i].shard, now).0;
    MillisBelowMark(now);
    ChargeIs(c.g, roomy.marks, roomy.table, m, c.hash(key), Millis(now));
    var charge := PeekCharge(c.g, roomy.table, c.hash(key), Millis(now));
    until := if charge.Some? then charge.value.until else 0;
    if charge.Some? { ChargeFits(c.g, roomy.table, c.hash(key), Millis(now), m); }
    ArrivalIs(c, states[i].shard, key, n, now);
    HintKeepsDebt(c.ops, key, charge, n, now);
  }
}

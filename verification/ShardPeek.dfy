/** What `peek` says of a key (src/store.rs:1409-1420): never that more is left than
    is, and of a key that is not stored exactly what it would be charged. */
module ShardPeek {
  import opened Units
  import opened Probe
  import opened RecoveryTable
  import opened RecoveryFacts
  import opened RecoveryCover
  import opened KeyLaws
  import opened Shard
  import opened ShardIndex
  import opened ShardSafety
  import opened ShardRecall
  import opened ShardRuns
  import opened ShardReturns

  /** `Known`: what a stored key's state owes, what an absent key would be charged,
      or nothing. */
  datatype Answer = Tracked(debt: Option<Debt>) | Owed(charge: Debt) | Unknown

  /** `peek` of the store. */
  function Peek<S>(c: Config<S>, sh: Shard<S>, key: nat, now: nat): Answer
    requires Sound(c.g) && WF(c.g, sh.table)
  {
    var pos := Position(sh, c.hash(key), key);
    if pos.Some? then Tracked(c.ops.debt(sh.slots[pos.value].state, now))
    else
      match PeekCharge(c.g, sh.table, c.hash(key), Millis(now))
      case None => Unknown
      case Some(charge) => Owed(FromMillis(charge))
  }

  /** The debt an answer reports. */
  function Reported(a: Answer): Option<Debt> {
    match a
    case Tracked(d) => d
    case Owed(d) => Some(d)
    case Unknown => None
  }

  lemma AwayIsCharged<S(!new)>(c: Config<S>, s: S, key: nat, now: nat, t: Table, m: map<Id, Record>)
    requires Sound(c.g) && Lawful(c.ops) && now < c.ops.horizon <= LAST && TableOk(c.g, t, Millis(now), m)
    requires c.ops.valid(key, s, now) && Away(c, s, key, now, m, t.cells) && c.ops.debt(s, now).Some?
    ensures var d, charge := c.ops.debt(s, now).value, PeekCharge(c.g, t, c.hash(key), Millis(now));
            charge.Some? && charge.value.spent >= d.spent && FromMillis(charge.value).until >= d.until
  {
    hide Orderly, FirstLaw, Sound, Holds, SpentFits, PeekCharge, Covered;
    var d := c.ops.debt(s, now).value;
    KeyLaws.Owed(c.ops, key, s, now);
    CeilMillisAfter(d.until, now);
    CeilMillisIsCeiling(d.until);
    PeekCovers(c.g, t, Millis(now), m, c.hash(key), DueOf(c, key, d));
  }

  /** What the run's invariant says at a later reading. */
  lemma InvAt<S(!new)>(c: Config<S>, keys: set<nat>, events: seq<Event>, states: seq<Sim<S>>, i: nat, now: nat)
    returns (m: map<Id, Record>)
    requires Setting(c, keys) && !c.forget && Run(c, keys, events, states) && i < |states|
    requires states[i].now <= now < c.ops.horizon
    ensures Inv(c, keys, states[i].shard, states[i].ideal, now, m)
  {
    RunKeepsInv(c, keys, events, states, i);
    hide Orderly, FirstLaw, Sound, Distinct, Run, Core, NoneHeld;
    var s := states[i];
    m :| Inv(c, keys, s.shard, s.ideal, s.now, m);
    InvLasts(c, keys, s.shard, s.ideal, s.now, now, m);
    m := Unexpired(m, Millis(now));
  }

  lemma ReportsEnough<S(!new)>(c: Config<S>, keys: set<nat>, sh: Shard<S>, ideal: map<nat, S>, now: nat,
                               m: map<Id, Record>, key: nat)
    requires Setting(c, keys) && Inv(c, keys, sh, ideal, now, m) && now < c.ops.horizon && key in ideal
    requires c.ops.debt(ideal[key], now).Some?
    ensures var d, told := c.ops.debt(ideal[key], now).value, Reported(Peek(c, sh, key, now));
            told.Some? && told.value.spent >= d.spent && told.value.until >= d.until
  {
    hide Orderly, FirstLaw, Sound, Distinct, NoneHeld, Recalled, PeekCharge, Position, Away,
      Indexed, Holds, SpentFits;
    var pos := Position(sh, c.hash(key), key);
    if pos.Some? {
      ContentAt(sh, pos.value);
      assert Good(c.ops, ideal, now, sh.slots[pos.value]);
      OwesMore(c.ops, key, sh.slots[pos.value].state, ideal[key], now);
    } else {
      NotFoundNotStored(c, keys, sh, ideal, now, m, key);
      AwayIsCharged(c, ideal[key], key, now, sh.table, m);
    }
  }

  /** In every run, `peek` reports at least what the key owes, until when it owes it:
      a key it calls whole, or does not know, is whole. */
  lemma PeekNeverUnderstates<S(!new)>(c: Config<S>, keys: set<nat>, events: seq<Event>, states: seq<Sim<S>>, i: nat,
                                      key: nat, now: nat)
    requires Setting(c, keys) && !c.forget && Run(c, keys, events, states) && i < |states|
    requires states[i].now <= now < c.ops.horizon && key in states[i].ideal && WF(c.g, states[i].shard.table)
    requires c.ops.debt(states[i].ideal[key], now).Some?
    ensures var d, told := c.ops.debt(states[i].ideal[key], now).value, Reported(Peek(c, states[i].shard, key, now));
            told.Some? && told.value.spent >= d.spent && told.value.until >= d.until
  {
    var m := InvAt(c, keys, events, states, i, now);
    hide Orderly, FirstLaw, Sound, Distinct, Run, Core, NoneHeld, Peek, Reported;
    ReportsEnough(c, keys, states[i].shard, states[i].ideal, now, m, key);
  }

  lemma AbsentIs<S(!new)>(c: Config<S>, sh: Shard<S>, m: map<Id, Record>, key: nat, now: nat)
    requires Sound(c.g) && TableOk(c.g, sh.table, Millis(now), m) && Millis(now) < UNTIL_MAX
    requires Recalled(c.g, sh.marks, m, sh.table.cells, Millis(now)) && Position(sh, c.hash(key), key).None?
    ensures var id, told := IdOf(c.g, c.hash(key)), Peek(c, sh, key, now);
            && !told.Tracked?
            && (told.Unknown? <==> Recollection(sh.marks, id, Millis(now)).None?
                                     && Sketched(c.g, sh.table, id, Millis(now)).None?)
            && (told.Owed? ==>
                  && told.charge.spent == UnitsOwed(c.g, sh.marks, sh.table, id, Millis(now))
                  && told.charge.until % NANOS_PER_MILLI == 0
                  && ChargedTo(c.g, sh.marks, sh.table, id, Millis(now), told.charge.until / NANOS_PER_MILLI))
  {
    hide Sound, Recalled, PeekCharge, Position, Recollection, Sketched, UnitsOwed, IdOf, Holds, Millis;
    ChargeIs(c.g, sh.marks, sh.table, m, c.hash(key), Millis(now));
  }

  /** In every run, `peek` says of a key that is not stored exactly what it left owing
      or, if more, what the sketch says; and knows nothing exactly if neither says
      anything. */
  lemma PeekOfTheAbsent<S(!new)>(c: Config<S>, keys: set<nat>, events: seq<Event>, states: seq<Sim<S>>, i: nat,
                                 key: nat, now: nat)
    requires Setting(c, keys) && !c.forget && Run(c, keys, events, states) && i < |states|
    requires states[i].now <= now < c.ops.horizon && WF(c.g, states[i].shard.table)
    requires Position(states[i].shard, c.hash(key), key).None?
    ensures var sh, id := states[i].shard, IdOf(c.g, c.hash(key));
            var told := Peek(c, sh, key, now);
            && !told.Tracked?
            && (told.Unknown? <==> Recollection(sh.marks, id, Millis(now)).None?
                                     && Sketched(c.g, sh.table, id, Millis(now)).None?)
            && (told.Owed? ==>
                  && told.charge.spent == UnitsOwed(c.g, sh.marks, sh.table, id, Millis(now))
                  && told.charge.until % NANOS_PER_MILLI == 0
                  && ChargedTo(c.g, sh.marks, sh.table, id, Millis(now), told.charge.until / NANOS_PER_MILLI))
  {
    var m := InvAt(c, keys, events, states, i, now);
    hide Orderly, FirstLaw, Sound, Distinct, Run, NoneHeld, Core, Peek, Position, Recollection, Sketched, UnitsOwed,
      IdOf, ChargedTo, Recalled, TableOk;
    MillisBelowMark(now);
    CoreIs(c, keys, states[i].shard, states[i].ideal, now, m);
    AbsentIs(c, states[i].shard, m, key, now);
  }
}

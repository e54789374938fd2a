/** What a key is granted when it comes back, by algorithm (src/algo/mod.rs:88-110,
    src/store.rs:1369-1383): exactly what its quota leaves beside the units it left
    owing, or beside those the sketch says if they are more. */
module StoreReturns {
  import opened Units
  import opened Probe
  import RecoveryTable
  import Gcra
  import FixedWindow
  import SlidingLog
  import SlidingCounter
  import opened KeyLaws
  import KeyGcra
  import KeyWindow
  import KeyLog
  import KeyCounter
  import opened Shard
  import opened ShardSafety
  import opened ShardRecall
  import opened ShardRuns
  import opened ShardReturns

  /** A run, and a newcomer that finds room in the shard it has come to. */
  ghost predicate Returns<S(!new)>(c: Config<S>, keys: set<nat>, events: seq<Event>, states: seq<Sim<S>>, i: nat,
                                   key: nat, n: nat, now: nat)
    requires Sound(c.g)
  {
    && Setting(c, keys) && !c.forget && Run(c, keys, events, states) && i < |states| && key in keys
    && states[i].now <= now && now + NANOS_PER_MILLI < c.ops.horizon && n <= U32_MAX
    && Arrives(c, states[i].shard, key, now)
  }

  /** The units the newcomer left owing, or those the sketch says if they are more. */
  ghost function LeftOwing<S(!new)>(c: Config<S>, sh: Shard<S>, key: nat, now: nat): nat
    requires Sound(c.g) && Arrives(c, sh, key, now)
  {
    var roomy := MakeRoom(c, sh, now).0;
    UnitsOwed(c.g, roomy.marks, roomy.table, IdOf(c.g, c.hash(key)), Millis(now))
  }

  /** What the newcomer's slot owes. */
  ghost function SlotOwes<S(!new)>(c: Config<S>, sh: Shard<S>, key: nat, n: nat, now: nat): nat
    requires Sound(c.g) && Arrives(c, sh, key, now)
    requires |Check(c, sh, key, n, now).shard.slots| == |MakeRoom(c, sh, now).0.slots| + 1
  {
    UnitsOf(c.ops.debt(Check(c, sh, key, n, now).shard.slots[|MakeRoom(c, sh, now).0.slots|].state, now))
  }

  lemma MillisLater(now: nat, until: nat)
    ensures until > Millis(now) && now <= U64_MAX ==> until * NANOS_PER_MILLI > now
  {
  }

  lemma NothingOwed(g: Geometry, marks: Marks, t: RecoveryTable.Table, id: Id, now: nat)
    requires Sound(g) && RecoveryTable.WF(g, t)
    ensures Recollection(marks, id, now).None? && Sketched(g, t, id, now).None? ==> UnitsOwed(g, marks, t, id, now) == 0
  {
  }

  /** A newcomer is judged, and stored, as a fresh state charged with that many
      units to some later deadline. */
  lemma JudgedAsCharged<S(!new)>(c: Config<S>, keys: set<nat>, events: seq<Event>, states: seq<Sim<S>>, i: nat,
                                 key: nat, n: nat, now: nat) returns (d: Debt)
    requires Sound(c.g) && Returns(c, keys, events, states, i, key, n, now)
    requires forall e: Debt :: e.spent == 0 ==> c.ops.restore(c.ops.create(key, now).value, e, now)
                                                == c.ops.create(key, now).value
    ensures d.spent == LeftOwing(c, states[i].shard, key, now) && (d.spent > 0 ==> d.until > now)
    ensures var (decision, s) := c.ops.acquire(c.ops.restore(c.ops.create(key, now).value, d, now), n, now);
            var r := Check(c, states[i].shard, key, n, now);
            && r.decision == decision && |r.shard.slots| == |MakeRoom(c, states[i].shard, now).0.slots| + 1
            && SlotOwes(c, states[i].shard, key, n, now) == UnitsOf(c.ops.debt(s, now))
  {
    var until := NewcomerIsCharged(c, keys, events, states, i, key, n, now);
    var roomy := MakeRoom(c, states[i].shard, now).0;
    MillisLater(now, until);
    NothingOwed(c.g, roomy.marks, roomy.table, IdOf(c.g, c.hash(key)), Millis(now));
    hide Setting, Run, MakeRoom, Check, Recollection, Sketched, UnitsOwed, IdOf, Millis, Sound;
    d := Debt(LeftOwing(c, states[i].shard, key, now), until * NANOS_PER_MILLI);
  }

  // -------------------------------------------------------------- the windows

  /** Fixed window: granted exactly what the limit leaves, in every run. */
  lemma WindowComesBack(c: Config<KeyWindow.Cell>, keys: set<nat>, quota: nat -> FixedWindow.Quota,
                        events: seq<Event>, states: seq<Sim<KeyWindow.Cell>>, i: nat, key: nat, n: nat, now: nat)
    requires Sound(c.g) && Returns(c, keys, events, states, i, key, n, now)
    requires c.ops == KeyWindow.Ops(quota, c.ops.horizon) && KeyWindow.QuotasFit(quota, c.ops.horizon)
    ensures var r := Check(c, states[i].shard, key, n, now);
            var units := Min(LeftOwing(c, states[i].shard, key, now), quota(key).limit);
            && (r.decision == Allow <==> n == 0 || units + n <= quota(key).limit)
            && |r.shard.slots| == |MakeRoom(c, states[i].shard, now).0.slots| + 1
            && SlotOwes(c, states[i].shard, key, n, now) == units + if r.decision == Allow then n else 0
  {
    var d := JudgedAsCharged(c, keys, events, states, i, key, n, now);
    hide Setting, Run, MakeRoom, Check, LeftOwing, SlotOwes, Sound, KeyWindow.QuotasFit, KeyWindow.Acquire,
      KeyWindow.DebtOf, KeyWindow.Create;
    KeyWindow.ChargedOwes(quota, c.ops.horizon, key, d, n, now);
  }

  /** Sliding log: the same. */
  lemma LogComesBack(c: Config<KeyLog.Cell>, keys: set<nat>, quota: nat -> SlidingLog.Quota,
                     events: seq<Event>, states: seq<Sim<KeyLog.Cell>>, i: nat, key: nat, n: nat, now: nat)
    requires Sound(c.g) && Returns(c, keys, events, states, i, key, n, now)
    requires c.ops == KeyLog.Ops(quota, c.ops.horizon) && KeyLog.QuotasFit(quota, c.ops.horizon)
    ensures var r := Check(c, states[i].shard, key, n, now);
            var units := Min(LeftOwing(c, states[i].shard, key, now), quota(key).limit);
            && (r.decision == Allow <==> n == 0 || units + n <= quota(key).limit)
            && |r.shard.slots| == |MakeRoom(c, states[i].shard, now).0.slots| + 1
            && SlotOwes(c, states[i].shard, key, n, now) == units + if r.decision == Allow then n else 0
  {
    var d := JudgedAsCharged(c, keys, events, states, i, key, n, now);
    hide Setting, Run, MakeRoom, Check, LeftOwing, SlotOwes, Sound, KeyLog.QuotasFit, KeyLog.Acquire, KeyLog.DebtOf,
      KeyLog.Create;
    KeyLog.ChargedOwes(quota, c.ops.horizon, key, d, n, now);
  }

  /** Sliding counter: the same. */
  lemma CounterComesBack(c: Config<KeyCounter.Cell>, keys: set<nat>, quota: nat -> SlidingCounter.Quota,
                         events: seq<Event>, states: seq<Sim<KeyCounter.Cell>>, i: nat, key: nat, n: nat, now: nat)
    requires Sound(c.g) && Returns(c, keys, events, states, i, key, n, now)
    requires c.ops == KeyCounter.Ops(quota, c.ops.horizon) && KeyCounter.QuotasFit(quota, c.ops.horizon)
    ensures var r := Check(c, states[i].shard, key, n, now);
            var units := Min(LeftOwing(c, states[i].shard, key, now), quota(key).limit);
            && (r.decision == Allow <==> n == 0 || units + n <= quota(key).limit)
            && |r.shard.slots| == |MakeRoom(c, states[i].shard, now).0.slots| + 1
            && SlotOwes(c, states[i].shard, key, n, now) == units + if r.decision == Allow then n else 0
  {
    var d := JudgedAsCharged(c, keys, events, states, i, key, n, now);
    hide Setting, Run, MakeRoom, Check, LeftOwing, SlotOwes, Sound, KeyCounter.QuotasFit, KeyCounter.Acquire,
      KeyCounter.DebtOf, KeyCounter.Create;
    KeyCounter.ChargedOwes(quota, c.ops.horizon, key, d, n, now);
  }

  // -------------------------------------------------------------------- GCRA

  /** The key left nothing owing, and no live cells speak of it. */
  ghost predicate OwesNothing<S(!new)>(c: Config<S>, sh: Shard<S>, key: nat, now: nat)
    requires Sound(c.g) && RecoveryTable.WF(c.g, sh.table)
  {
    var id := IdOf(c.g, c.hash(key));
    Recollection(sh.marks, id, Millis(now)).None? && Sketched(c.g, sh.table, id, Millis(now)).None?
  }

  /** The decision on a key that comes back: that of a fresh state, charged to a
      deadline if it owes. */
  lemma JudgedTo<S(!new)>(c: Config<S>, keys: set<nat>, events: seq<Event>, states: seq<Sim<S>>, i: nat, key: nat,
                          n: nat, now: nat) returns (units: nat, until: nat)
    requires Sound(c.g) && Returns(c, keys, events, states, i, key, n, now)
    ensures c.ops.create(key, now).Some?
    ensures var roomy := MakeRoom(c, states[i].shard, now).0;
            var s := c.ops.create(key, now).value;
            var decision := Check(c, states[i].shard, key, n, now).decision;
            if OwesNothing(c, roomy, key, now) then decision == c.ops.acquire(s, n, now).0
            else
              && ChargedTo(c.g, roomy.marks, roomy.table, IdOf(c.g, c.hash(key)), Millis(now), until)
              && until * NANOS_PER_MILLI > now
              && decision == c.ops.acquire(c.ops.restore(s, Debt(units, until * NANOS_PER_MILLI), now), n, now).0
  {
    until := NewcomerIsCharged(c, keys, events, states, i, key, n, now);
    var roomy := MakeRoom(c, states[i].shard, now).0;
    MillisLater(now, until);
    units := UnitsOwed(c.g, roomy.marks, roomy.table, IdOf(c.g, c.hash(key)), Millis(now));
    hide Setting, Run, MakeRoom, Check, Recollection, Sketched, UnitsOwed, IdOf, Sound, Millis;
  }

  /** GCRA: granted exactly what its burst leaves beside the units its rate emits
      until the deadline it left, or the sketch's; everything, if there is none. */
  lemma GcraComesBack(c: Config<KeyGcra.Cell>, keys: set<nat>, quota: nat -> Gcra.Quota, events: seq<Event>,
                      states: seq<Sim<KeyGcra.Cell>>, i: nat, key: nat, n: nat, now: nat) returns (until: nat)
    requires Sound(c.g) && Returns(c, keys, events, states, i, key, n, now)
    requires c.ops == KeyGcra.Ops(quota, c.ops.horizon) && KeyGcra.QuotasFit(quota, c.ops.horizon)
    ensures !Gcra.AdmitsNothing(quota(key))
    ensures var roomy := MakeRoom(c, states[i].shard, now).0;
            var id, q := IdOf(c.g, c.hash(key)), quota(key);
            var granted := Check(c, states[i].shard, key, n, now).decision == Allow;
            if OwesNothing(c, roomy, key, now) then granted <==> n <= q.burst
            else
              && ChargedTo(c.g, roomy.marks, roomy.table, id, Millis(now), until) && until * NANOS_PER_MILLI > now
              && (granted <==>
                    n == 0 || Gcra.Emitted(q, Clamp64(until * NANOS_PER_MILLI) - 1) + 1 + n
                                <= Gcra.Emitted(q, now) + q.burst)
  {
    var units;
    units, until := JudgedTo(c, keys, events, states, i, key, n, now);
    assert quota(key).limit <= U32_MAX && quota(key).burst <= U32_MAX;
    KeyGcra.CreateIff(quota, key);
    hide Setting, Run, MakeRoom, Check, IdOf, Sound, KeyGcra.QuotasFit, Gcra.Emitted, KeyGcra.Create, KeyGcra.Acquire,
      KeyGcra.Restore, Millis, OwesNothing, ChargedTo;
    if OwesNothing(c, MakeRoom(c, states[i].shard, now).0, key, now) {
      KeyGcra.FreshGrants(quota, c.ops.horizon, key, n, now);
    } else {
      KeyGcra.ChargedOwes(quota, c.ops.horizon, key, Debt(units, until * NANOS_PER_MILLI), n, now);
    }
  }
}

/** Exactly when reading ahead leaves a store safe (src/store.rs:339-356): for the
    sliding log and the sliding counter eviction never resets a limit if and only
    if every period outlasts the millisecond that `first_hint` reads ahead. */
module StoreAhead {
  import opened Units
  import Division
  import opened Probe
  import SlidingLog
  import SlidingCounter
  import opened KeyLaws
  import KeyLog
  import KeyCounter
  import opened Shard
  import opened ShardSafety
  import opened ShardRuns
  import opened ShardAhead

  /** In every run, over every set of keys the table tells apart, the never-evicted
      map grants what the shard grants. */
  ghost predicate AlwaysAgrees<S(!new)>(c: Config<S>)
    requires Sound(c.g)
  {
    forall keys: set<nat>, events: seq<Event>, states: seq<Sim<S>>, i: nat
      {:trigger Run(c, keys, events, states), states[i]} ::
      Distinct(c, keys) && Run(c, keys, events, states) && i < |states| ==> states[i].agreed
  }

  lemma LawfulAgrees<S(!new)>(c: Config<S>)
    requires Sound(c.g) && Lawful(c.ops) && c.cap >= 1 && !c.forget && c.ops.horizon <= LAST
    ensures AlwaysAgrees(c)
  {
    hide Orderly, FirstLaw, Run, Sound, Distinct;
    forall keys: set<nat>, events: seq<Event>, states: seq<Sim<S>>, i: nat
      | Distinct(c, keys) && Run(c, keys, events, states) && i < |states|
      ensures states[i].agreed
    {
      RunKeepsInv(c, keys, events, states, i);
    }
  }

  lemma RunLength<S(!new)>(c: Config<S>, keys: set<nat>, events: seq<Event>, states: seq<Sim<S>>)
    requires Sound(c.g) && Run(c, keys, events, states)
    ensures |states| == |events| + 1
  {
  }

  lemma ForgettingDisagrees<S(!new)>(c: Config<S>, k: nat, n: nat, now: nat)
    requires Sound(c.g) && c.cap >= 1 && n <= U32_MAX && now + NANOS_PER_MILLI < c.ops.horizon
             && Forgets(c.ops, k, n, now)
    ensures !AlwaysAgrees(c)
  {
    hide Forgets, Run, Sound;
    var states := TwoChecksDisagree(c, k, n, now);
    assert Distinct(c, {k});
    RunLength(c, {k}, [Ask(k, n, now), Ask(k, n, now)], states);
    assert !states[2].agreed;
  }

  // ----------------------------------------------------------- the sliding log

  /** A first request on the millisecond, over within it, is forgotten. */
  lemma ShortLogForgets(quota: nat -> SlidingLog.Quota, horizon: nat, k: nat)
    requires KeyLog.QuotasFit(quota, horizon) && horizon > 2 * NANOS_PER_MILLI
    requires KeyLog.Open(quota(k)) && quota(k).period <= NANOS_PER_MILLI
    ensures Forgets(KeyLog.Ops(quota, horizon), k, quota(k).limit, 0)
  {
    var q, b := quota(k), NANOS_PER_MILLI;
    KeyLog.FitsHere(quota, horizon, k);
    KeyLog.Starts(quota, k, 0);
    var f := KeyLog.Create(quota, k).value;
    KeyLog.Charges(quota, horizon, k, f, q.limit, 0);
    var s := KeyLog.Acquire(f, q.limit, 0).1;
    KeyLog.AcquireKeepsQuota(f, q.limit, 0);
    KeyLog.ReadingAheadIsHarmlessIff(f, q.limit, 0, b);
    KeyLog.ValidLater(quota, horizon, k, s, 0, b);
    KeyLog.Owes(quota, horizon, k, s, b);
    KeyLog.Charges(quota, horizon, k, s, q.limit, 0);
    assert KeyLog.Load(s, b) == 0;
    hide KeyLog.QuotasFit, KeyLog.Acquire, KeyLog.DebtOf, KeyLog.Look, KeyLog.Valid, KeyLog.Load, KeyLog.End;
    assert NextMilli(0) == b;
  }

  /** So two checks in one instant are granted twice the limit. */
  lemma ShortLogGrantsTwice(c: Config<KeyLog.Cell>, quota: nat -> SlidingLog.Quota, k: nat)
    returns (states: seq<Sim<KeyLog.Cell>>)
    requires Sound(c.g) && c.cap >= 1 && 2 * NANOS_PER_MILLI < c.ops.horizon <= LAST
    requires c.ops == KeyLog.Ops(quota, c.ops.horizon) && KeyLog.QuotasFit(quota, c.ops.horizon)
    requires KeyLog.Open(quota(k)) && quota(k).period <= NANOS_PER_MILLI
    ensures var ask := Ask(k, quota(k).limit, 0);
            var grant := Grant(k, quota(k).limit, 0);
            Run(c, {k}, [ask, ask], states) && |states| == 3 && states[2].granted == [grant, grant]
  {
    hide KeyLog.QuotasFit, KeyLog.Ops, Sound, Forgets;
    KeyLog.FitsHere(quota, c.ops.horizon, k);
    ShortLogForgets(quota, c.ops.horizon, k);
    states := TwoChecksDisagree(c, k, quota(k).limit, 0);
  }

  /** For the sliding log, eviction never resets a limit exactly if every period
      exceeds a millisecond. */
  lemma LogStoreAgreesIff(c: Config<KeyLog.Cell>, quota: nat -> SlidingLog.Quota)
    requires Sound(c.g) && c.cap >= 1 && !c.forget && 2 * NANOS_PER_MILLI < c.ops.horizon <= LAST
    requires c.ops == KeyLog.Ops(quota, c.ops.horizon) && KeyLog.QuotasFit(quota, c.ops.horizon)
    ensures AlwaysAgrees(c) <==> KeyLog.PeriodsOutlast(quota)
  {
    hide Orderly, FirstLaw, KeyLog.QuotasFit, KeyLog.Ops, Sound, AlwaysAgrees, Forgets;
    KeyLog.LogIsLawfulIff(quota, c.ops.horizon);
    if KeyLog.PeriodsOutlast(quota) {
      LawfulAgrees(c);
    } else {
      var k: nat :| KeyLog.Open(quota(k)) && quota(k).period <= NANOS_PER_MILLI;
      KeyLog.FitsHere(quota, c.ops.horizon, k);
      ShortLogForgets(quota, c.ops.horizon, k);
      ForgettingDisagrees(c, k, quota(k).limit, 0);
    }
  }

  // ------------------------------------------------------- the sliding counter

  /** A whole limit granted leaves no room for another. */
  lemma FullWeighs(f: KeyCounter.Cell, s: KeyCounter.Cell, now: nat)
    requires SlidingCounter.Usable(f.q) && f.counts == SlidingCounter.Counts(now / f.q.period, 0, 0) && now <= U64_MAX
    requires s == KeyCounter.Acquire(f, f.q.limit, now).1
    ensures s.q == f.q && !SlidingCounter.FitsAt(s.q, s.counts, s.q.limit, now)
  {
    KeyCounter.FirstIs(f, f.q.limit, now);
    SlidingCounter.WindowNumber(f.q, now);
    SlidingCounter.Boundaries(f.q, now / f.q.period);
    KeyCounter.CurrWeighs(s, now);
    Division.MulMonotone(1, f.q.limit, f.q.period);
    hide SlidingCounter.Weight, KeyCounter.Acquire;
  }

  lemma ShortCounterForgets(quota: nat -> SlidingCounter.Quota, horizon: nat, k: nat)
    requires KeyCounter.QuotasFit(quota, horizon) && horizon > NANOS_PER_MILLI * NANOS_PER_MILLI + NANOS_PER_MILLI
    requires KeyCounter.Open(quota(k)) && quota(k).period < NANOS_PER_MILLI
    ensures Forgets(KeyCounter.Ops(quota, horizon), k, quota(k).limit, KeyCounter.BadReading(quota(k)))
  {
    var q := quota(k);
    var now, b := KeyCounter.BadReading(q), q.period * NANOS_PER_MILLI;
    KeyCounter.FitsHere(quota, horizon, k);
    KeyCounter.BadReadingIsBad(q);
    KeyCounter.Starts(quota, horizon, k, now);
    var f := KeyCounter.Create(quota, k, now).value;
    KeyCounter.Charges(quota, horizon, k, f, q.limit, now);
    var s := KeyCounter.Acquire(f, q.limit, now).1;
    KeyCounter.ReadingAheadIsHarmlessIff(f, q.limit, now, b);
    KeyCounter.ValidLater(quota, horizon, k, s, now, b);
    KeyCounter.Owes(quota, horizon, k, s, b);
    KeyCounter.Charges(quota, horizon, k, s, q.limit, now);
    KeyCounter.Looks(quota, horizon, k, s, b);
    FullWeighs(f, s, now);
    hide KeyCounter.QuotasFit, KeyCounter.Acquire, KeyCounter.DebtOf, KeyCounter.Look, KeyCounter.Valid,
      KeyCounter.Load, KeyCounter.End, KeyCounter.BadReading, KeyCounter.Create, SlidingCounter.FitsAt;
    assert NextMilli(now) == b;
  }

  /** So two checks in one instant are granted twice the limit. */
  lemma ShortCounterGrantsTwice(c: Config<KeyCounter.Cell>, quota: nat -> SlidingCounter.Quota, k: nat)
    returns (states: seq<Sim<KeyCounter.Cell>>)
    requires Sound(c.g) && c.cap >= 1
    requires NANOS_PER_MILLI * NANOS_PER_MILLI + NANOS_PER_MILLI < c.ops.horizon <= LAST
    requires c.ops == KeyCounter.Ops(quota, c.ops.horizon) && KeyCounter.QuotasFit(quota, c.ops.horizon)
    requires KeyCounter.Open(quota(k)) && quota(k).period < NANOS_PER_MILLI
    ensures var now := KeyCounter.BadReading(quota(k));
            var ask := Ask(k, quota(k).limit, now);
            var grant := Grant(k, quota(k).limit, now);
            Run(c, {k}, [ask, ask], states) && |states| == 3 && states[2].granted == [grant, grant]
  {
    hide KeyCounter.QuotasFit, KeyCounter.Ops, Sound, Forgets, KeyCounter.BadReading;
    KeyCounter.FitsHere(quota, c.ops.horizon, k);
    KeyCounter.BadReadingIsBad(quota(k));
    ShortCounterForgets(quota, c.ops.horizon, k);
    states := TwoChecksDisagree(c, k, quota(k).limit, KeyCounter.BadReading(quota(k)));
  }

  /** For the sliding counter, exactly if every period is at least a millisecond. */
  lemma CounterStoreAgreesIff(c: Config<KeyCounter.Cell>, quota: nat -> SlidingCounter.Quota)
    requires Sound(c.g) && c.cap >= 1 && !c.forget
    requires NANOS_PER_MILLI * NANOS_PER_MILLI + NANOS_PER_MILLI < c.ops.horizon <= LAST
    requires c.ops == KeyCounter.Ops(quota, c.ops.horizon) && KeyCounter.QuotasFit(quota, c.ops.horizon)
    ensures AlwaysAgrees(c) <==> KeyCounter.PeriodsOutlast(quota)
  {
    hide Orderly, FirstLaw, KeyCounter.QuotasFit, KeyCounter.Ops, Sound, AlwaysAgrees, Forgets, KeyCounter.BadReading;
    KeyCounter.CounterIsLawfulIff(quota, c.ops.horizon);
    if KeyCounter.PeriodsOutlast(quota) {
      LawfulAgrees(c);
    } else {
      var k: nat :| KeyCounter.Open(quota(k)) && quota(k).period < NANOS_PER_MILLI;
      KeyCounter.FitsHere(quota, c.ops.horizon, k);
      KeyCounter.BadReadingIsBad(quota(k));
      ShortCounterForgets(quota, c.ops.horizon, k);
      ForgettingDisagrees(c, k, quota(k).limit, KeyCounter.BadReading(quota(k)));
    }
  }
}

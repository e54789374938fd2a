/** The main theorems for each algorithm of the crate, over the crate's own hash
    probe: nothing left abstract but the clock, the keys and the hasher. */
module Algorithms {
  import opened Units
  import opened Probe
  import Gcra
  import FixedWindow
  import SlidingLog
  import SlidingLogRuns
  import SlidingCounter
  import SlidingCounterRuns
  import opened KeyLaws
  import KeyGcra
  import KeyWindow
  import KeyLog
  import KeyCounter
  import opened KeyRuns
  import opened Shard
  import opened ShardSafety
  import opened ShardRuns
  import opened StoreKeys
  import StoreGcra
  import StoreWindows

  /** A store as the crate builds it: the crate's probe over powers of two (sound
      by `ProbeIsSound`), a cap, FailClosed, and keys whose hashes give them
      distinct table identities. */
  ghost predicate Built<S(!new)>(c: Config<S>, keys: set<nat>, kb: nat, kc: nat) {
    && kb >= 1 && kc >= 1 && c.g == ProbeGeometry(kb, kc) && Sound(c.g) && !c.forget && c.cap >= 1
    && c.ops.horizon <= LAST && Distinct(c, keys)
  }

  lemma BuiltIsSetting<S(!new)>(c: Config<S>, keys: set<nat>, kb: nat, kc: nat)
    requires Built(c, keys, kb, kc) && Lawful(c.ops)
    ensures Setting(c, keys)
  {
  }

  // --------------------------------------------------- eviction, by algorithm

  /** GCRA: each key's rate bound survives eviction, in its quota's own terms. */
  lemma GcraStoreIsSafe(c: Config<KeyGcra.Cell>, keys: set<nat>, kb: nat, kc: nat, quota: nat -> Gcra.Quota,
                        events: seq<Event>, states: seq<Sim<KeyGcra.Cell>>, i: nat, k: nat, from: nat, to: nat)
    requires Built(c, keys, kb, kc) && Run(c, keys, events, states) && i < |states| && from <= to
    requires c.ops == KeyGcra.Ops(quota, c.ops.horizon) && KeyGcra.QuotasFit(quota, c.ops.horizon)
    ensures states[i].agreed && |states[i].shard.slots| <= c.cap
    ensures var q, h := quota(k), GrantsTo(states[i].granted, k);
            if q.limit == 0 || q.period == 0 || q.burst == 0 then h == []
            else StoreGcra.GrantedBetween(h, from, to) + Gcra.Emitted(q, from) <= q.burst + Gcra.Emitted(q, to)
  {
    hide KeyGcra.QuotasFit, Orderly, FirstLaw, Run, Sound, Distinct, KeyGcra.Ops, ShardSafety.Inv;
    KeyGcra.GcraIsLawful(quota, c.ops.horizon);
    BuiltIsSetting(c, keys, kb, kc);
    EvictionNeverResets(c, keys, events, states, i);
    StoreGcra.StoreNeverOverAdmits(c, keys, quota, events, states, i, k, from, to);
  }

  /** Fixed window: no window grants a key more than its limit. */
  lemma WindowStoreIsSafe(c: Config<KeyWindow.Cell>, keys: set<nat>, kb: nat, kc: nat, quota: nat -> FixedWindow.Quota,
                          events: seq<Event>, states: seq<Sim<KeyWindow.Cell>>, i: nat, k: nat, w: nat)
    requires Built(c, keys, kb, kc) && Run(c, keys, events, states) && i < |states|
    requires c.ops == KeyWindow.Ops(quota, c.ops.horizon) && KeyWindow.QuotasFit(quota, c.ops.horizon)
    ensures states[i].agreed && |states[i].shard.slots| <= c.cap
    ensures StoreWindows.GrantedIn(quota(k), GrantsTo(states[i].granted, k), w) <= quota(k).limit
    ensures quota(k).limit == 0 || quota(k).period == 0 ==> GrantsTo(states[i].granted, k) == []
  {
    hide KeyWindow.QuotasFit, Orderly, FirstLaw, Run, Sound, Distinct, KeyWindow.Ops;
    KeyWindow.WindowIsLawful(quota, c.ops.horizon);
    BuiltIsSetting(c, keys, kb, kc);
    EvictionNeverResets(c, keys, events, states, i);
    StoreWindows.NoWindowOverAdmits(c, keys, quota, events, states, i, k, w);
    StoreWindows.ClosedWindowGrantsNothing(c, keys, quota, events, states, i, k);
  }

  /** Sliding log: no rolling window of one period grants a key more than its
      limit, if every period outlasts a read ahead. */
  lemma LogStoreIsSafe(c: Config<KeyLog.Cell>, keys: set<nat>, kb: nat, kc: nat, quota: nat -> SlidingLog.Quota,
                       events: seq<Event>, states: seq<Sim<KeyLog.Cell>>, i: nat, k: nat, x: nat)
    requires Built(c, keys, kb, kc) && Run(c, keys, events, states) && i < |states|
    requires c.ops == KeyLog.Ops(quota, c.ops.horizon) && KeyLog.QuotasFit(quota, c.ops.horizon)
    requires KeyLog.PeriodsOutlast(quota)
    ensures states[i].agreed && |states[i].shard.slots| <= c.cap
    ensures SlidingLogRuns.Rolling(StoreWindows.LogStamps(GrantsTo(states[i].granted, k)), x, quota(k).period)
              <= quota(k).limit
    ensures quota(k).limit == 0 || quota(k).period == 0 ==> GrantsTo(states[i].granted, k) == []
  {
    hide KeyLog.QuotasFit, Orderly, FirstLaw, Run, Sound, Distinct, KeyLog.Ops, KeyLog.PeriodsOutlast;
    KeyLog.LogIsLawful(quota, c.ops.horizon);
    BuiltIsSetting(c, keys, kb, kc);
    EvictionNeverResets(c, keys, events, states, i);
    StoreWindows.NoRollingWindowOverAdmits(c, keys, quota, events, states, i, k, x);
    StoreWindows.ClosedLogGrantsNothing(c, keys, quota, events, states, i, k);
  }

  /** Sliding counter: no rolling window reaches twice the limit, if every period
      outlasts a read ahead. */
  lemma CounterStoreIsSafe(c: Config<KeyCounter.Cell>, keys: set<nat>, kb: nat, kc: nat,
                           quota: nat -> SlidingCounter.Quota,
                           events: seq<Event>, states: seq<Sim<KeyCounter.Cell>>, i: nat, k: nat, v: nat, o: nat)
    requires Built(c, keys, kb, kc) && Run(c, keys, events, states) && i < |states|
    requires c.ops == KeyCounter.Ops(quota, c.ops.horizon) && KeyCounter.QuotasFit(quota, c.ops.horizon)
    requires KeyCounter.PeriodsOutlast(quota)
    ensures states[i].agreed && |states[i].shard.slots| <= c.cap
    ensures var q, h := quota(k), GrantsTo(states[i].granted, k);
            if q.limit == 0 || q.period == 0 then h == []
            else o < q.period ==> SlidingCounterRuns.InRolling(StoreWindows.CounterStamps(q, h), v, o) < 2 * q.limit
  {
    hide KeyCounter.QuotasFit, Orderly, FirstLaw, Run, Sound, Distinct, KeyCounter.Ops, KeyCounter.PeriodsOutlast;
    KeyCounter.CounterIsLawful(quota, c.ops.horizon);
    BuiltIsSetting(c, keys, kb, kc);
    EvictionNeverResets(c, keys, events, states, i);
    StoreWindows.ClosedCounterGrantsNothing(c, keys, quota, events, states, i, k);
    if KeyCounter.Open(quota(k)) && o < quota(k).period {
      StoreWindows.NoRollingWindowReachesTwiceTheLimit(c, keys, quota, events, states, i, k, v, o);
    }
  }

  /** What a store answers for a key that can have no state is what each algorithm
      itself answers for such a quota, whatever state it is in. */
  lemma ClosedAnswersAlike(n: nat, now: nat, g: Gcra.Quota, tat: nat, w: FixedWindow.Quota, words: FixedWindow.Words,
                           l: SlidingLog.Quota, log: SlidingLog.Log, s: SlidingCounter.Quota,
                           counts: SlidingCounter.Counts)
    requires g.limit <= U32_MAX && g.burst <= U32_MAX
    ensures g.limit == 0 || g.period == 0 || g.burst == 0 ==>
              Gcra.Closed(Gcra.New(g)) && Gcra.CheckN(Gcra.New(g), tat, n, now).0 == ClosedDecision(n)
    ensures w.limit == 0 || w.period == 0 ==> FixedWindow.Acquire(w, words, n, now).0 == ClosedDecision(n)
    ensures l.limit == 0 || l.period == 0 ==> SlidingLog.Acquire(l, log, n, now).0 == ClosedDecision(n)
    ensures s.limit == 0 || s.period == 0 ==> SlidingCounter.Acquire(s, counts, n, now).0 == ClosedDecision(n)
  {
    Gcra.NewIsClosedIff(g);
  }

  // ------------------------------------------------------ restore, by algorithm

  /** A debt whose deadline has passed is not charged. */
  lemma PaidDebtChangesNothing(d: Debt, now: nat, g: KeyGcra.Cell, w: KeyWindow.Cell, l: KeyLog.Cell,
                               s: KeyCounter.Cell)
    requires d.until <= now
    ensures KeyGcra.Restore(g, d, now) == g && KeyWindow.Restore(w, d, now) == w
    ensures KeyLog.Restore(l, d, now) == l && KeyCounter.Restore(s, d, now) == s
  {
  }

  /** For the windows, the default `restore` charged at least what was owed. */
  lemma WindowRestoreIsNeverLooser(quota: nat -> FixedWindow.Quota, horizon: nat, k: nat, s: KeyWindow.Cell,
                                   charge: Debt, now: nat, requests: seq<Request>)
    requires KeyWindow.QuotasFit(quota, horizon) && now < horizon && KeyWindow.Valid(quota, k, s, now)
    requires KeyWindow.Create(quota, k, now).Some? && Timely(now, horizon, requests) && charge.spent <= U32_MAX
    requires KeyWindow.DebtOf(s, now).Some? ==>
               charge.spent >= KeyWindow.DebtOf(s, now).value.spent
                 && charge.until >= KeyWindow.DebtOf(s, now).value.until
    ensures GrantsOnlyWhat(KeyWindow.Ops(quota, horizon),
            KeyWindow.Restore(KeyWindow.Create(quota, k, now).value, charge, now), s, requests)
  {
    hide KeyWindow.QuotasFit, Orderly, FirstLaw, KeyWindow.Valid, KeyWindow.Create, KeyWindow.DebtOf,
      KeyWindow.Restore, GrantsOnlyWhat, Timely;
    KeyWindow.WindowIsLawful(quota, horizon);
    RestoreIsNeverLooser(KeyWindow.Ops(quota, horizon), k, s, charge, now, requests);
  }

  lemma LogRestoreIsNeverLooser(quota: nat -> SlidingLog.Quota, horizon: nat, k: nat, s: KeyLog.Cell, charge: Debt,
                                now: nat, requests: seq<Request>)
    requires KeyLog.QuotasFit(quota, horizon) && now < horizon && KeyLog.Valid(quota, k, s, now)
    requires KeyLog.Create(quota, k).Some? && Timely(now, horizon, requests) && charge.spent <= U32_MAX
    requires KeyLog.DebtOf(s, now).Some? ==>
               charge.spent >= KeyLog.DebtOf(s, now).value.spent && charge.until >= KeyLog.DebtOf(s, now).value.until
    ensures GrantsOnlyWhat(KeyLog.Ops(quota, horizon), KeyLog.Restore(KeyLog.Create(quota, k).value, charge, now),
            s, requests)
  {
    hide KeyLog.QuotasFit, Orderly, FirstLaw, KeyLog.Valid, KeyLog.Create, KeyLog.DebtOf, KeyLog.Restore,
      GrantsOnlyWhat, Timely;
    KeyLog.LogIsOrderly(quota, horizon);
    RestoreIsNeverLooser(KeyLog.Ops(quota, horizon), k, s, charge, now, requests);
  }

  lemma CounterRestoreIsNeverLooser(quota: nat -> SlidingCounter.Quota, horizon: nat, k: nat, s: KeyCounter.Cell,
                                    charge: Debt, now: nat, requests: seq<Request>)
    requires KeyCounter.QuotasFit(quota, horizon) && now < horizon && KeyCounter.Valid(quota, k, s, now)
             && KeyCounter.Native(s, now)
    requires KeyCounter.Create(quota, k, now).Some? && Timely(now, horizon, requests) && charge.spent <= U32_MAX
    requires KeyCounter.DebtOf(s, now).Some? ==>
               charge.spent >= KeyCounter.DebtOf(s, now).value.spent
                 && charge.until >= KeyCounter.DebtOf(s, now).value.until
    ensures GrantsOnlyWhat(KeyCounter.Ops(quota, horizon),
            KeyCounter.Restore(KeyCounter.Create(quota, k, now).value, charge, now), s, requests)
  {
    hide KeyCounter.QuotasFit, Orderly, FirstLaw, KeyCounter.Valid, KeyCounter.Native, KeyCounter.Create,
      KeyCounter.DebtOf, KeyCounter.Restore, GrantsOnlyWhat, Timely;
    KeyCounter.CounterIsOrderly(quota, horizon);
    RestoreIsNeverLooser(KeyCounter.Ops(quota, horizon), k, s, charge, now, requests);
  }
}

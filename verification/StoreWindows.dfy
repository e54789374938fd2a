/** What the window algorithms promise a key, through the store: however often the
    key is evicted and comes back, no fixed window grants it more than its limit,
    no rolling window of the log does, and none of the counter reaches twice it. */
module StoreWindows {
  import opened Units
  import Division
  import FixedWindow
  import SlidingLog
  import SlidingLogRuns
  import SlidingCounter
  import SlidingCounterRuns
  import KeyWindow
  import KeyLog
  import KeyCounter
  import opened KeyRuns
  import opened Shard
  import opened ShardSafety
  import opened ShardRuns
  import opened StoreKeys

  // --------------------------------------------------------- the fixed window

  /** Units granted on readings in window `w`. */
  function GrantedIn(q: FixedWindow.Quota, h: seq<Request>, w: nat): nat {
    if h == [] then 0
    else
      var g := h[|h| - 1];
      GrantedIn(q, h[..|h| - 1], w) + if FixedWindow.WindowOf(q, g.at) == w then g.n else 0
  }

  lemma GrantedAppend(q: FixedWindow.Quota, h: seq<Request>, g: Request, w: nat)
    ensures GrantedIn(q, h + [g], w) == GrantedIn(q, h, w) + if FixedWindow.WindowOf(q, g.at) == w then g.n else 0
  {
    assert (h + [g])[..|h|] == h;
  }

  /** No window is over the limit, this one's grants are in its count, and no
      later one has any. */
  ghost predicate WindowsKept(q: FixedWindow.Quota, h: seq<Request>, s: KeyWindow.Cell, now: nat) {
    && (forall w: nat :: GrantedIn(q, h, w) <= q.limit)
    && (forall w: nat :: w > FixedWindow.WindowOf(q, now) ==> GrantedIn(q, h, w) == 0)
    && GrantedIn(q, h, FixedWindow.WindowOf(q, now)) <= KeyWindow.Used(s, now)
  }

  lemma WindowsLast(quota: nat -> FixedWindow.Quota, k: nat, h: seq<Request>, s: KeyWindow.Cell, now: nat, t: nat)
    requires WindowsKept(quota(k), h, s, now) && KeyWindow.Valid(quota, k, s, now) && now <= t
    ensures WindowsKept(quota(k), h, s, t)
  {
    KeyWindow.UsedLater(quota, k, s, now, t);
    KeyWindow.WindowEnds(s.q, now, t);
    hide GrantedIn, KeyWindow.Valid, KeyWindow.Used, FixedWindow.WindowOf;
  }

  lemma WindowsGrow(quota: nat -> FixedWindow.Quota, horizon: nat, k: nat, h: seq<Request>, s: KeyWindow.Cell,
                    now: nat, n: nat)
    requires WindowsKept(quota(k), h, s, now) && KeyWindow.Valid(quota, k, s, now) && now < horizon
    requires KeyWindow.QuotasFit(quota, horizon) && KeyWindow.Acquire(s, n, now).0 == Allow
    ensures WindowsKept(quota(k), if n > 0 then h + [Request(n, now)] else h, KeyWindow.Acquire(s, n, now).1, now)
  {
    KeyWindow.Charges(quota, horizon, k, s, n, now);
    KeyWindow.ValidPeriod(quota, k, s, now);
    var q := quota(k);
    hide GrantedIn, KeyWindow.Valid, KeyWindow.Used, FixedWindow.WindowOf, KeyWindow.Acquire, KeyWindow.QuotasFit;
    if n > 0 {
      forall w: nat
        ensures GrantedIn(q, h + [Request(n, now)], w) == GrantedIn(q, h, w) +
                if FixedWindow.WindowOf(q, now) == w then n else 0
      {
        GrantedAppend(q, h, Request(n, now), w);
      }
    }
  }

  ghost function Windows(q: FixedWindow.Quota): Property<KeyWindow.Cell> {
    (h: seq<Request>, s: KeyWindow.Cell, now: nat) => WindowsKept(q, h, s, now)
  }

  lemma NothingGranted(q: FixedWindow.Quota, s: KeyWindow.Cell, now: nat)
    ensures WindowsKept(q, [], s, now)
  {
  }

  lemma WindowsAreInductive(quota: nat -> FixedWindow.Quota, horizon: nat, k: nat)
    requires KeyWindow.QuotasFit(quota, horizon)
    ensures Inductive(KeyWindow.Ops(quota, horizon), k, Windows(quota(k)))
  {
    hide KeyWindow.QuotasFit, KeyWindow.Acquire, KeyWindow.Valid, KeyWindow.DebtOf, KeyWindow.Restore, KeyWindow.Create,
      WindowsKept;
    var q := quota(k);
    forall s: KeyWindow.Cell, now: nat ensures WindowsKept(q, [], s, now) {
      NothingGranted(q, s, now);
    }
    forall h: seq<Request>, s: KeyWindow.Cell, now: nat, t: nat
      {:trigger WindowsKept(q, h, s, now), WindowsKept(q, h, s, t)}
      | WindowsKept(q, h, s, now) && KeyWindow.Valid(quota, k, s, now) && now <= t
      ensures WindowsKept(q, h, s, t)
    {
      WindowsLast(quota, k, h, s, now, t);
    }
    forall h: seq<Request>, s: KeyWindow.Cell, now: nat, n: nat
      | WindowsKept(q, h, s, now) && KeyWindow.Valid(quota, k, s, now) && now < horizon
        && KeyWindow.Acquire(s, n, now).0 == Allow
      ensures WindowsKept(q, if n > 0 then h + [Request(n, now)] else h, KeyWindow.Acquire(s, n, now).1, now)
    {
      WindowsGrow(quota, horizon, k, h, s, now, n);
    }
  }

  /** No fixed window grants a key more than its limit, through any evictions. */
  lemma NoWindowOverAdmits(c: Config<KeyWindow.Cell>, keys: set<nat>, quota: nat -> FixedWindow.Quota,
                           events: seq<Event>, states: seq<Sim<KeyWindow.Cell>>, i: nat, k: nat, w: nat)
    requires Setting(c, keys) && !c.forget && Run(c, keys, events, states) && i < |states|
    requires c.ops == KeyWindow.Ops(quota, c.ops.horizon) && KeyWindow.QuotasFit(quota, c.ops.horizon)
    ensures GrantedIn(quota(k), GrantsTo(states[i].granted, k), w) <= quota(k).limit
  {
    WindowsAreInductive(quota, c.ops.horizon, k);
    GrantsHold(c, keys, Windows(quota(k)), events, states, i, k);
    hide Setting, Run, KeyWindow.QuotasFit, Inductive, KeyWindow.Ops, GrantsTo;
    if k in states[i].ideal {
      assert WindowsKept(quota(k), GrantsTo(states[i].granted, k), states[i].ideal[k], states[i].now);
    }
  }

  /** A quota with a zero limit or period is granted nothing at all. */
  lemma ClosedWindowGrantsNothing(c: Config<KeyWindow.Cell>, keys: set<nat>, quota: nat -> FixedWindow.Quota,
                                  events: seq<Event>,
                                  states: seq<Sim<KeyWindow.Cell>>, i: nat, k: nat)
    requires Setting(c, keys) && !c.forget && Run(c, keys, events, states) && i < |states|
    requires c.ops == KeyWindow.Ops(quota, c.ops.horizon)
    ensures quota(k).limit == 0 || quota(k).period == 0 ==> GrantsTo(states[i].granted, k) == []
  {
    hide Setting, Run, KeyWindow.Create;
    if quota(k).limit == 0 || quota(k).period == 0 {
      forall now: nat ensures KeyWindow.Create(quota, k, now).None? { KeyWindow.CreateIff(quota, k, now); }
      NoStateNoGrants(c, keys, events, states, i, k);
    }
  }

  // ----------------------------------------------------------- the sliding log

  function LogStamps(h: seq<Request>): seq<SlidingLogRuns.Stamp> {
    if h == [] then [] else LogStamps(h[..|h| - 1]) + [SlidingLogRuns.Stamp(h[|h| - 1].at, h[|h| - 1].n)]
  }

  lemma LogStampsAppend(h: seq<Request>, g: Request)
    ensures LogStamps(h + [g]) == LogStamps(h) + [SlidingLogRuns.Stamp(g.at, g.n)]
  {
    assert (h + [g])[..|h|] == h;
  }

  /** No rolling window is over the limit, and what is live is in the log. */
  ghost predicate RollingKept(q: SlidingLog.Quota, h: seq<Request>, s: KeyLog.Cell, now: nat) {
    && SlidingLogRuns.RollingBound(q, LogStamps(h))
    && (forall t: nat :: now <= t ==> SlidingLogRuns.Live(LogStamps(h), t, q.period) <= KeyLog.Load(s, t))
  }

  lemma RollingAdmits(q: SlidingLog.Quota, h: seq<SlidingLogRuns.Stamp>, now: nat, n: nat)
    requires SlidingLogRuns.RollingBound(q, h) && SlidingLogRuns.Live(h, now, q.period) + n <= q.limit
    ensures SlidingLogRuns.RollingBound(q, h + [SlidingLogRuns.Stamp(now, n)])
  {
    assert [] + h == h;
    SlidingLogRuns.AdmitKeepsRollingBound(q, [], h, now, n);
  }

  lemma LiveGrows(h: seq<Request>, n: nat, now: nat, t: nat, period: nat)
    ensures SlidingLogRuns.Live(LogStamps(h + [Request(n, now)]), t, period) ==
              SlidingLogRuns.Live(LogStamps(h), t, period) + if now + period > t then n else 0
  {
    hide LogStamps, SlidingLogRuns.Live;
    LogStampsAppend(h, Request(n, now));
    SlidingLogRuns.Append(LogStamps(h), SlidingLogRuns.Stamp(now, n), 0, t, period);
  }

  /** Units granted and charged alike keep both clauses. */
  lemma RollingCharged(q: SlidingLog.Quota, h: seq<Request>, s: KeyLog.Cell, s': KeyLog.Cell, now: nat, n: nat)
    requires RollingKept(q, h, s, now) && KeyLog.Load(s, now) + n <= q.limit
    requires forall t: nat :: now <= t ==>
               KeyLog.Load(s', t) == KeyLog.Load(s, t) + if now + q.period > t then n else 0
    ensures RollingKept(q, h + [Request(n, now)], s', now)
  {
    hide KeyLog.Load, LogStamps, SlidingLogRuns.Live, SlidingLogRuns.RollingBound;
    LogStampsAppend(h, Request(n, now));
    RollingAdmits(q, LogStamps(h), now, n);
    forall t: nat | now <= t
      ensures SlidingLogRuns.Live(LogStamps(h + [Request(n, now)]), t, q.period) <= KeyLog.Load(s', t)
    {
      LiveGrows(h, n, now, t, q.period);
    }
  }

  lemma RollingGrows(quota: nat -> SlidingLog.Quota, horizon: nat, k: nat, h: seq<Request>, s: KeyLog.Cell, now: nat,
                     n: nat)
    requires RollingKept(quota(k), h, s, now) && KeyLog.Valid(quota, k, s, now) && now < horizon
    requires KeyLog.QuotasFit(quota, horizon) && KeyLog.Acquire(s, n, now).0 == Allow
    ensures RollingKept(quota(k), if n > 0 then h + [Request(n, now)] else h, KeyLog.Acquire(s, n, now).1, now)
  {
    hide KeyLog.Valid, KeyLog.Load, KeyLog.Acquire, KeyLog.QuotasFit, LogStamps, SlidingLogRuns.Live,
      SlidingLogRuns.RollingBound;
    KeyLog.Charges(quota, horizon, k, s, n, now);
    KeyLog.ValidQuota(quota, k, s, now);
    if n > 0 {
      RollingCharged(quota(k), h, s, KeyLog.Acquire(s, n, now).1, now, n);
    }
  }

  ghost function RollingLog(q: SlidingLog.Quota): Property<KeyLog.Cell> {
    (h: seq<Request>, s: KeyLog.Cell, now: nat) => RollingKept(q, h, s, now)
  }

  lemma NothingRolling(q: SlidingLog.Quota, s: KeyLog.Cell, now: nat)
    ensures RollingKept(q, [], s, now)
  {
    hide KeyLog.Load;
  }

  lemma RollingLasts(q: SlidingLog.Quota, h: seq<Request>, s: KeyLog.Cell, now: nat, t: nat)
    requires RollingKept(q, h, s, now) && now <= t
    ensures RollingKept(q, h, s, t)
  {
    hide KeyLog.Load, SlidingLogRuns.RollingBound;
  }

  lemma RollingIsInductive(quota: nat -> SlidingLog.Quota, horizon: nat, k: nat)
    requires KeyLog.QuotasFit(quota, horizon)
    ensures Inductive(KeyLog.Ops(quota, horizon), k, RollingLog(quota(k)))
  {
    hide KeyLog.QuotasFit, KeyLog.Acquire, KeyLog.Valid, KeyLog.DebtOf, KeyLog.Restore, KeyLog.Create,
      KeyLog.Look, RollingKept;
    var q := quota(k);
    forall s: KeyLog.Cell, now: nat ensures RollingKept(q, [], s, now) {
      NothingRolling(q, s, now);
    }
    forall h: seq<Request>, s: KeyLog.Cell, now: nat, t: nat
      {:trigger RollingKept(q, h, s, now), RollingKept(q, h, s, t)} | RollingKept(q, h, s, now) && now <= t
      ensures RollingKept(q, h, s, t)
    {
      RollingLasts(q, h, s, now, t);
    }
    forall h: seq<Request>, s: KeyLog.Cell, now: nat, n: nat
      | RollingKept(q, h, s, now) && KeyLog.Valid(quota, k, s, now) && now < horizon
        && KeyLog.Acquire(s, n, now).0 == Allow
      ensures RollingKept(q, if n > 0 then h + [Request(n, now)] else h, KeyLog.Acquire(s, n, now).1, now)
    {
      RollingGrows(quota, horizon, k, h, s, now, n);
    }
  }

  /** No rolling window of one period grants a key more than its limit, through
      any evictions. */
  lemma NoRollingWindowOverAdmits(c: Config<KeyLog.Cell>, keys: set<nat>, quota: nat -> SlidingLog.Quota,
                                  events: seq<Event>, states: seq<Sim<KeyLog.Cell>>, i: nat, k: nat, x: nat)
    requires Setting(c, keys) && !c.forget && Run(c, keys, events, states) && i < |states|
    requires c.ops == KeyLog.Ops(quota, c.ops.horizon) && KeyLog.QuotasFit(quota, c.ops.horizon)
    ensures SlidingLogRuns.Rolling(LogStamps(GrantsTo(states[i].granted, k)), x, quota(k).period) <= quota(k).limit
  {
    RollingIsInductive(quota, c.ops.horizon, k);
    GrantsHold(c, keys, RollingLog(quota(k)), events, states, i, k);
    hide Setting, Run, KeyLog.QuotasFit, Inductive, KeyLog.Ops, GrantsTo;
    if k in states[i].ideal {
      assert RollingKept(quota(k), GrantsTo(states[i].granted, k), states[i].ideal[k], states[i].now);
    }
  }

  /** A quota with a zero limit or period is granted nothing at all. */
  lemma ClosedLogGrantsNothing(c: Config<KeyLog.Cell>, keys: set<nat>, quota: nat -> SlidingLog.Quota,
                               events: seq<Event>,
                               states: seq<Sim<KeyLog.Cell>>, i: nat, k: nat)
    requires Setting(c, keys) && !c.forget && Run(c, keys, events, states) && i < |states|
    requires c.ops == KeyLog.Ops(quota, c.ops.horizon)
    ensures quota(k).limit == 0 || quota(k).period == 0 ==> GrantsTo(states[i].granted, k) == []
  {
    hide Setting, Run, KeyLog.Create;
    if quota(k).limit == 0 || quota(k).period == 0 {
      KeyLog.CreateIff(quota, k);
      NoStateNoGrants(c, keys, events, states, i, k);
    }
  }

  // ------------------------------------------------------- the sliding counter

  /** Grants as the counter stamps them: a window and an offset into it. */
  function CounterStamps(q: SlidingCounter.Quota, h: seq<Request>): seq<SlidingCounterRuns.Stamp>
    requires q.period > 0
  {
    if h == [] then []
    else
      var g := h[|h| - 1];
      CounterStamps(q, h[..|h| - 1]) + [SlidingCounterRuns.Stamp(g.at / q.period, g.at % q.period, g.n)]
  }

  lemma CounterStampsAppend(q: SlidingCounter.Quota, h: seq<Request>, g: Request)
    requires q.period > 0
    ensures CounterStamps(q, h + [g]) == CounterStamps(q, h) +
            [SlidingCounterRuns.Stamp(g.at / q.period, g.at % q.period, g.n)]
  {
    assert (h + [g])[..|h|] == h;
  }

  /** The counts are those of the grants, and the overshoot is bounded. */
  ghost predicate CountsKept(q: SlidingCounter.Quota, h: seq<Request>, s: KeyCounter.Cell)
    requires q.period > 0
  {
    SlidingCounterRuns.Inv(q, SlidingCounterRuns.State(s.counts, CounterStamps(q, h)))
  }

  /** One grant of the key is one step of a counter alone. */
  lemma CounterStepIs(q: SlidingCounter.Quota, before: SlidingCounterRuns.State, s: KeyCounter.Cell, n: nat, now: nat)
    requires SlidingCounter.Usable(q) && s.q == q && before.counts == s.counts && now <= U64_MAX
    requires s.counts.window * q.period <= now && KeyCounter.Acquire(s, n, now).0 == Allow
    ensures SlidingCounterRuns.Step(q, before, SlidingCounterRuns.Ask(n, now)) ==
              SlidingCounterRuns.State(KeyCounter.Acquire(s, n, now).1.counts,
                if n > 0 then before.history + [SlidingCounterRuns.Stamp(now / q.period, now % q.period, n)]
                else before.history)
  {
    SlidingCounter.RollNumber(q, s.counts, now);
    hide SlidingCounter.EarliestFit, SlidingCounter.Fits, SlidingCounter.Roll;
  }

  lemma CountsGrow(quota: nat -> SlidingCounter.Quota, horizon: nat, k: nat, h: seq<Request>, s: KeyCounter.Cell,
                   now: nat, n: nat)
    requires KeyCounter.QuotasFit(quota, horizon) && KeyCounter.Open(quota(k)) && CountsKept(quota(k), h, s)
    requires KeyCounter.Valid(quota, k, s, now) && KeyCounter.Native(s, now) && now < horizon
    requires KeyCounter.Acquire(s, n, now).0 == Allow
    ensures CountsKept(quota(k), if n > 0 then h + [Request(n, now)] else h, KeyCounter.Acquire(s, n, now).1)
  {
    var q := quota(k);
    KeyCounter.FitsHere(quota, horizon, k);
    KeyCounter.EndFits(s, horizon, now);
    CounterStampsAppend(q, h, Request(n, now));
    var before := SlidingCounterRuns.State(s.counts, CounterStamps(q, h));
    SlidingCounterRuns.StepKeepsInv(q, before, SlidingCounterRuns.Ask(n, now));
    SlidingCounter.RollNumber(q, s.counts, now);
    CounterStepIs(q, before, s, n, now);
    hide KeyCounter.QuotasFit, SlidingCounterRuns.Inv, SlidingCounterRuns.Step, CounterStamps, KeyCounter.Acquire;
  }

  ghost function Counted(q: SlidingCounter.Quota): Property<KeyCounter.Cell>
    requires q.period > 0
  {
    (h, s, now) => CountsKept(q, h, s)
  }

  lemma NothingCounted(quota: nat -> SlidingCounter.Quota, horizon: nat, k: nat, now: nat)
    requires KeyCounter.QuotasFit(quota, horizon) && now < horizon && KeyCounter.Create(quota, k, now).Some?
    ensures CountsKept(quota(k), [], KeyCounter.Create(quota, k, now).value)
  {
    KeyCounter.Starts(quota, horizon, k, now);
    KeyCounter.FitsHere(quota, horizon, k);
    SlidingCounter.WindowNumber(quota(k), now);
  }

  lemma CountedIsInductive(quota: nat -> SlidingCounter.Quota, horizon: nat, k: nat)
    requires KeyCounter.QuotasFit(quota, horizon) && KeyCounter.Open(quota(k))
    ensures Inductive(KeyCounter.Ops(quota, horizon), k, Counted(quota(k)))
  {
    hide KeyCounter.QuotasFit, KeyCounter.Acquire, KeyCounter.Valid, KeyCounter.Native, KeyCounter.DebtOf,
      KeyCounter.Restore,
      KeyCounter.Create, KeyCounter.Look, CountsKept;
    var q := quota(k);
    forall now: nat | now < horizon && KeyCounter.Create(quota, k, now).Some?
      ensures CountsKept(q, [], KeyCounter.Create(quota, k, now).value)
    {
      NothingCounted(quota, horizon, k, now);
    }
    forall h: seq<Request>, s: KeyCounter.Cell, now: nat, n: nat
      | CountsKept(q, h, s) && KeyCounter.Valid(quota, k, s, now) && KeyCounter.Native(s, now) && now < horizon
        && KeyCounter.Acquire(s, n, now).0 == Allow
      ensures CountsKept(q, if n > 0 then h + [Request(n, now)] else h, KeyCounter.Acquire(s, n, now).1)
    {
      CountsGrow(quota, horizon, k, h, s, now, n);
    }
  }

  /** A rolling window overshoots by at most its faded share and never reaches
      twice the limit, through any evictions. */
  lemma NoRollingWindowReachesTwiceTheLimit(c: Config<KeyCounter.Cell>, keys: set<nat>,
                                            quota: nat -> SlidingCounter.Quota,
                                            events: seq<Event>, states: seq<Sim<KeyCounter.Cell>>, i: nat, k: nat,
                                            v: nat, o: nat)
    requires Setting(c, keys) && !c.forget && Run(c, keys, events, states) && i < |states|
    requires c.ops == KeyCounter.Ops(quota, c.ops.horizon) && KeyCounter.QuotasFit(quota, c.ops.horizon)
    requires KeyCounter.Open(quota(k)) && o < quota(k).period
    ensures var q := quota(k);
            var h := CounterStamps(q, GrantsTo(states[i].granted, k));
            && SlidingCounterRuns.InRolling(h, v, o) * q.period <= q.limit * q.period +
              SlidingCounterRuns.InFixed(h, v) * o
            && SlidingCounterRuns.InRolling(h, v, o) < 2 * q.limit
  {
    var q := quota(k);
    KeyCounter.FitsHere(quota, c.ops.horizon, k);
    CountedIsInductive(quota, c.ops.horizon, k);
    GrantsHold(c, keys, Counted(q), events, states, i, k);
    hide Setting, Run, KeyCounter.QuotasFit, Inductive, KeyCounter.Ops, GrantsTo;
    var h := CounterStamps(q, GrantsTo(states[i].granted, k));
    if k in states[i].ideal {
      assert CountsKept(q, GrantsTo(states[i].granted, k), states[i].ideal[k]);
      SlidingCounterRuns.InvBounds(q, SlidingCounterRuns.State(states[i].ideal[k].counts, h), v, o);
    } else {
      assert h == [];
      Division.MulMonotone(0, q.limit, q.period);
    }
  }

  /** A quota with a zero limit or period is granted nothing at all. */
  lemma ClosedCounterGrantsNothing(c: Config<KeyCounter.Cell>, keys: set<nat>, quota: nat -> SlidingCounter.Quota,
                                   events: seq<Event>,
                                   states: seq<Sim<KeyCounter.Cell>>, i: nat, k: nat)
    requires Setting(c, keys) && !c.forget && Run(c, keys, events, states) && i < |states|
    requires c.ops == KeyCounter.Ops(quota, c.ops.horizon)
    ensures quota(k).limit == 0 || quota(k).period == 0 ==> GrantsTo(states[i].granted, k) == []
  {
    hide Setting, Run, KeyCounter.Create;
    if quota(k).limit == 0 || quota(k).period == 0 {
      forall now: nat ensures KeyCounter.Create(quota, k, now).None? { KeyCounter.CreateIff(quota, k, now); }
      NoStateNoGrants(c, keys, events, states, i, k);
    }
  }
}

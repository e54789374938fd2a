/** The bound of the generic cell rate algorithm, through the store: however
    often a key is evicted and comes back, every stretch of time grants it at
    most its burst and what the stretch emits. */
module StoreGcra {
  import opened Units
  import opened Gcra
  import opened Conformance
  import KeyGcra
  import opened KeyRuns
  import opened Shard
  import opened ShardSafety
  import opened ShardRuns
  import opened StoreKeys

  /** Grants as admissions of the key's own bucket. */
  function LogOf(p: Params, h: seq<Request>): seq<Admission>
    requires p.period > 0
  {
    if h == [] then []
    else
      var g := h[|h| - 1];
      LogOf(p, h[..|h| - 1]) + [Admission(g.at, Iv(p, g.at), g.n)]
  }

  lemma LogAppend(p: Params, h: seq<Request>, g: Request)
    requires p.period > 0
    ensures LogOf(p, h + [g]) == LogOf(p, h) + [Admission(g.at, Iv(p, g.at), g.n)]
  {
    assert (h + [g])[..|h|] == h;
  }

  lemma {:induction false} LogReads(p: Params, h: seq<Request>)
    requires p.period > 0
    ensures forall e :: e in LogOf(p, h) ==> e.iv == Iv(p, e.at)
  {
    hide Iv;
    if h != [] { LogReads(p, h[..|h| - 1]); }
  }

  /** Units granted on readings in the instants `from..=to`. */
  function GrantedBetween(h: seq<Request>, from: nat, to: nat): nat {
    if h == [] then 0
    else
      var g := h[|h| - 1];
      GrantedBetween(h[..|h| - 1], from, to) + if from <= g.at <= to then g.n else 0
  }

  lemma {:induction false} LogTotals(p: Params, h: seq<Request>, from: nat, to: nat)
    requires p.period > 0
    ensures TotalRead(LogOf(p, h), from, to) == GrantedBetween(h, from, to)
  {
    hide Iv;
    if h != [] {
      var g := h[|h| - 1];
      LogTotals(p, h[..|h| - 1], from, to);
      TotalAppend(LogOf(p, h[..|h| - 1]), Admission(g.at, Iv(p, g.at), g.n), from, to);
    }
  }

  ghost predicate WordConforms(p: Params, h: seq<Request>, s: KeyGcra.Cell)
    requires p.period > 0
  {
    Conforms(LogOf(p, h), s.tat, p.tolerance + 1)
  }

  lemma GrantConforms(quota: nat -> Quota, horizon: nat, h: seq<Request>, s: KeyGcra.Cell, k: nat, n: nat, now: nat)
    requires KeyGcra.QuotasFit(quota, horizon) && now < horizon && KeyGcra.Valid(quota, k, s)
    requires WordConforms(s.p, h, s) && KeyGcra.Acquire(s, n, now).0 == Allow
    ensures WordConforms(s.p, if n > 0 then h + [Request(n, now)] else h, KeyGcra.Acquire(s, n, now).1)
  {
    KeyGcra.ValidFits(quota, horizon, k, s, now);
    hide Conforms, Iv, New, StartOf, KeyGcra.QuotasFit, LogOf;
    if n > 0 {
      AdmittedIff(s.p, s.tat, n, now);
      AdmitKeepsConformance(LogOf(s.p, h), s.tat, s.p.tolerance + 1, Admission(now, Iv(s.p, now), n));
      LogAppend(s.p, h, Request(n, now));
    }
  }

  ghost function Conforming(p: Params): Property<KeyGcra.Cell>
    requires p.period > 0
  {
    (h, s, now) => WordConforms(p, h, s)
  }

  lemma FreshConforms(p: Params, s: KeyGcra.Cell)
    requires p.period > 0
    ensures WordConforms(p, [], s)
  {
    TotalOfEmpty([], s.tat, p.tolerance + 1);
  }

  lemma ConformingIsInductive(quota: nat -> Quota, horizon: nat, k: nat)
    requires KeyGcra.QuotasFit(quota, horizon) && Open(New(quota(k)))
    ensures Inductive(KeyGcra.Ops(quota, horizon), k, Conforming(New(quota(k))))
  {
    hide KeyGcra.QuotasFit, KeyGcra.Acquire, New, WordConforms, KeyGcra.DebtOf, KeyGcra.Restore, KeyGcra.Full;
    var p := New(quota(k));
    forall s: KeyGcra.Cell ensures WordConforms(p, [], s) {
      FreshConforms(p, s);
    }
    forall h: seq<Request>, s: KeyGcra.Cell, now: nat, n: nat
      | WordConforms(p, h, s) && KeyGcra.Valid(quota, k, s) && now < horizon && KeyGcra.Acquire(s, n, now).0 == Allow
      ensures WordConforms(p, if n > 0 then h + [Request(n, now)] else h, KeyGcra.Acquire(s, n, now).1)
    {
      GrantConforms(quota, horizon, h, s, k, n, now);
    }
  }

  lemma ConformingIsBounded(p: Params, h: seq<Request>, s: KeyGcra.Cell, from: nat, to: nat)
    requires p.period > 0 && WordConforms(p, h, s) && from <= to
    ensures GrantedBetween(h, from, to) <= p.tolerance + 1 + Iv(p, to) - Iv(p, from)
  {
    LogReads(p, h);
    LogTotals(p, h, from, to);
    IvMonotone(p, from, to);
    forall e | e in LogOf(p, h) && from <= e.at <= to
      ensures Iv(p, from) <= e.iv <= Iv(p, to)
    {
      IvMonotone(p, from, e.at);
      IvMonotone(p, e.at, to);
    }
    ReadsLieInIntervals(LogOf(p, h), from, to, Iv(p, from), Iv(p, to));
  }

  /** Through any evictions, spills, sweeps and refusals, a key is granted on
      readings in `[from, to]` at most its burst and the units its rate emits
      between them: the bound of one bucket that was never evicted. A quota with a
      zero limit, period or burst is granted nothing at all. */
  lemma StoreNeverOverAdmits(c: Config<KeyGcra.Cell>, keys: set<nat>, quota: nat -> Quota,
                             events: seq<Event>, states: seq<Sim<KeyGcra.Cell>>, i: nat, k: nat, from: nat, to: nat)
    requires Setting(c, keys) && !c.forget && Run(c, keys, events, states) && i < |states| && from <= to
    requires c.ops == KeyGcra.Ops(quota, c.ops.horizon) && KeyGcra.QuotasFit(quota, c.ops.horizon)
    ensures var q, h := quota(k), GrantsTo(states[i].granted, k);
            if AdmitsNothing(q) then h == []
            else GrantedBetween(h, from, to) + Emitted(q, from) <= q.burst + Emitted(q, to)
  {
    var p, h := New(quota(k)), GrantsTo(states[i].granted, k);
    assert quota(k).limit <= U32_MAX && quota(k).burst <= U32_MAX;
    KeyGcra.CreateIff(quota, k);
    NewIsClosedIff(quota(k));
    if AdmitsNothing(quota(k)) {
      hide Setting, Run, KeyGcra.QuotasFit, New, KeyGcra.Create;
      NoStateNoGrants(c, keys, events, states, i, k);
    } else {
      ConformingIsInductive(quota, c.ops.horizon, k);
      GrantsHold(c, keys, Conforming(p), events, states, i, k);
      RateIsTheQuotas(quota(k), from);
      RateIsTheQuotas(quota(k), to);
      hide Setting, Run, KeyGcra.QuotasFit, New, Inductive, KeyGcra.Ops, Emitted, Iv;
      var s := if k in states[i].ideal then states[i].ideal[k] else KeyGcra.Cell(p, 0);
      if k !in states[i].ideal { FreshConforms(p, s); }
      ConformingIsBounded(p, h, s, from, to);
    }
  }
}

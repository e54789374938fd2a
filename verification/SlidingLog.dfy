/** The sliding window log (src/algo/sliding_log.rs): run-length records with
    running totals, and what they say about the window at any instant. */
module SlidingLog {
  import opened Units

  datatype Quota = Quota(limit: nat, period: nat)

  /** Every unit admitted at `at`, and the running total up to them. */
  datatype Run = Run(at: nat, total: nat)

  datatype Log = Log(runs: seq<Run>, expired: nat)

  const Empty := Log([], 0)

  function Back(l: Log): Run
    requires l.runs != []
  {
    l.runs[|l.runs| - 1]
  }

  function Total(l: Log): nat {
    if l.runs == [] then l.expired else Back(l).total
  }

  function InWindow(l: Log): nat { SatSub(Total(l), l.expired) }

  predicate Aged(r: Run, now: nat, period: nat) { Clamp64(r.at + period) <= now }

  /** How many runs, from the front, have aged out by `now`. */
  function Cut(runs: seq<Run>, now: nat, period: nat): (k: nat)
    ensures k <= |runs|
    ensures forall i {:trigger Aged(runs[i], now, period)} :: 0 <= i < k ==> Aged(runs[i], now, period)
    ensures k < |runs| ==> !Aged(runs[k], now, period)
  {
    if runs == [] || !Aged(runs[0], now, period) then 0
    else 1 + Cut(runs[1..], now, period)
  }

  /** The running total before run `k`. */
  function TotalBefore(l: Log, k: nat): nat
    requires k <= |l.runs|
  {
    if k == 0 then l.expired else l.runs[k - 1].total
  }

  function Expire(l: Log, now: nat, period: nat): Log {
    var k := Cut(l.runs, now, period);
    Log(l.runs[k..], TotalBefore(l, k))
  }

  function Record(l: Log, n: nat, now: nat): Log {
    var total := Clamp64(Total(l) + n);
    if l.runs != [] && Back(l).at == now then
      l.(runs := l.runs[|l.runs| - 1 := Run(now, total)])
    else l.(runs := l.runs + [Run(now, total)])
  }

  /** `partition_point`: the first run whose total reaches `target`. */
  function FirstReaching(runs: seq<Run>, target: nat): (i: nat)
    ensures i <= |runs|
    ensures i > 0 ==> runs[i - 1].total < target
    ensures i < |runs| ==> runs[i].total >= target
  {
    if runs == [] || runs[0].total >= target then 0 else 1 + FirstReaching(runs[1..], target)
  }

  /** A late reading is taken to arrive with the newest record. */
  function Effective(l: Log, realNow: nat): nat {
    if l.runs == [] then realNow else Max(Back(l).at, realNow)
  }

  /** When the oldest units in the way of `n` more have all aged out. */
  function ExpireAt(q: Quota, live: Log, n: nat, nowNs: nat): nat {
    var target := live.expired + SatSub(InWindow(live) + n, q.limit);
    var index := FirstReaching(live.runs, target);
    if index < |live.runs| then Clamp64(live.runs[index].at + q.period) else nowNs
  }

  function Acquire(q: Quota, l: Log, n: nat, now: nat): (Decision, Log) {
    if n == 0 then (Allow, l)
    else if q.limit == 0 || q.period == 0 || n > q.limit then (Deny(DURATION_MAX), l)
    else
      var realNow := Clamp64(now);
      var nowNs := Effective(l, realNow);
      var live := Expire(l, nowNs, q.period);
      if InWindow(live) + n <= q.limit then (Allow, Record(live, n, nowNs))
      else
        (Deny(SatSub(ExpireAt(q, live, n, nowNs), realNow)), live)
  }

  /** `(remaining, reset_after)` and the log, which peeking prunes. */
  function Peek(q: Quota, l: Log, now: nat): (nat, nat, Log) {
    if q.limit == 0 || q.period == 0 then (0, DURATION_MAX, l)
    else
      var realNow := Clamp64(now);
      var live := Expire(l, Effective(l, realNow), q.period);
      var used := Min(InWindow(live), U32_MAX);
      (SatSub(q.limit, used),
       if live.runs == [] then 0 else SatSub(Clamp64(Back(live).at + q.period), realNow),
       live)
  }

  // ------------------------------------------------------------------ shape

  predicate Precedes(r: Run, s: Run) { r.at < s.at && r.total < s.total }

  predicate Ordered(runs: seq<Run>) {
    |runs| < 2 || (Precedes(runs[0], runs[1]) && Ordered(runs[1..]))
  }

  predicate WellFormed(l: Log) {
    Ordered(l.runs) && (l.runs != [] ==> l.expired < l.runs[0].total)
  }

  lemma {:induction false} OrderedAt(runs: seq<Run>, i: nat, j: nat)
    requires Ordered(runs) && i < j < |runs|
    ensures Precedes(runs[i], runs[j])
    decreases j
  {
    if i > 0 {
      OrderedAt(runs[1..], i - 1, j - 1);
    } else if j > 1 {
      OrderedAt(runs[1..], 0, j - 1);
    }
  }

  lemma {:induction false} OrderedDrop(runs: seq<Run>, k: nat)
    requires Ordered(runs) && k <= |runs|
    ensures Ordered(runs[k..])
    decreases k
  {
    if k == 0 {
      assert runs[k..] == runs;
    } else {
      if |runs| == 1 { assert runs[1..] == []; }
      OrderedDrop(runs[1..], k - 1);
      assert runs[1..][k - 1..] == runs[k..];
    }
  }

  lemma {:induction false} OrderedAppend(runs: seq<Run>, r: Run)
    requires Ordered(runs) && (runs != [] ==> Precedes(runs[|runs| - 1], r))
    ensures Ordered(runs + [r])
    decreases |runs|
  {
    if runs != [] {
      if |runs| == 1 { assert runs[1..] == []; }
      OrderedAppend(runs[1..], r);
      assert (runs + [r])[1..] == runs[1..] + [r];
    }
  }

  lemma {:induction false} OrderedInit(runs: seq<Run>)
    requires Ordered(runs) && runs != []
    ensures Ordered(runs[..|runs| - 1])
    decreases |runs|
  {
    if |runs| > 2 {
      OrderedInit(runs[1..]);
      assert runs[..|runs| - 1][1..] == runs[1..][..|runs| - 2];
    }
  }

  /** Totals never pass the total of the newest run. */
  lemma TotalsRise(l: Log, j: nat, k: nat)
    requires WellFormed(l) && j <= k <= |l.runs|
    ensures TotalBefore(l, j) <= TotalBefore(l, k) <= Total(l)
    ensures j < k ==> TotalBefore(l, j) < TotalBefore(l, k)
  {
    if 0 < j < k { OrderedAt(l.runs, j - 1, k - 1); }
    if j == 0 && k > 1 { OrderedAt(l.runs, 0, k - 1); }
    if 0 < k < |l.runs| { OrderedAt(l.runs, k - 1, |l.runs| - 1); }
    if k == 0 && |l.runs| > 1 { OrderedAt(l.runs, 0, |l.runs| - 1); }
  }

  /** Units in the window at `t`, whether or not the log has been pruned yet. */
  function InWindowAt(l: Log, t: nat, period: nat): nat {
    SatSub(Total(l), TotalBefore(l, Cut(l.runs, t, period)))
  }

  lemma CutIs(runs: seq<Run>, t: nat, period: nat, k: nat)
    requires k <= |runs|
    requires forall i {:trigger Aged(runs[i], t, period)} :: 0 <= i < k ==> Aged(runs[i], t, period)
    requires k < |runs| ==> !Aged(runs[k], t, period)
    ensures Cut(runs, t, period) == k
  {
  }

  lemma ExpireKeepsShape(l: Log, t: nat, period: nat)
    requires WellFormed(l)
    ensures WellFormed(Expire(l, t, period))
    ensures Total(Expire(l, t, period)) == Total(l)
    ensures InWindow(Expire(l, t, period)) == InWindowAt(l, t, period)
  {
    var k := Cut(l.runs, t, period);
    OrderedDrop(l.runs, k);
    if k < |l.runs| { TotalsRise(l, k, k + 1); }
  }

  lemma CutRises(runs: seq<Run>, s: nat, t: nat, period: nat)
    requires s <= t
    ensures Cut(runs, s, period) <= Cut(runs, t, period)
  {
    var c, k := Cut(runs, s, period), Cut(runs, t, period);
    assert k < c ==> Aged(runs[k], s, period);
  }

  lemma CutDropped(runs: seq<Run>, c: nat, t: nat, period: nat)
    requires c <= Cut(runs, t, period)
    ensures Cut(runs[c..], t, period) == Cut(runs, t, period) - c
  {
    CutIs(runs[c..], t, period, Cut(runs, t, period) - c);
  }

  /** Pruning early changes nothing about any later instant. */
  lemma ExpireKeepsLater(l: Log, s: nat, t: nat, period: nat)
    requires WellFormed(l) && s <= t
    ensures InWindowAt(Expire(l, s, period), t, period) == InWindowAt(l, t, period)
  {
    CutRises(l.runs, s, t, period);
    CutDropped(l.runs, Cut(l.runs, s, period), t, period);
    ExpireKeepsShape(l, s, period);
  }

  /** The window only empties as time passes. */
  lemma InWindowFalls(l: Log, s: nat, t: nat, period: nat)
    requires WellFormed(l) && s <= t
    ensures InWindowAt(l, t, period) <= InWindowAt(l, s, period) <= InWindow(l)
  {
    CutRises(l.runs, s, t, period);
    TotalsRise(l, Cut(l.runs, s, period), Cut(l.runs, t, period));
    TotalsRise(l, 0, Cut(l.runs, s, period));
  }

  lemma RecordKeepsShape(l: Log, n: nat, now: nat)
    requires WellFormed(l) && n > 0 && Total(l) + n <= U64_MAX
    requires l.runs != [] ==> Back(l).at <= now
    ensures var l' := Record(l, n, now);
            WellFormed(l') && l'.runs != [] && Back(l') == Run(now, Total(l) + n) && l'.expired == l.expired
  {
    var r := Run(now, Total(l) + n);
    TotalsRise(l, 0, |l.runs|);
    if l.runs != [] && Back(l).at == now {
      var last := |l.runs| - 1;
      OrderedInit(l.runs);
      if last > 0 { OrderedAt(l.runs, last - 1, last); }
      OrderedAppend(l.runs[..last], r);
      assert l.runs[last := r] == l.runs[..last] + [r];
    } else {
      OrderedAppend(l.runs, r);
    }
  }

  lemma CutOfRecord(l: Log, n: nat, now: nat, t: nat, period: nat)
    requires WellFormed(l)
    requires l.runs != [] ==> Back(l).at <= now
    ensures var k := Cut(l.runs, t, period);
            Cut(Record(l, n, now).runs, t, period) ==
              if k == |l.runs| && Clamp64(now + period) <= t then |Record(l, n, now).runs| else k
  {
    var runs', k := Record(l, n, now).runs, Cut(l.runs, t, period);
    assert k > 0 ==> Aged(l.runs[k - 1], t, period);
    forall i | 0 <= i < k
      ensures Aged(runs'[i], t, period)
    {
      assert Aged(l.runs[i], t, period);
    }
    CutIs(runs', t, period, if k == |l.runs| && Clamp64(now + period) <= t then |runs'| else k);
  }

  /** Recording `n` units adds them to the window for one period and changes
      nothing else, coalesced or not. */
  lemma RecordAdds(l: Log, n: nat, now: nat, t: nat, period: nat)
    requires WellFormed(l) && n > 0 && Total(l) + n <= U64_MAX
    requires l.runs != [] ==> Back(l).at <= now
    ensures InWindowAt(Record(l, n, now), t, period) ==
              InWindowAt(l, t, period) + if Clamp64(now + period) > t then n else 0
  {
    var k := Cut(l.runs, t, period);
    CutOfRecord(l, n, now, t, period);
    RecordKeepsShape(l, n, now);
    TotalsRise(l, k, |l.runs|);
    if k < |l.runs| {
      assert !Aged(l.runs[k], t, period);
      if k + 1 < |l.runs| { OrderedAt(l.runs, k, |l.runs| - 1); }
    } else if k > 0 {
      assert Aged(l.runs[k - 1], t, period);
    }
  }

  /** The units aged out by `t` reach `target` exactly when the first run whose
      total reaches it has aged out: what makes the binary search exact. */
  lemma AgedReachesIff(l: Log, target: nat, t: nat, period: nat)
    requires WellFormed(l) && l.expired < target <= Total(l)
    ensures var i := FirstReaching(l.runs, target);
            i < |l.runs| &&
            (TotalBefore(l, Cut(l.runs, t, period)) >= target <==> Aged(l.runs[i], t, period))
  {
    var i, k := FirstReaching(l.runs, target), Cut(l.runs, t, period);
    assert i < |l.runs|;
    if i < k {
      assert Aged(l.runs[i], t, period);
      TotalsRise(l, i + 1, k);
    } else {
      TotalsRise(l, k, i);
      if k < i { OrderedAt(l.runs, k, i); }
    }
  }

  // -------------------------------------------------------------- decisions

  /** A request is admitted exactly when it fits beside the units in the window
      at its effective instant. */
  lemma AdmittedIff(q: Quota, l: Log, n: nat, now: nat)
    requires WellFormed(l) && 0 < n <= q.limit && q.period > 0 && now <= U64_MAX
    ensures Acquire(q, l, n, now).0 == Allow <==>
              InWindowAt(l, Effective(l, now), q.period) + n <= q.limit
  {
    ExpireKeepsShape(l, Effective(l, now), q.period);
  }

  /** The search finds exactly the instant from which the request fits. */
  lemma ExpireAtIsExact(q: Quota, live: Log, n: nat, nowNs: nat, t: nat)
    requires WellFormed(live) && n <= q.limit < InWindow(live) + n
    ensures live.runs != []
    ensures InWindowAt(live, t, q.period) + n <= q.limit <==> t >= ExpireAt(q, live, n, nowNs)
  {
    AgedReachesIff(live, live.expired + (InWindow(live) + n - q.limit), t, q.period);
  }

  lemma ExpireKeepsBack(l: Log, t: nat, period: nat)
    ensures Expire(l, t, period).runs != [] ==> l.runs != [] && Back(Expire(l, t, period)) == Back(l)
  {
  }

  /** The wait of a denial is exact: with no other traffic, every reading before
      its end is denied and every reading from its end on is admitted. */
  lemma RetryIsExact(q: Quota, l: Log, n: nat, now: nat, t: nat)
    requires WellFormed(l) && 0 < n <= q.limit && q.period > 0 && now <= t <= U64_MAX
    requires Acquire(q, l, n, now).0.Deny?
    ensures var (d, l') := Acquire(q, l, n, now);
            Acquire(q, l', n, t).0 == Allow <==> t >= now + d.retryAfter
  {
    var nowNs := Effective(l, now);
    var live := Expire(l, nowNs, q.period);
    ExpireKeepsShape(l, nowNs, q.period);
    ExpireKeepsBack(l, nowNs, q.period);
    ExpireAtIsExact(q, live, n, nowNs, Effective(live, t));
    ExpireAtIsExact(q, live, n, nowNs, nowNs);
    ExpireKeepsLater(l, nowNs, nowNs, q.period);
    AdmittedIff(q, live, n, t);
  }

  /** A wait of `Duration::MAX` is reported exactly for what no empty log ever
      admits. */
  lemma NeverIff(q: Quota, l: Log, n: nat, now: nat)
    ensures Acquire(q, l, n, now).0 == Deny(DURATION_MAX) <==> forall t: nat :: Acquire(q, Empty, n, t).0 != Allow
  {
    hide FirstReaching;
    if 0 < n <= q.limit && q.period > 0 {
      assert Acquire(q, Empty, n, 0).0 == Allow;
    } else {
      assert forall t: nat :: Acquire(q, Empty, n, t).0 == Allow <==> n == 0;
      assert Acquire(q, Empty, n, 0).0 == Allow <==> n == 0;
    }
  }

  /** `Peek` counts the units in the window. */
  lemma PeekCounts(q: Quota, l: Log, now: nat)
    requires WellFormed(l) && 0 < q.limit && q.period > 0 && now <= U64_MAX
    requires InWindowAt(l, Effective(l, now), q.period) <= q.limit <= U32_MAX
    ensures Peek(q, l, now).0 == q.limit - InWindowAt(l, Effective(l, now), q.period)
  {
    ExpireKeepsShape(l, Effective(l, now), q.period);
  }

  /** The window is empty exactly once the newest run has aged out. */
  lemma WindowEmptyIff(l: Log, t: nat, period: nat)
    requires WellFormed(l)
    ensures InWindowAt(l, t, period) == 0 <==> l.runs == [] || Aged(Back(l), t, period)
    ensures Expire(l, t, period).runs == [] <==> InWindowAt(l, t, period) == 0
  {
    var k := Cut(l.runs, t, period);
    if k < |l.runs| {
      TotalsRise(l, k, |l.runs|);
      if k < |l.runs| - 1 { OrderedAt(l.runs, k, |l.runs| - 1); }
    }
  }

  lemma PeekReset(q: Quota, l: Log, now: nat)
    requires WellFormed(l) && 0 < q.limit && q.period > 0 && now <= U64_MAX
    requires l.runs != [] ==> Back(l).at <= now
    ensures Peek(q, l, now).1 == if l.runs == [] || Aged(Back(l), now, q.period) then 0
                                 else Clamp64(Back(l).at + q.period) - now
  {
    ExpireKeepsBack(l, now, q.period);
    WindowEmptyIff(l, now, q.period);
  }

  /** Its wait is exactly how long the window takes to empty. */
  lemma PeekWaits(q: Quota, l: Log, now: nat, t: nat)
    requires WellFormed(l) && 0 < q.limit && q.period > 0 && now <= t <= U64_MAX
    requires l.runs != [] ==> Back(l).at <= now
    ensures InWindowAt(l, t, q.period) == 0 <==> t >= now + Peek(q, l, now).1
  {
    PeekReset(q, l, now);
    WindowEmptyIff(l, t, q.period);
  }

  /** `Peek`'s remaining count is the largest request that would be admitted. */
  lemma PeekReportsLargestAdmissible(q: Quota, l: Log, n: nat, now: nat)
    requires WellFormed(l) && 0 < q.limit && q.period > 0 && now <= U64_MAX
    requires InWindowAt(l, Effective(l, now), q.period) <= q.limit <= U32_MAX
    ensures Acquire(q, l, n, now).0 == Allow <==> n <= Peek(q, l, now).0
  {
    PeekCounts(q, l, now);
    ExpireKeepsShape(l, Effective(l, now), q.period);
  }

  /** A wait of `Duration::MAX` is reported exactly for a quota that admits nothing,
      and then nothing is left. */
  lemma PeekNeverIff(q: Quota, l: Log, now: nat)
    ensures Peek(q, l, now).1 == DURATION_MAX <==>
              forall n: nat, t: nat :: n > 0 ==> Acquire(q, Empty, n, t).0 != Allow
    ensures Peek(q, l, now).1 == DURATION_MAX ==> Peek(q, l, now).0 == 0
  {
    NeverIff(q, l, 1, now);
    hide Acquire, Expire;
  }
}

/** `SlidingLog` as the code has it: a deque of runs changed in place under the
    key's mutex, with the pruning loop and the binary search. Each method is
    proved to do what the functions of `SlidingLog` say. */
module SlidingLogObject {
  import opened Units
  import opened SlidingLog

  lemma ExpirePops(l: Log, now: nat, period: nat)
    requires l.runs != [] && Aged(l.runs[0], now, period)
    ensures Expire(Log(l.runs[1..], l.runs[0].total), now, period) == Expire(l, now, period)
  {
    var k := Cut(l.runs[1..], now, period);
    assert l.runs[1..][k..] == l.runs[k + 1..];
  }

  lemma ExpireStops(l: Log, now: nat, period: nat)
    requires l.runs == [] || !Aged(l.runs[0], now, period)
    ensures Expire(l, now, period) == l
  {
    assert l.runs[0..] == l.runs;
  }

  /** In an ordered log the search can halve: a run reaches the target exactly
      from the first that does. */
  lemma {:induction false} ReachesIff(runs: seq<Run>, target: nat, mid: nat)
    requires Ordered(runs) && mid < |runs|
    ensures runs[mid].total < target <==> mid < FirstReaching(runs, target)
    decreases |runs|
  {
    if runs[0].total >= target {
      if mid > 0 { OrderedAt(runs, 0, mid); }
    } else if mid > 0 {
      ReachesIff(runs[1..], target, mid - 1);
    }
  }

  class KeyLog {
    const quota: Quota
    var runs: seq<Run>
    var expiredTotal: nat

    function View(): Log
      reads this
    {
      Log(runs, expiredTotal)
    }

    constructor (quota: Quota)
      ensures this.quota == quota && View() == Empty
    {
      this.quota := quota;
      runs, expiredTotal := [], 0;
    }

    method Prune(now: nat)
      modifies this
      ensures View() == Expire(old(View()), now, quota.period)
    {
      while runs != [] && Clamp64(runs[0].at + quota.period) <= now
        invariant Expire(View(), now, quota.period) == Expire(old(View()), now, quota.period)
        decreases |runs|
      {
        ExpirePops(View(), now, quota.period);
        expiredTotal := runs[0].total;
        runs := runs[1..];
      }
      ExpireStops(View(), now, quota.period);
    }

    method Add(n: nat, now: nat)
      modifies this
      ensures View() == Record(old(View()), n, now)
    {
      var total := Clamp64(Total(View()) + n);
      if runs != [] && runs[|runs| - 1].at == now {
        runs := runs[|runs| - 1 := Run(now, total)];
      } else {
        runs := runs + [Run(now, total)];
      }
    }

    method PartitionPoint(target: nat) returns (i: nat)
      ensures i <= |runs|
      ensures Ordered(runs) ==> i == FirstReaching(runs, target)
    {
      var lo, hi := 0, |runs|;
      while lo < hi
        invariant lo <= hi <= |runs|
        invariant Ordered(runs) ==> lo <= FirstReaching(runs, target) <= hi
      {
        var mid := lo + (hi - lo) / 2;
        if Ordered(runs) { ReachesIff(runs, target, mid); }
        if runs[mid].total < target { lo := mid + 1; } else { hi := mid; }
      }
      i := lo;
    }

    /** When `n` more units fit, the log being pruned and too full for them now. */
    method WaitFor(n: nat, nowNs: nat) returns (expireAt: nat)
      ensures Ordered(runs) ==> expireAt == ExpireAt(quota, View(), n, nowNs)
    {
      var target := expiredTotal + SatSub(InWindow(View()) + n, quota.limit);
      var index := PartitionPoint(target);
      expireAt := if index < |runs| then Clamp64(runs[index].at + quota.period) else nowNs;
    }

    method Acquire(n: nat, now: nat) returns (d: Decision)
      modifies this
      ensures d == Allow <==> SlidingLog.Acquire(quota, old(View()), n, now).0 == Allow
      ensures View() == SlidingLog.Acquire(quota, old(View()), n, now).1
      ensures old(WellFormed(View())) ==> d == SlidingLog.Acquire(quota, old(View()), n, now).0
    {
      if n == 0 { return Allow; }
      if quota.limit == 0 || quota.period == 0 || n > quota.limit { return Deny(DURATION_MAX); }
      var realNow := Clamp64(now);
      var nowNs := if runs == [] then realNow else Max(runs[|runs| - 1].at, realNow);
      ghost var before := View();
      Prune(nowNs);
      if WellFormed(before) { ExpireKeepsShape(before, nowNs, quota.period); }
      if InWindow(View()) + n <= quota.limit {
        Add(n, nowNs);
        return Allow;
      }
      var expireAt := WaitFor(n, nowNs);
      d := Deny(SatSub(expireAt, realNow));
    }

    method Peek(now: nat) returns (remaining: nat, resetAfter: nat)
      modifies this
      ensures (remaining, resetAfter, View()) == SlidingLog.Peek(quota, old(View()), now)
    {
      if quota.limit == 0 || quota.period == 0 { return 0, DURATION_MAX; }
      var realNow := Clamp64(now);
      Prune(if runs == [] then realNow else Max(runs[|runs| - 1].at, realNow));
      remaining := SatSub(quota.limit, Min(InWindow(View()), U32_MAX));
      resetAfter := if runs == [] then 0 else SatSub(Clamp64(runs[|runs| - 1].at + quota.period), realNow);
    }

    /** The whole allowance is back at every instant, and the running total
        carries on. */
    method Reset()
      modifies this
      ensures Total(View()) == old(Total(View())) && WellFormed(View())
      ensures forall t :: InWindowAt(View(), t, quota.period) == 0
    {
      expiredTotal := Total(View());
      runs := [];
    }
  }
}

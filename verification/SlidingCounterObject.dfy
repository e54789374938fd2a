/** `SlidingCounter` as the code has it: two counts rolled and bumped in place
    under the key's mutex, proved against the functions of `SlidingCounter`. */
module SlidingCounterObject {
  import opened Units
  import opened SlidingCounter

  class KeyCounter {
    const quota: Quota
    var window: nat
    var prev: nat
    var curr: nat

    function View(): Counts
      reads this
    {
      Counts(window, prev, curr)
    }

    constructor (quota: Quota, now: nat)
      ensures this.quota == quota && View() == New(quota, now)
    {
      this.quota := quota;
      window := if quota.period == 0 then 0 else Clamp64(now) / quota.period;
      prev, curr := 0, 0;
    }

    method RollTo(realNow: nat) returns (nowNs: nat, offset: nat)
      requires quota.period > 0
      modifies this
      ensures (View(), nowNs) == Roll(quota, old(View()), realNow)
      ensures offset == Offset(quota, nowNs) && nowNs >= realNow
    {
      nowNs := Max(realNow, Clamp64(window * quota.period));
      var number := nowNs / quota.period;
      if number > window {
        prev := if number == window + 1 then curr else 0;
        curr := 0;
        window := number;
      }
      offset := Offset(quota, nowNs);
    }

    method Acquire(n: nat, now: nat) returns (d: Decision)
      modifies this
      ensures (d, View()) == SlidingCounter.Acquire(quota, old(View()), n, now)
    {
      if n == 0 { return Allow; }
      if quota.limit == 0 || quota.period == 0 || n > quota.limit { return Deny(DURATION_MAX); }
      var realNow := Clamp64(now);
      var nowNs, offset := RollTo(realNow);
      if Fits(quota, View(), offset, n) {
        curr := Min(curr + n, U32_MAX);
        return Allow;
      }
      var wait := EarliestFit(quota, View(), offset, n);
      d := Deny(Max(Clamp64(wait + (nowNs - realNow)), 1));
    }

    method Peek(now: nat) returns (remaining: nat, resetAfter: nat)
      modifies this
      ensures (remaining, resetAfter, View()) == SlidingCounter.Peek(quota, old(View()), now)
    {
      if quota.limit == 0 || quota.period == 0 { return 0, DURATION_MAX; }
      var realNow := Clamp64(now);
      var nowNs, offset := RollTo(realNow);
      remaining := Min(Remaining(quota, View(), offset), quota.limit);
      var fullIn := FullIn(quota, View(), offset);
      resetAfter := if fullIn == 0 then 0 else Clamp64(fullIn + (nowNs - realNow));
    }

    /** The whole allowance is back at every instant, without moving a window. */
    method Reset()
      modifies this`prev, this`curr
      ensures window == old(window)
      ensures forall t :: Weight(quota, View(), t) == 0
    {
      prev, curr := 0, 0;
    }
  }
}

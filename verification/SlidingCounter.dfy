/** The sliding window counter (src/algo/sliding_counter.rs): two window counts,
    the earlier fading linearly. The code rolls the counts forward and then
    weighs them. `Weight` says what that comes to at any instant in closed form,
    and the exactness of every reported wait follows from its shape. */
module SlidingCounter {
  import opened Units
  import opened Division

  datatype Quota = Quota(limit: nat, period: nat)

  /** `curr` units counted in `window`, `prev` in the window before it. */
  datatype Counts = Counts(window: nat, prev: nat, curr: nat)

  predicate Usable(q: Quota) { 1 <= q.limit <= U32_MAX && 1 <= q.period <= U64_MAX }

  function New(q: Quota, now: nat): Counts {
    Counts(if q.period == 0 then 0 else Clamp64(now) / q.period, 0, 0)
  }

  /** `roll`: the counts moved on to the reading, and the instant it counts as. */
  function Roll(q: Quota, s: Counts, realNow: nat): (Counts, nat)
    requires q.period > 0
  {
    var nowNs := Max(realNow, Clamp64(s.window * q.period));
    var number := nowNs / q.period;
    if number > s.window then
      (Counts(number, if number == s.window + 1 then s.curr else 0, 0), nowNs)
    else (s, nowNs)
  }

  /** How far into its window an instant is. */
  function Offset(q: Quota, nowNs: nat): (offset: nat)
    requires q.period > 0
    ensures offset < q.period
  {
    nowNs % q.period
  }

  function Weighted(q: Quota, s: Counts, offset: nat): nat
    requires offset <= q.period
  {
    s.prev * (q.period - offset) + s.curr * q.period
  }

  predicate Fits(q: Quota, s: Counts, offset: nat, n: nat)
    requires offset <= q.period
  {
    Weighted(q, s, offset) + n * q.period <= q.limit * q.period
  }

  /** How long before the end of this window the faded previous count first
      leaves room for `n` units. */
  function FadingSlack(q: Quota, s: Counts, n: nat): nat
    requires s.prev > 0 && s.curr + n <= q.limit
  {
    MulMonotone(0, q.limit - n - s.curr, q.period);
    (q.limit - n - s.curr) * q.period / s.prev
  }

  /** The same for the next window, where this window's count is fading. */
  function NextSlack(q: Quota, s: Counts, n: nat): nat
    requires n <= q.limit
  {
    MulMonotone(0, q.limit - n, q.period);
    if s.curr == 0 then q.period else (q.limit - n) * q.period / s.curr
  }

  /** `earliest_fit`: nanoseconds until `n` units first fit, absent other
      traffic. The caller has found that they do not fit now. */
  function EarliestFit(q: Quota, s: Counts, offset: nat, n: nat): nat
    requires offset < q.period && n <= q.limit
  {
    if s.curr + n <= q.limit && s.prev > 0 then
      Max(SatSub(q.period - Min(FadingSlack(q, s, n), q.period), offset), 1)
    else
      Clamp64(q.period - offset + (q.period - Min(NextSlack(q, s, n), q.period)))
  }

  function Acquire(q: Quota, s: Counts, n: nat, now: nat): (Decision, Counts) {
    if n == 0 then (Allow, s)
    else if q.limit == 0 || q.period == 0 || n > q.limit then (Deny(DURATION_MAX), s)
    else
      var realNow := Clamp64(now);
      var (r, nowNs) := Roll(q, s, realNow);
      var offset := Offset(q, nowNs);
      if Fits(q, r, offset, n) then (Allow, r.(curr := Min(r.curr + n, U32_MAX)))
      else (Deny(Max(Clamp64(EarliestFit(q, r, offset, n) + (nowNs - realNow)), 1)), r)
  }

  /** The most units that fit beside the weighted counts. */
  function Remaining(q: Quota, s: Counts, offset: nat): nat
    requires 0 < q.period && offset <= q.period
  {
    MulMonotone(0, q.limit, q.period);
    var headroom: nat := SatSub(q.limit * q.period, Weighted(q, s, offset));
    Min(headroom / q.period, U32_MAX)
  }

  /** The time until both counts have faded out. */
  function FullIn(q: Quota, s: Counts, offset: nat): nat
    requires offset <= q.period
  {
    if s.curr > 0 then Clamp64(q.period - offset + q.period)
    else if s.prev > 0 then q.period - offset else 0
  }

  /** `(remaining, reset_after)` and the counts, which peeking rolls. */
  function Peek(q: Quota, s: Counts, now: nat): (nat, nat, Counts) {
    if q.limit == 0 || q.period == 0 then (0, DURATION_MAX, s)
    else
      var realNow := Clamp64(now);
      var (r, nowNs) := Roll(q, s, realNow);
      var fullIn := FullIn(q, r, Offset(q, nowNs));
      (Min(Remaining(q, r, Offset(q, nowNs)), q.limit),
       if fullIn == 0 then 0 else Clamp64(fullIn + (nowNs - realNow)),
       r)
  }

  // ---------------------------------------------------------- the closed form

  /** How much of a period is left before `end`, at most a whole one. */
  function Share(period: nat, end: nat, t: nat): nat { Min(period, SatSub(end, t)) }

  /** The weight of the counts at `t`: a unit counted in window `w` weighs a
      whole period until window `w` ends, and fades over window `w + 1`. */
  function Weight(q: Quota, s: Counts, t: nat): nat {
    s.prev * Share(q.period, (s.window + 1) * q.period, t) +
    s.curr * Share(q.period, (s.window + 2) * q.period, t)
  }

  /** The counter is not so far ahead that its own window overflows. */
  predicate Sane(q: Quota, s: Counts) {
    s.window * q.period <= U64_MAX && s.curr <= q.limit && s.prev <= q.limit
  }

  lemma Boundaries(q: Quota, w: nat)
    ensures (w + 1) * q.period == w * q.period + q.period
    ensures (w + 2) * q.period == w * q.period + 2 * q.period
  {
  }

  lemma WindowNumber(q: Quota, t: nat)
    requires q.period > 0
    ensures var w := t / q.period;
            w * q.period <= t < w * q.period + q.period && t % q.period == t - w * q.period
  {
    FloorParts(t, q.period);
  }

  lemma RollNumber(q: Quota, s: Counts, t: nat)
    requires q.period > 0 && s.window * q.period <= U64_MAX
    ensures var (r, nowNs) := Roll(q, s, t);
            && nowNs == Max(t, s.window * q.period) && r.window == nowNs / q.period
            && r.window * q.period <= nowNs < r.window * q.period + q.period
            && Offset(q, nowNs) == nowNs - r.window * q.period
  {
    var nowNs := Max(t, s.window * q.period);
    WindowNumber(q, nowNs);
    FloorIff(nowNs, q.period, s.window);
  }

  /** Which window a reading rolls to, by where it falls. */
  lemma RollCases(q: Quota, s: Counts, t: nat)
    requires q.period > 0 && s.window * q.period <= U64_MAX
    ensures var r := Roll(q, s, t).0;
            var start := s.window * q.period;
            && (t < start + q.period ==> r == s)
            && (start + q.period <= t < start + 2 * q.period ==> r == Counts(s.window + 1, s.curr, 0))
            && (start + 2 * q.period <= t ==> r.prev == 0 && r.curr == 0 && r.window >= s.window + 2)
  {
    var nowNs := Max(t, s.window * q.period);
    Boundaries(q, s.window);
    FloorIff(nowNs, q.period, s.window + 1);
    FloorIff(nowNs, q.period, s.window + 2);
  }

  /** Rolling to a reading and weighing there is the closed form. */
  lemma WeightedIsWeight(q: Quota, s: Counts, t: nat)
    requires q.period > 0 && s.window * q.period <= U64_MAX
    ensures var (r, nowNs) := Roll(q, s, t);
            Weighted(q, r, Offset(q, nowNs)) == Weight(q, s, t)
  {
    RollNumber(q, s, t);
    RollCases(q, s, t);
    Boundaries(q, s.window);
  }

  /** Rolling forgets nothing about any later instant. */
  lemma RollKeepsLater(q: Quota, s: Counts, t: nat, later: nat)
    requires q.period > 0 && s.window * q.period <= U64_MAX && t <= later
    ensures Weight(q, Roll(q, s, t).0, later) == Weight(q, s, later)
  {
    RollCases(q, s, t);
    Boundaries(q, s.window);
    Boundaries(q, s.window + 1);
  }

  /** The weight only falls. */
  lemma WeightFalls(q: Quota, s: Counts, t: nat, later: nat)
    requires t <= later
    ensures Weight(q, s, later) <= Weight(q, s, t)
  {
    var e1, e2 := (s.window + 1) * q.period, (s.window + 2) * q.period;
    MulMonotoneRight(s.prev, Share(q.period, e1, later), Share(q.period, e1, t));
    MulMonotoneRight(s.curr, Share(q.period, e2, later), Share(q.period, e2, t));
  }

  /** `n` more units fit beside the weight at `t`. */
  predicate FitsAt(q: Quota, s: Counts, n: nat, t: nat) {
    Weight(q, s, t) + n * q.period <= q.limit * q.period
  }

  lemma AdmittedIff(q: Quota, s: Counts, n: nat, now: nat)
    requires Usable(q) && s.window * q.period <= U64_MAX && 0 < n <= q.limit && now <= U64_MAX
    ensures Acquire(q, s, n, now).0 == Allow <==> FitsAt(q, s, n, now)
  {
    WeightedIsWeight(q, s, now);
  }

  // ------------------------------------------------------------ earliest fit

  lemma Distribute(limit: nat, n: nat, curr: nat, period: nat)
    requires curr + n <= limit
    ensures (limit - n - curr) * period == limit * period - n * period - curr * period
  {
  }

  /** Inside the window, while the previous count fades. */
  lemma FitsWhileFadingIff(q: Quota, s: Counts, n: nat, o: nat)
    requires q.period > 0 && s.prev > 0 && s.curr + n <= q.limit && o <= q.period
    ensures FitsAt(q, s, n, s.window * q.period + o) <==>
              q.period - o <= FadingSlack(q, s, n)
  {
    Boundaries(q, s.window);
    FloorIff((q.limit - n - s.curr) * q.period, s.prev, q.period - o);
    Distribute(q.limit, n, s.curr, q.period);
  }

  /** In the next window, while this window's count fades. */
  lemma FitsNextWindowIff(q: Quota, s: Counts, n: nat, x: nat)
    requires q.period > 0 && s.curr > 0 && n <= q.limit && x <= q.period
    ensures FitsAt(q, s, n, (s.window + 1) * q.period + x) <==>
              q.period - x <= NextSlack(q, s, n)
  {
    Boundaries(q, s.window);
    FloorIff((q.limit - n) * q.period, s.curr, q.period - x);
    Distribute(q.limit, n, 0, q.period);
  }

  lemma NeverFitsThisWindow(q: Quota, s: Counts, n: nat, t: nat)
    requires q.period > 0 && s.curr + n > q.limit && t <= (s.window + 1) * q.period
    ensures !FitsAt(q, s, n, t)
  {
    Boundaries(q, s.window);
    MulMonotone(q.limit + 1, s.curr + n, q.period);
    assert (s.curr + n) * q.period == s.curr * q.period + n * q.period;
    assert (q.limit + 1) * q.period == q.limit * q.period + q.period;
  }

  lemma FitsMonotone(q: Quota, s: Counts, n: nat, t: nat, later: nat)
    requires t <= later && FitsAt(q, s, n, t)
    ensures FitsAt(q, s, n, later)
  {
    WeightFalls(q, s, t, later);
  }

  lemma FadingArithmetic(period: nat, offset: nat, slack: nat, start: nat, t: nat, fits: bool)
    requires offset < period && slack < period - offset && t >= start + offset
    requires t <= start + period ==> (fits <==> period - (t - start) <= slack)
    requires t > start + period ==> fits
    ensures fits <==> t >= start + offset + Max(SatSub(period - Min(slack, period), offset), 1)
  {
  }

  lemma FadingCase(q: Quota, s: Counts, offset: nat, n: nat, t: nat)
    requires Usable(q) && offset < q.period && n <= q.limit
    requires s.curr + n <= q.limit && s.prev > 0
    requires t >= s.window * q.period + offset && !FitsAt(q, s, n, s.window * q.period + offset)
    ensures FitsAt(q, s, n, t) <==> t >= s.window * q.period + offset + EarliestFit(q, s, offset, n)
  {
    var start := s.window * q.period;
    FitsWhileFadingIff(q, s, n, offset);
    if t <= start + q.period {
      FitsWhileFadingIff(q, s, n, t - start);
    } else {
      FitsWhileFadingIff(q, s, n, q.period);
      FitsMonotone(q, s, n, start + q.period, t);
    }
    FadingArithmetic(q.period, offset, FadingSlack(q, s, n), start, t, FitsAt(q, s, n, t));
  }

  lemma NextSlackWithinPeriod(q: Quota, s: Counts, n: nat)
    requires q.period > 0 && n <= q.limit < s.curr + n
    ensures NextSlack(q, s, n) < q.period
  {
    MulMonotone(q.limit - n + 1, s.curr, q.period);
    assert (q.limit - n + 1) * q.period == (q.limit - n) * q.period + q.period;
    FloorIff((q.limit - n) * q.period, s.curr, q.period);
  }

  lemma NextWindowArithmetic(period: nat, offset: nat, slack: nat, start: nat, t: nat, fits: bool)
    requires offset < period && slack < period && t >= start + offset && 2 * period <= U64_MAX
    requires t <= start + period ==> !fits
    requires start + period < t <= start + 2 * period ==> (fits <==> start + 2 * period - t <= slack)
    requires t > start + 2 * period ==> fits
    ensures fits <==> t >= start + offset + Clamp64(period - offset + (period - Min(slack, period)))
  {
  }

  lemma NextWindowCase(q: Quota, s: Counts, offset: nat, n: nat, t: nat)
    requires Usable(q) && offset < q.period && n <= q.limit && 2 * q.period <= U64_MAX
    requires s.curr + n > q.limit
    requires t >= s.window * q.period + offset
    ensures FitsAt(q, s, n, t) <==> t >= s.window * q.period + offset + EarliestFit(q, s, offset, n)
  {
    var start := s.window * q.period;
    Boundaries(q, s.window);
    NextSlackWithinPeriod(q, s, n);
    if t <= start + q.period {
      NeverFitsThisWindow(q, s, n, t);
    } else if t <= start + 2 * q.period {
      FitsNextWindowIff(q, s, n, t - (start + q.period));
    } else {
      FitsNextWindowIff(q, s, n, q.period);
      FitsMonotone(q, s, n, start + 2 * q.period, t);
    }
    NextWindowArithmetic(q.period, offset, NextSlack(q, s, n), start, t, FitsAt(q, s, n, t));
  }

  /** The earliest fit is exact on both branches and across one or two rolls. */
  lemma EarliestFitIsExact(q: Quota, s: Counts, offset: nat, n: nat, t: nat)
    requires Usable(q) && offset < q.period && n <= q.limit && 2 * q.period <= U64_MAX
    requires t >= s.window * q.period + offset && !FitsAt(q, s, n, s.window * q.period + offset)
    ensures FitsAt(q, s, n, t) <==> t >= s.window * q.period + offset + EarliestFit(q, s, offset, n)
  {
    if s.curr + n > q.limit {
      NextWindowCase(q, s, offset, n, t);
    } else if s.prev > 0 {
      FadingCase(q, s, offset, n, t);
    } else {
      Boundaries(q, s.window);
      Distribute(q.limit, n, s.curr, q.period);
      assert false;
    }
  }

  /** A late reading weighs the same as the start of the current window. */
  lemma LateWeighsTheSame(q: Quota, s: Counts, t: nat)
    requires t <= s.window * q.period
    ensures Weight(q, s, t) == Weight(q, s, s.window * q.period)
  {
    Boundaries(q, s.window);
  }

  lemma EarliestFitAtMostTwoPeriods(q: Quota, s: Counts, offset: nat, n: nat)
    requires q.period > 0 && offset < q.period && n <= q.limit
    ensures EarliestFit(q, s, offset, n) <= 2 * q.period
  {
  }

  /** What a denial leaves behind and reports. */
  lemma Denied(q: Quota, s: Counts, n: nat, now: nat)
    requires Usable(q) && s.window * q.period <= U64_MAX && 0 < n <= q.limit && now <= U64_MAX
    requires Max(now, s.window * q.period) + 2 * q.period <= U64_MAX
    requires Acquire(q, s, n, now).0.Deny?
    ensures var (r, nowNs) := Roll(q, s, now);
            var offset := Offset(q, nowNs);
            && Acquire(q, s, n, now) == (Deny(Max(EarliestFit(q, r, offset, n) + (nowNs - now), 1)), r)
            && nowNs == r.window * q.period + offset && (now < nowNs ==> offset == 0)
            && !FitsAt(q, r, n, nowNs)
  {
    var (r, nowNs) := Roll(q, s, now);
    RollNumber(q, s, now);
    EarliestFitAtMostTwoPeriods(q, r, Offset(q, nowNs), n);
    WeightedIsWeight(q, s, now);
    if nowNs > now {
      Boundaries(q, s.window);
      RollCases(q, s, now);
      LateWeighsTheSame(q, s, now);
    }
    RollKeepsLater(q, s, now, nowNs);
  }

  /** A denial's wait is exact, late readings included: absent other traffic the
      request is denied at every earlier instant and admitted from then on. */
  lemma RetryIsExact(q: Quota, s: Counts, n: nat, now: nat, t: nat)
    requires Usable(q) && s.window * q.period <= U64_MAX && 0 < n <= q.limit && now <= t <= U64_MAX
    requires Max(now, s.window * q.period) + 2 * q.period <= U64_MAX
    requires Acquire(q, s, n, now).0.Deny?
    ensures var (d, s') := Acquire(q, s, n, now);
            Acquire(q, s', n, t).0 == Allow <==> t >= now + d.retryAfter
  {
    var (r, nowNs) := Roll(q, s, now);
    Denied(q, s, n, now);
    RollNumber(q, s, now);
    AdmittedIff(q, r, n, t);
    EarliestFitIsExact(q, r, Offset(q, nowNs), n, Max(t, nowNs));
    EarliestFitIsExact(q, r, Offset(q, nowNs), n, nowNs);
    if t < nowNs { LateWeighsTheSame(q, r, t); }
  }

  // -------------------------------------------------------------------- peek

  lemma RemainingIsCeiling(limit: nat, period: nat, weight: nat)
    requires period > 0 && weight <= limit * period
    ensures var left := (limit * period - weight) / period;
            left <= limit && limit - left == CeilDiv(weight, period)
  {
    var left := (limit * period - weight) / period;
    FloorIff(limit * period - weight, period, left);
    FloorIff(limit * period - weight, period, left + 1);
    if left > limit { MulMonotone(limit + 1, left, period); }
    assert (left + 1) * period == left * period + period;
    assert (limit - left) * period == limit * period - left * period;
    CeilIff(weight, period, limit - left);
    if limit > left {
      assert (limit - left - 1) * period == (limit - left) * period - period;
      CeilIff(weight, period, limit - left - 1);
    }
  }

  /** What is not remaining is the weight, rounded up to whole units. */
  lemma PeekCounts(q: Quota, s: Counts, now: nat)
    requires Usable(q) && s.window * q.period <= U64_MAX && now <= U64_MAX
    requires Weight(q, s, now) <= q.limit * q.period
    ensures Peek(q, s, now).0 <= q.limit
    ensures q.limit - Peek(q, s, now).0 == CeilDiv(Weight(q, s, now), q.period)
  {
    WeightedIsWeight(q, s, now);
    RemainingIsCeiling(q.limit, q.period, Weight(q, s, now));
  }

  lemma FitsIffCeiling(limit: nat, n: nat, period: nat, weight: nat)
    requires period > 0 && n <= limit
    ensures weight + n * period <= limit * period <==> CeilDiv(weight, period) <= limit - n
  {
    Distribute(limit, n, 0, period);
    CeilIff(weight, period, limit - n);
  }

  /** `Peek`'s remaining count is the largest request that would be admitted. */
  lemma PeekReportsLargestAdmissible(q: Quota, s: Counts, n: nat, now: nat)
    requires Usable(q) && s.window * q.period <= U64_MAX && now <= U64_MAX && 0 < n <= q.limit
    requires Weight(q, s, now) <= q.limit * q.period
    ensures Acquire(q, s, n, now).0 == Allow <==> n <= Peek(q, s, now).0
  {
    AdmittedIff(q, s, n, now);
    PeekCounts(q, s, now);
    FitsIffCeiling(q.limit, n, q.period, Weight(q, s, now));
  }

  lemma ProductZeroIff(a: nat, b: nat)
    ensures a * b == 0 <==> a == 0 || b == 0
  {
  }

  /** When a count has faded out entirely. */
  lemma WeightZeroIff(q: Quota, s: Counts, t: nat)
    requires q.period > 0
    ensures Weight(q, s, t) == 0 <==>
              (s.prev == 0 || t >= (s.window + 1) * q.period) && (s.curr == 0 || t >= (s.window + 2) * q.period)
  {
    ProductZeroIff(s.prev, Share(q.period, (s.window + 1) * q.period, t));
    ProductZeroIff(s.curr, Share(q.period, (s.window + 2) * q.period, t));
  }

  /** `Peek`'s wait is exactly how long the weight takes to vanish. */
  lemma PeekWaits(q: Quota, s: Counts, now: nat, t: nat)
    requires Usable(q) && s.window * q.period <= U64_MAX && now <= t <= U64_MAX
    requires Max(now, s.window * q.period) + 2 * q.period <= U64_MAX
    ensures Weight(q, s, t) == 0 <==> t >= now + Peek(q, s, now).1
  {
    var (r, nowNs) := Roll(q, s, now);
    RollNumber(q, s, now);
    RollKeepsLater(q, s, now, t);
    Boundaries(q, r.window);
    WeightZeroIff(q, r, t);
  }

  /** A wait of `Duration::MAX` is reported exactly for what no fresh counter ever
      admits. */
  lemma NeverIff(q: Quota, s: Counts, n: nat, now: nat)
    ensures Acquire(q, s, n, now).0 == Deny(DURATION_MAX) <==> forall t: nat :: Acquire(q, New(q, t), n, t).0 != Allow
  {
    hide EarliestFit;
    if 0 < n <= q.limit && q.period > 0 {
      MulMonotone(n, q.limit, q.period);
      assert Acquire(q, New(q, 0), n, 0).0 == Allow;
    } else {
      assert forall t: nat :: Acquire(q, New(q, t), n, t).0 == Allow <==> n == 0;
      assert Acquire(q, New(q, 0), n, 0).0 == Allow <==> n == 0;
    }
  }

  /** A wait of `Duration::MAX` is reported exactly for a quota that admits nothing,
      and then nothing is left. */
  lemma PeekNeverIff(q: Quota, s: Counts, now: nat)
    ensures Peek(q, s, now).1 == DURATION_MAX <==>
              forall n: nat, t: nat :: n > 0 ==> Acquire(q, New(q, t), n, t).0 != Allow
    ensures Peek(q, s, now).1 == DURATION_MAX ==> Peek(q, s, now).0 == 0
  {
    NeverIff(q, s, 1, now);
    hide Acquire, FullIn, Remaining, Roll;
  }
}

/** The generic cell rate algorithm (src/gcra.rs): the virtual-scheduling form
    of Annex A of ITU-T I.371, with time counted in emission intervals.

    The functions follow the code's own arithmetic, saturation included. The one
    detour is the clock: `IntervalsAt` is the code's fixed-point conversion,
    `IntervalsExact` proves it equal to the plain floor `Iv`, and the decisions
    are written with `Iv`. */
module Gcra {
  import opened Units
  import opened Division

  datatype Quota = Quota(limit: nat, period: nat, burst: nat)

  datatype Params = Params(limit: nat, period: nat, perNs: nat, tolerance: nat)

  datatype Snapshot = Snapshot(limit: nat, remaining: nat, resetAfter: nat)

  function New(q: Quota): Params {
    var period := Clamp64(q.period);
    var limit := Min(q.limit, period);
    Params(limit, period,
           if limit == 0 || q.burst == 0 then 0 else limit * TWO64 / period,
           SatSub(q.burst, 1))
  }

  predicate Closed(p: Params) { p.perNs == 0 }

  /** What `New` guarantees of a quota that admits something. */
  predicate Open(p: Params) {
    && 1 <= p.limit <= p.period <= U64_MAX
    && p.tolerance < U32_MAX
    && p.perNs == p.limit * TWO64 / p.period
  }

  /** A zero reciprocal marks exactly the quotas that admit nothing, so it needs
      no separate flag. */
  lemma NewIsClosedIff(q: Quota)
    requires q.limit <= U32_MAX && q.burst <= U32_MAX
    ensures Closed(New(q)) <==> q.limit == 0 || q.period == 0 || q.burst == 0
    ensures !Closed(New(q)) ==> Open(New(q)) && New(q).tolerance + 1 == q.burst
  {
    var p := New(q);
    if p.limit > 0 {
      MulMonotone(1, p.limit, TWO64);
      FloorIff(p.limit * TWO64, p.period, 1);
    }
  }

  lemma OpenIsNotClosed(p: Params)
    requires Open(p)
    ensures !Closed(p)
  {
    MulMonotone(1, p.limit, TWO64);
    FloorIff(p.limit * TWO64, p.period, 1);
  }

  predicate AdmitsNothing(q: Quota) { q.limit == 0 || q.period == 0 || q.burst == 0 }

  /** Whole units that a rate of `limit` per `period` emits by `t`, at no more than
      one a nanosecond, with periods of the range of the clock. */
  function Emitted(q: Quota, t: nat): nat
    requires q.period > 0
  {
    var period := Clamp64(q.period);
    var limit := Min(q.limit, period);
    t * limit / period
  }

  /** `intervals_at`: a fixed-point reciprocal estimate and one correction. */
  function IntervalsAt(p: Params, nowNs: nat): nat {
    var estimate := nowNs * p.perNs / TWO64 % TWO64;
    if (estimate + 1) * p.period <= nowNs * p.limit then estimate + 1 else estimate
  }

  /** The number of whole emission intervals begun by `t`. */
  function Iv(p: Params, t: nat): nat
    requires p.period > 0
  {
    t * p.limit / p.period
  }

  /** `nanos_at`: the first nanosecond of an interval, saturating. */
  function NanosAt(p: Params, interval: nat): nat
    requires p.limit > 0
  {
    Clamp64(StartOf(p, interval))
  }

  function StartOf(p: Params, interval: nat): nat
    requires p.limit > 0
  {
    CeilDiv(interval * p.period, p.limit)
  }

  function CheckN(p: Params, tat: nat, n: nat, now: nat): (Decision, nat)
    requires Closed(p) || Open(p)
  {
    if n == 0 then (Allow, tat)
    else
      var span := n - 1;
      if Closed(p) || span > p.tolerance then (Deny(DURATION_MAX), tat)
      else
        var nowNs := Clamp64(now);
        var iv := Iv(p, nowNs);
        var ceiling := Clamp64(iv + p.tolerance);
        var effective := Max(tat, iv);
        if Clamp64(effective + span) <= ceiling then
          (Allow, Clamp64(effective + n))
        else
          var readyIv := Clamp64(effective + span) - p.tolerance;
          (Deny(Max(SatSub(NanosAt(p, readyIv), nowNs), 1)), tat)
  }

  function Peek(p: Params, tat: nat, now: nat): Snapshot
    requires Closed(p) || Open(p)
  {
    if Closed(p) then Snapshot(0, 0, DURATION_MAX)
    else
      var burst := p.tolerance + 1;
      var nowNs := Clamp64(now);
      var iv := Iv(p, nowNs);
      var word := Max(tat, iv);
      var remaining := SatSub(Clamp64(iv + burst), word);
      var resetAfter := if word == iv then 0 else SatSub(NanosAt(p, word), nowNs);
      Snapshot(burst, Min(Min(remaining, U32_MAX), burst), resetAfter)
  }

  predicate IsFull(p: Params, tat: nat, now: nat)
    requires Closed(p) || Open(p)
  {
    Closed(p) || tat <= Iv(p, Clamp64(now))
  }

  /** `restore_until_in`: `fetch_max` with the first interval that begins at or
      after `until`. */
  function RestoreUntil(p: Params, tat: nat, until: nat): nat
    requires Closed(p) || Open(p)
  {
    if Closed(p) then tat
    else
      var untilNs := Clamp64(until);
      var floor := Iv(p, untilNs);
      Max(tat, if NanosAt(p, floor) >= untilNs then floor else Clamp64(floor + 1))
  }

  // ---------------------------------------------------------------- the clock

  /** A reciprocal rounded down never overestimates. */
  lemma ReciprocalNotHigh(t: nat, l: nat, p: nat, m: nat, r: nat, e: nat)
    requires r * p <= l * m && e * m <= t * r && m > 0
    ensures e * p <= t * l
  {
    calc {
      e * p * m;
    ==
      e * m * p;
    <= { MulMonotone(e * m, t * r, p); }
      t * r * p;
    ==
      r * p * t;
    <= { MulMonotone(r * p, l * m, t); }
      l * m * t;
    ==
      t * l * m;
    }
    MulCancel(e * p, t * l, m);
  }

  lemma Expand(r: nat, p: nat, t: nat)
    ensures (r + 1) * p * t == t * r * p + t * p
    ensures (t + 1) * p == t * p + p
  {
    assert (r + 1) * p == r * p + p;
  }

  lemma Rescale(t: nat, l: nat, m: nat, e: nat, p: nat)
    ensures l * m * t == t * l * m
    ensures (e + 1) * m * p + m * p == (e + 2) * p * m
  {
    assert (e + 1) * m == e * m + m;
    assert (e + 2) * p == e * p + 2 * p;
  }

  lemma LessByScale(a: nat, b: nat, m: nat)
    requires a * m < b * m
    ensures a < b
  {
    if b <= a { MulMonotone(b, a, m); }
  }

  /** Nor does it underestimate by two, for times below the scale. */
  lemma ReciprocalNotLow(t: nat, l: nat, p: nat, m: nat, r: nat, e: nat)
    requires l * m < (r + 1) * p && t * r < (e + 1) * m && t < m && p > 0
    ensures t * l < (e + 2) * p
  {
    MulMonotone(l * m, (r + 1) * p, t);
    Expand(r, p, t);
    MulMonotone(t * r, (e + 1) * m, p);
    MulMonotone(t + 1, m, p);
    Rescale(t, l, m, e, p);
    LessByScale(t * l, (e + 2) * p, m);
  }

  lemma EstimateIsLowByAtMostOne(p: Params, t: nat)
    requires Open(p) && t <= U64_MAX
    ensures t * p.perNs / TWO64 <= Iv(p, t) <= t * p.perNs / TWO64 + 1
  {
    var e := t * p.perNs / TWO64;
    FloorIff(p.limit * TWO64, p.period, p.perNs);
    FloorIff(p.limit * TWO64, p.period, p.perNs + 1);
    FloorIff(t * p.perNs, TWO64, e);
    FloorIff(t * p.perNs, TWO64, e + 1);
    ReciprocalNotHigh(t, p.limit, p.period, TWO64, p.perNs, e);
    ReciprocalNotLow(t, p.limit, p.period, TWO64, p.perNs, e);
    FloorIff(t * p.limit, p.period, e);
    FloorIff(t * p.limit, p.period, e + 2);
  }

  lemma PerNsAtMostScale(p: Params)
    requires Open(p)
    ensures p.perNs <= TWO64
  {
    MulMonotone(p.limit, p.period, TWO64);
    FloorIff(p.limit * TWO64, p.period, TWO64 + 1);
  }

  lemma ProductFits(a: nat, b: nat)
    requires a < TWO64 && b <= TWO64
    ensures a * b < TWO128
  {
    MulMonotone(b, TWO64, a);
    MulMonotone(a, TWO64 - 1, TWO64);
  }

  lemma IvAtMostNanos(p: Params, t: nat)
    requires Open(p)
    ensures Iv(p, t) <= t
  {
    MulMonotone(p.limit, p.period, t);
    FloorMonotone(t * p.limit, t * p.period, p.period);
    FloorIff(t * p.period, p.period, t + 1);
    MulMonotone(p.period, p.period, t);
    assert (t + 1) * p.period > t * p.period;
  }

  /** No product on the way to an interval number reaches 2^128, and the
      estimate fits 64 bits. */
  lemma IntervalsNeverOverflow(p: Params, t: nat)
    requires Open(p) && t <= U64_MAX
    ensures t * p.perNs < TWO128 && t * p.limit < TWO128
    ensures (t * p.perNs / TWO64 + 1) * p.period < TWO128
    ensures t * p.perNs / TWO64 <= t
  {
    EstimateIsLowByAtMostOne(p, t);
    IvAtMostNanos(p, t);
    PerNsAtMostScale(p);
    ProductFits(t, p.perNs);
    ProductFits(t, p.limit);
    ProductFits(p.period, t * p.perNs / TWO64 + 1);
  }

  /** The reciprocal and its one correction give the exact floor. */
  lemma IntervalsExact(p: Params, t: nat)
    requires Open(p) && t <= U64_MAX
    ensures IntervalsAt(p, t) == Iv(p, t) <= t
  {
    EstimateIsLowByAtMostOne(p, t);
    IvAtMostNanos(p, t);
    FloorIff(t * p.limit, p.period, t * p.perNs / TWO64 + 1);
  }

  /** Interval `i` has begun at `t` exactly from its first nanosecond on: the
      two conversions are adjoint. */
  lemma IntervalBegunIff(p: Params, i: nat, t: nat)
    requires p.limit > 0 && p.period > 0
    ensures i <= Iv(p, t) <==> StartOf(p, i) <= t
  {
    FloorIff(t * p.limit, p.period, i);
    CeilIff(i * p.period, p.limit, t);
  }

  /** The intervals of a quota's parameters are the units its own rate emits, and
      the slack is its own burst. */
  lemma RateIsTheQuotas(q: Quota, t: nat)
    requires !AdmitsNothing(q)
    ensures New(q).period > 0 && Iv(New(q), t) == Emitted(q, t) && New(q).tolerance + 1 == q.burst
    ensures q.limit <= q.period <= U64_MAX ==> Emitted(q, t) == t * q.limit / q.period
  {
  }

  /** The saturating form is adjoint too, except that an interval starting past
      the `u64` range reads as begun in its very last nanosecond. */
  lemma IntervalBegunSaturatingIff(p: Params, i: nat, t: nat)
    requires Open(p) && t <= U64_MAX
    ensures (IntervalsAt(p, t) >= i <==> t >= NanosAt(p, i)) <==> (t < U64_MAX || StartOf(p, i) <= U64_MAX)
  {
    IntervalsExact(p, t);
    IntervalBegunIff(p, i, t);
  }

  lemma IvMonotone(p: Params, s: nat, t: nat)
    requires p.period > 0 && s <= t
    ensures Iv(p, s) <= Iv(p, t)
  {
    MulMonotone(s, t, p.limit);
    FloorMonotone(s * p.limit, t * p.limit, p.period);
  }

  /** Intervals are at least a nanosecond long, so no two start together. */
  lemma StartStrictlyIncreases(p: Params, i: nat, j: nat)
    requires Open(p) && i < j
    ensures StartOf(p, i) < StartOf(p, j)
  {
    var s := StartOf(p, j);
    CeilIff(j * p.period, p.limit, s);
    if s == 0 {
      MulMonotone(1, j, p.period);
      assert false;
    }
    MulMonotone(i + 1, j, p.period);
    assert (s - 1) * p.limit == s * p.limit - p.limit;
    assert (i + 1) * p.period == i * p.period + p.period;
    CeilIff(i * p.period, p.limit, s - 1);
  }

  // ---------------------------------------------------------------- decisions

  /** Below the `u64` ceiling a request is admitted exactly when its units fit
      under the burst counted from the current interval, and admission moves the
      word on by exactly those units. */
  lemma AdmittedIff(p: Params, tat: nat, n: nat, now: nat)
    requires Open(p) && now <= U64_MAX && n > 0
    requires Iv(p, now) + p.tolerance + 1 <= U64_MAX
    ensures CheckN(p, tat, n, now).0 == Allow <==>
              Max(tat, Iv(p, now)) + n <= Iv(p, now) + p.tolerance + 1
    ensures CheckN(p, tat, n, now).0 == Allow ==>
              CheckN(p, tat, n, now).1 == Max(tat, Iv(p, now)) + n
  {
  }

  /** That accounting is exact for every word and request exactly while the end
      of the burst is representable. Past it the sums saturate. */
  lemma AccountingExactIff(p: Params, now: nat)
    requires Open(p) && now <= U64_MAX
    ensures (forall tat: nat, n: nat :: tat <= U64_MAX && n > 0 && CheckN(p, tat, n, now).0 == Allow ==>
               CheckN(p, tat, n, now).1 == Max(tat, Iv(p, now)) + n <= Iv(p, now) + p.tolerance + 1)
            <==> Iv(p, now) + p.tolerance + 1 <= U64_MAX
  {
    if Iv(p, now) + p.tolerance + 1 <= U64_MAX {
      forall tat: nat, n: nat | tat <= U64_MAX && n > 0 && CheckN(p, tat, n, now).0 == Allow
        ensures CheckN(p, tat, n, now).1 == Max(tat, Iv(p, now)) + n <= Iv(p, now) + p.tolerance + 1
      {
        AdmittedIff(p, tat, n, now);
      }
    } else {
      assert CheckN(p, U64_MAX, 1, now) == (Allow, U64_MAX);
    }
  }

  /** A wait of `Duration::MAX` is reported exactly for what no fresh word ever
      admits. */
  lemma NeverIff(p: Params, tat: nat, n: nat, now: nat)
    requires Closed(p) || Open(p)
    ensures CheckN(p, tat, n, now).0 == Deny(DURATION_MAX) <==> forall t: nat :: CheckN(p, 0, n, t).0 != Allow
  {
    hide StartOf;
    if n > 0 && !Closed(p) && n - 1 <= p.tolerance {
      assert Iv(p, 0) == 0;
      assert CheckN(p, 0, n, 0).0 == Allow;
      assert forall i: nat :: NanosAt(p, i) < DURATION_MAX;
    } else {
      assert forall t: nat :: CheckN(p, 0, n, t).0 == Allow <==> n == 0;
      assert CheckN(p, 0, n, 0).0 == Allow <==> n == 0;
    }
  }

  /** Without saturation a denial's wait is the least sufficient one: waiting it
      out admits the request, and no shorter wait does. Past the `u64` range the
      reported wait falls short, so the condition is exact. */
  lemma RetryIsLeast(p: Params, tat: nat, n: nat, now: nat, wait: nat)
    requires Open(p) && now <= U64_MAX && 0 < n <= p.tolerance + 1
    requires Max(tat, Iv(p, now)) + n <= U64_MAX
    requires CheckN(p, tat, n, now).0.Deny?
    requires Iv(p, now + wait) + p.tolerance + 1 <= U64_MAX
    requires now + wait <= U64_MAX
    ensures var ready := Max(tat, Iv(p, now)) + n - 1 - p.tolerance;
            var retry := CheckN(p, tat, n, now).0.retryAfter;
            && (wait < retry ==> CheckN(p, tat, n, now + wait).0.Deny?)
            && (wait == retry ==>
                  (CheckN(p, tat, n, now + wait).0 == Allow <==> StartOf(p, ready) <= U64_MAX))
  {
    IvMonotone(p, now, now + wait);
    var ready := Max(tat, Iv(p, now)) + n - 1 - p.tolerance;
    assert ready > Iv(p, now);
    IntervalBegunIff(p, ready, now);
    IntervalBegunIff(p, ready, now + wait);
    assert CheckN(p, tat, n, now).0.retryAfter == Max(SatSub(NanosAt(p, ready), now), 1);
    AdmittedIff(p, tat, n, now + wait);
  }

  /** `Peek` reports the largest request that would be admitted. */
  lemma PeekReportsLargestAdmissible(p: Params, tat: nat, n: nat, now: nat)
    requires Open(p) && now <= U64_MAX && n > 0
    requires Iv(p, now) + p.tolerance + 1 <= U64_MAX
    ensures CheckN(p, tat, n, now).0 == Allow <==> n <= Peek(p, tat, now).remaining
  {
    AdmittedIff(p, tat, n, now);
  }

  /** `Peek`'s wait is the exact time until the bucket is whole. */
  lemma PeekResetIsExact(p: Params, tat: nat, now: nat, t: nat)
    requires Open(p) && now <= t < U64_MAX
    ensures IsFull(p, tat, t) <==> t >= now + Peek(p, tat, now).resetAfter
    ensures Peek(p, tat, now).resetAfter == 0 <==> IsFull(p, tat, now)
  {
    IvMonotone(p, now, t);
    IntervalBegunIff(p, tat, now);
    IntervalBegunIff(p, tat, t);
  }

  /** A wait of `Duration::MAX` is reported exactly for parameters that admit nothing;
      then nothing is left, and nothing is owed either. */
  lemma PeekNeverIff(p: Params, tat: nat, now: nat)
    requires Closed(p) || Open(p)
    ensures Peek(p, tat, now).resetAfter == DURATION_MAX <==>
              forall n: nat, t: nat :: n > 0 ==> CheckN(p, 0, n, t).0 != Allow
    ensures Peek(p, tat, now).resetAfter == DURATION_MAX ==> Peek(p, tat, now).remaining == 0 && IsFull(p, tat, now)
  {
    NeverIff(p, tat, 1, now);
    hide CheckN, StartOf, Iv;
  }

  // ------------------------------------------------------------ debt, restore

  /** Restoring raises the word to the least interval beginning at or after the
      deadline, and never lowers it. */
  lemma RestoreIsLeast(p: Params, tat: nat, until: nat)
    requires Open(p) && until <= U64_MAX
    ensures var w := RestoreUntil(p, tat, until);
            && w >= tat
            && StartOf(p, w) >= until
            && (w > tat ==> forall j: nat :: StartOf(p, j) >= until ==> w <= j)
  {
    var floor := Iv(p, until);
    IntervalBegunIff(p, floor, until);
    IntervalBegunIff(p, floor + 1, until);
    var w := RestoreUntil(p, tat, until);
    var least := if NanosAt(p, floor) >= until then floor else floor + 1;
    assert StartOf(p, least) >= until;
    if floor + 1 > U64_MAX {
      IvAtMostNanos(p, until);
      MulMonotone(p.limit, p.period, until);
      FloorIff(until * p.limit, p.period, until);
      assert until == U64_MAX == floor;
      assert until * p.period <= until * p.limit;
      MulCancel(p.period, p.limit, until);
      CeilIff(floor * p.period, p.limit, floor);
      CeilIff(floor * p.period, p.limit, floor - 1);
      assert (floor - 1) * p.limit < floor * p.period;
      assert NanosAt(p, floor) >= until;
    }
    assert w == Max(tat, least);
    if w > least { StartStrictlyIncreases(p, least, w); }
    forall j: nat | StartOf(p, j) >= until && w > tat
      ensures w <= j
    {
      if j < least {
        if least == floor {
          StartStrictlyIncreases(p, j, floor);
        } else if j < floor {
          StartStrictlyIncreases(p, j, floor);
        }
      }
    }
  }

  /** A key restored from the exact end of its own debt gets its own word back. */
  lemma RestoreOwnDebtIsExact(p: Params, tat: nat, now: nat)
    requires Open(p) && now <= U64_MAX && StartOf(p, tat) <= U64_MAX
    requires !IsFull(p, tat, now)
    ensures now + Peek(p, tat, now).resetAfter == StartOf(p, tat)
    ensures RestoreUntil(p, 0, StartOf(p, tat)) == tat
  {
    IntervalBegunIff(p, tat, now);
    var until := StartOf(p, tat);
    RestoreIsLeast(p, 0, until);
    var w := RestoreUntil(p, 0, until);
    if w < tat { StartStrictlyIncreases(p, w, tat); }
  }

  /** A deadline at or after a word's own gives back that word only if it is
      exactly its own. */
  lemma RestoreBetween(p: Params, tat: nat, until: nat)
    requires Open(p) && StartOf(p, tat) <= until <= U64_MAX
    ensures RestoreUntil(p, 0, until) >= tat
    ensures RestoreUntil(p, 0, until) == tat <==> until == StartOf(p, tat)
  {
    RestoreIsLeast(p, 0, until);
    var w := RestoreUntil(p, 0, until);
    if w < tat { StartStrictlyIncreases(p, w, tat); }
  }

  /** The store keeps deadlines in whole milliseconds, rounded up. A word that
      goes through it comes back no looser, and comes back unchanged exactly when
      its own interval starts on a whole millisecond. */
  lemma RestoreThroughMillis(p: Params, tat: nat)
    requires Open(p) && tat > 0
    requires CeilMillis(StartOf(p, tat)) * NANOS_PER_MILLI <= U64_MAX
    ensures var w := RestoreUntil(p, 0, CeilMillis(StartOf(p, tat)) * NANOS_PER_MILLI);
            && w >= tat
            && (w == tat <==> StartOf(p, tat) % NANOS_PER_MILLI == 0)
  {
    CeilMillisKeepsIff(StartOf(p, tat));
    RestoreBetween(p, tat, CeilMillis(StartOf(p, tat)) * NANOS_PER_MILLI);
  }

  /** So an eviction and return in the same instant can cost an interval, again
      and again: at seven units per twelve milliseconds, word 1 comes back as 2
      and word 2 as 3, with no time passing and nothing spent. */
  lemma RepeatedRestoreDrifts(p: Params)
    requires p == New(Quota(7, 12_000_000, 7))
    ensures Open(p)
    ensures RestoreUntil(p, 0, CeilMillis(StartOf(p, 1)) * NANOS_PER_MILLI) == 2
    ensures RestoreUntil(p, 0, CeilMillis(StartOf(p, 2)) * NANOS_PER_MILLI) == 3
  {
    NewIsClosedIff(Quota(7, 12_000_000, 7));
    assert StartOf(p, 1) == 1_714_286 && StartOf(p, 2) == 3_428_572;
    assert Iv(p, 2_000_000) == 1 && Iv(p, 4_000_000) == 2;
  }
}

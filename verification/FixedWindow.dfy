/** The fixed window counter (src/algo/fixed_window.rs): its two words, and the
    decisions of one thread alone with them. */
module FixedWindow {
  import opened Units
  import opened Division

  const TWO32: nat := 0x1_0000_0000

  datatype Quota = Quota(limit: nat, period: nat)

  /** The packed word and the full number of the newest window opened. */
  datatype Words = Words(word: nat, latest: nat)

  function LowBits(window: nat): nat { window % TWO32 }

  function Pack(index: nat, count: nat): nat { index * TWO32 + count }

  function IndexOf(word: nat): nat { word / TWO32 }

  function CountOf(word: nat): nat { word % TWO32 }

  lemma PackRoundTrip(index: nat, count: nat)
    requires index < TWO32 && count < TWO32
    ensures IndexOf(Pack(index, count)) == index && CountOf(Pack(index, count)) == count
    ensures Pack(index, count) <= U64_MAX
  {
  }

  predicate DenyAll(q: Quota) { q.limit == 0 || q.period == 0 }

  function WindowOf(q: Quota, nowNs: nat): nat {
    if q.period == 0 then 0 else nowNs / q.period
  }

  function UntilEndOf(q: Quota, window: nat, nowNs: nat): nat {
    SatSub(Clamp64(Clamp64(window + 1) * q.period), nowNs)
  }

  function CountIn(window: nat, word: nat, latest: nat): nat {
    if latest == window && IndexOf(word) == LowBits(window) then CountOf(word) else 0
  }

  function New(q: Quota, now: nat): Words {
    var window := WindowOf(q, Clamp64(now));
    Words(Pack(LowBits(window), 0), window)
  }

  /** One pass of the loop with no other thread about. */
  function Acquire(q: Quota, s: Words, n: nat, now: nat): (Decision, Words) {
    if n == 0 then (Allow, s)
    else if DenyAll(q) || n > q.limit then (Deny(DURATION_MAX), s)
    else
      var nowNs := Clamp64(now);
      var window := Max(WindowOf(q, nowNs), s.latest);
      var total := CountIn(window, s.word, s.latest) + n;
      if total > q.limit then (Deny(UntilEndOf(q, window, nowNs)), s)
      else (Allow, Words(Pack(LowBits(window), total), window))
  }

  /** What is left of the window, as `(remaining, reset_after)`. */
  function Peek(q: Quota, s: Words, now: nat): (nat, nat) {
    if DenyAll(q) then (0, DURATION_MAX)
    else
      var nowNs := Clamp64(now);
      var window := Max(WindowOf(q, nowNs), s.latest);
      var used := Min(CountIn(window, s.word, s.latest), q.limit);
      (q.limit - used, if used == 0 then 0 else UntilEndOf(q, window, nowNs))
  }

  // ---------------------------------------------------------------- the waits

  /** A reading has reached window `w` exactly from the window's start on. */
  lemma WindowReachedIff(q: Quota, w: nat, t: nat)
    requires q.period > 0
    ensures WindowOf(q, t) >= w <==> t >= w * q.period
  {
    FloorIff(t, q.period, w);
  }

  /** Only the newest window's own count denies a request that fits a window. */
  lemma DeniedByCount(q: Quota, s: Words, n: nat, now: nat)
    requires 0 < n <= q.limit && q.period > 0 && now <= U64_MAX && Acquire(q, s, n, now).0 != Allow
    ensures s.latest >= WindowOf(q, now) && CountIn(s.latest, s.word, s.latest) + n > q.limit
    ensures now < (s.latest + 1) * q.period
    ensures Acquire(q, s, n, now).0 == Deny(UntilEndOf(q, s.latest, now))
  {
    hide WindowOf, IndexOf, CountOf, UntilEndOf;
    WindowReachedIff(q, s.latest + 1, now);
  }

  /** The wait a denial reports is exact: whoever waits it out is admitted, and
      nobody sooner, readings older than the newest window included. If that window
      ends past the range of the clock, nobody ever is. */
  lemma RetryIsExact(q: Quota, s: Words, n: nat, now: nat, t: nat)
    requires 0 < n <= q.limit && q.period > 0 && now <= t <= U64_MAX && Acquire(q, s, n, now).0.Deny?
    ensures (s.latest + 1) * q.period <= U64_MAX ==>
              (Acquire(q, s, n, t).0 == Allow <==> t >= now + Acquire(q, s, n, now).0.retryAfter)
    ensures (s.latest + 1) * q.period > U64_MAX ==> Acquire(q, s, n, t).0 != Allow
  {
    DeniedByCount(q, s, n, now);
    WindowReachedIff(q, s.latest + 1, t);
    MulMonotoneRight(s.latest + 1, 1, q.period);
    hide WindowOf, IndexOf, CountOf;
  }

  /** A wait of `Duration::MAX` is reported exactly for what no window ever admits. */
  lemma NeverIff(q: Quota, s: Words, n: nat, now: nat)
    ensures Acquire(q, s, n, now).0 == Deny(DURATION_MAX) <==>
              forall t: nat :: Acquire(q, New(q, t), n, t).0 != Allow
  {
    hide WindowOf, IndexOf, CountOf;
    assert Acquire(q, New(q, 0), n, 0).0 == Allow <==> n == 0 || (!DenyAll(q) && n <= q.limit) by {
      PackRoundTrip(LowBits(WindowOf(q, 0)), 0);
    }
  }

  /** `Peek`'s remaining count is the largest request that would be admitted. */
  lemma PeekReportsLargestAdmissible(q: Quota, s: Words, n: nat, now: nat)
    ensures Acquire(q, s, n, now).0 == Allow <==> n <= Peek(q, s, now).0
  {
    hide WindowOf, CountIn, UntilEndOf;
  }

  /** The whole limit is left exactly if the newest window is over or empty. */
  lemma WholeIff(q: Quota, s: Words, t: nat)
    requires !DenyAll(q) && t <= U64_MAX
    ensures Peek(q, s, t).0 == q.limit <==>
              CountIn(s.latest, s.word, s.latest) == 0 || t >= (s.latest + 1) * q.period
  {
    WindowReachedIff(q, s.latest + 1, t);
    hide WindowOf, IndexOf, CountOf, LowBits, UntilEndOf;
  }

  /** Its wait is exactly how long it takes until the whole limit is left. */
  lemma PeekWaits(q: Quota, s: Words, now: nat, t: nat)
    requires !DenyAll(q) && now <= t <= U64_MAX && (s.latest + 1) * q.period <= U64_MAX
    ensures Peek(q, s, t).0 == q.limit <==> t >= now + Peek(q, s, now).1
    ensures Peek(q, s, now).1 == 0 <==> Peek(q, s, now).0 == q.limit
  {
    WholeIff(q, s, now);
    WholeIff(q, s, t);
    WindowReachedIff(q, s.latest + 1, now);
    MulMonotoneRight(s.latest + 1, 1, q.period);
    hide WindowOf, IndexOf, CountOf, LowBits;
  }

  /** A wait of `Duration::MAX` is reported exactly for a quota that admits nothing,
      and then nothing is left. */
  lemma PeekNeverIff(q: Quota, s: Words, now: nat)
    ensures Peek(q, s, now).1 == DURATION_MAX <==>
              forall n: nat, t: nat :: n > 0 ==> Acquire(q, New(q, t), n, t).0 != Allow
    ensures Peek(q, s, now).1 == DURATION_MAX ==> Peek(q, s, now).0 == 0
  {
    NeverIff(q, s, 1, now);
    hide Acquire, WindowOf, CountIn;
  }
}

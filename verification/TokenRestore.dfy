/** The anchor arithmetic with which a token bucket is rebuilt from a debt
    (src/algo/mod.rs:156-187). The bucket's own accounting is not part of this
    model; `Whole` states the rate it refills at. */
module TokenRestore {
  import opened Units
  import opened Division
  import opened RecoveryTable

  datatype Config = Config(capacity: nat, amount: nat, period: nat)

  predicate Valid(c: Config) {
    && 1 <= c.capacity <= U32_MAX && 1 <= c.amount <= U32_MAX
    && 1 <= c.period <= DURATION_MAX
  }

  /** Time to refill the whole capacity, rounded down. */
  function FullTime(c: Config): nat
    requires Valid(c)
  {
    MulMonotone(0, c.capacity, c.period);
    c.capacity * c.period / c.amount
  }

  /** Tokens already accrued at the time line's origin, if the bucket would have
      been empty before it. */
  function Accrued(c: Config, until: nat): nat
    requires Valid(c)
  {
    CeilDiv(SatSub(FullTime(c), until) * c.amount, c.period)
  }

  /** The instant of the anchor before it is clamped to 64 bits. */
  function RawAnchor(c: Config, until: nat): nat
    requires Valid(c)
  {
    SatSub(until + CeilDiv(Accrued(c, until) * c.period, c.amount), FullTime(c))
  }

  /** The rebuilt bucket: initial tokens, and the instant it holds them. */
  function Restore(c: Config, until: nat): (nat, nat)
    requires Valid(c)
  {
    var k := Accrued(c, until);
    (Min(if k <= U32_MAX then k else c.capacity, c.capacity), Clamp64(RawAnchor(c, until)))
  }

  /** `initial` tokens at `anchor` have grown to the capacity by `t`. */
  predicate Whole(c: Config, initial: nat, anchor: nat, t: nat) {
    t >= anchor && initial <= c.capacity &&
    (t - anchor) * c.amount >= (c.capacity - initial) * c.period
  }

  /** The accrued tokens never exceed the capacity, so neither fallback of the
      conversion to `u32` is ever taken. */
  lemma AccruedWithinCapacity(c: Config, until: nat)
    requires Valid(c)
    ensures Accrued(c, until) <= c.capacity
    ensures Restore(c, until).0 == Accrued(c, until)
  {
    var short := SatSub(FullTime(c), until);
    FloorIff(c.capacity * c.period, c.amount, FullTime(c));
    MulMonotone(short, FullTime(c), c.amount);
    CeilIff(short * c.amount, c.period, c.capacity);
  }

  /** The subtraction that gives the anchor never saturates. */
  lemma AnchorNeverClampsLow(c: Config, until: nat)
    requires Valid(c)
    ensures until + CeilDiv(Accrued(c, until) * c.period, c.amount) >= FullTime(c)
  {
    if until < FullTime(c) {
      var short, k := FullTime(c) - until, Accrued(c, until);
      CeilIff(short * c.amount, c.period, k);
      var back := CeilDiv(k * c.period, c.amount);
      CeilIff(k * c.period, c.amount, back);
      MulCancel(short, back, c.amount);
    }
  }

  lemma ProductBelow(a: nat, b: nat, bound: nat)
    requires a <= U32_MAX && b <= bound
    ensures a * b <= U32_MAX * bound
  {
    MulMonotone(a, U32_MAX, b);
    MulMonotone(b, bound, U32_MAX);
  }

  /** No intermediate value of the 128-bit arithmetic overflows. */
  lemma ProductsFit(c: Config, until: nat)
    requires Valid(c) && until <= DURATION_MAX
    ensures c.capacity * c.period < TWO128
    ensures SatSub(FullTime(c), until) * c.amount < TWO128
    ensures Accrued(c, until) * c.period < TWO128
    ensures until + CeilDiv(Accrued(c, until) * c.period, c.amount) < TWO128
  {
    AccruedWithinCapacity(c, until);
    ProductBelow(c.capacity, c.period, DURATION_MAX);
    var short, k := SatSub(FullTime(c), until), Accrued(c, until);
    FloorIff(c.capacity * c.period, c.amount, FullTime(c));
    MulMonotone(short, FullTime(c), c.amount);
    ProductBelow(k, c.period, DURATION_MAX);
    MulMonotone(1, c.amount, k * c.period);
    CeilIff(k * c.period, c.amount, k * c.period);
  }

  lemma AnchorIdentity(cap: nat, period: nat, amount: nat, k: nat, until: nat, back: nat, full: nat)
    requires k <= cap && full <= until + back && amount > 0
    requires k * period <= back * amount && (back > 0 ==> (back - 1) * amount < k * period)
    requires full * amount <= cap * period < (full + 1) * amount
    ensures var a := until + back - full;
            until * amount <= a * amount + (cap - k) * period < until * amount + 2 * amount
  {
    var a := until + back - full;
    assert a * amount == until * amount + back * amount - full * amount;
    assert (cap - k) * period == cap * period - k * period;
    assert (full + 1) * amount == full * amount + amount;
    if back > 0 { assert (back - 1) * amount == back * amount - amount; }
  }

  /** How far the anchor is from the exact rational instant: rounding the
      anchor up and the refill time down each cost less than a nanosecond. */
  lemma AnchorError(c: Config, until: nat)
    requires Valid(c)
    ensures var k := Accrued(c, until);
            k <= c.capacity &&
            until * c.amount <= RawAnchor(c, until) * c.amount + (c.capacity - k) * c.period
                             < until * c.amount + 2 * c.amount
  {
    AccruedWithinCapacity(c, until);
    AnchorNeverClampsLow(c, until);
    var k, full := Accrued(c, until), FullTime(c);
    var back := CeilDiv(k * c.period, c.amount);
    CeilIff(k * c.period, c.amount, back);
    if back > 0 { CeilIff(k * c.period, c.amount, back - 1); }
    FloorIff(c.capacity * c.period, c.amount, full);
    FloorIff(c.capacity * c.period, c.amount, full + 1);
    AnchorIdentity(c.capacity, c.period, c.amount, k, until, back, full);
  }

  lemma WholeBetween(amount: nat, missing: nat, anchor: nat, until: nat, t: nat)
    requires until * amount <= anchor * amount + missing < until * amount + 2 * amount
    requires amount > 0
    ensures t >= anchor && (t - anchor) * amount >= missing ==> t >= until
    ensures t >= until + 2 ==> t >= anchor && (t - anchor) * amount >= missing
  {
    assert (until + 2) * amount == until * amount + 2 * amount;
    if t >= until + 2 { MulMonotone(until + 2, t, amount); }
    if t < anchor {
      MulMonotone(t, anchor, amount);
    } else {
      assert (t - anchor) * amount == t * amount - anchor * amount;
      if t < until { MulMonotone(t + 1, until, amount); assert (t + 1) * amount == t * amount + amount; }
    }
  }

  /** Two-sided: short of the range of the anchor, the rebuilt bucket is whole
      no earlier than the debt's deadline, and is whole two nanoseconds after
      it. */
  lemma RestoredIsWholeOnTime(c: Config, until: nat, t: nat)
    requires Valid(c) && RawAnchor(c, until) <= U64_MAX
    ensures var (initial, anchor) := Restore(c, until);
            && (Whole(c, initial, anchor, t) ==> t >= until)
            && (t >= until + 2 ==> Whole(c, initial, anchor, t))
  {
    hide Accrued, RawAnchor, FullTime;
    AccruedWithinCapacity(c, until);
    AnchorError(c, until);
    var (initial, anchor) := Restore(c, until);
    WholeBetween(c.amount, (c.capacity - initial) * c.period, anchor, until, t);
  }

  /** Tokens at `t`, given `initial` at `anchor`: none accrue before the anchor. */
  function Tokens(c: Config, initial: nat, anchor: nat, t: nat): nat
    requires c.period > 0
  {
    Min(c.capacity, initial + SatSub(t, anchor) * c.amount / c.period)
  }

  /** The count of tokens is whole exactly when the bucket is. */
  lemma TokensAreWhole(c: Config, initial: nat, anchor: nat, t: nat)
    requires Valid(c) && initial <= c.capacity && t >= anchor
    ensures Tokens(c, initial, anchor, t) == c.capacity <==> Whole(c, initial, anchor, t)
  {
    FloorIff((t - anchor) * c.amount, c.period, c.capacity - initial);
  }

  /** Nothing had accrued at the origin exactly if the deadline is at least a
      whole refill after it. */
  lemma NothingAccruedIff(c: Config, until: nat)
    requires Valid(c)
    ensures Accrued(c, until) == 0 <==> until >= FullTime(c)
  {
    hide FullTime;
    var short := SatSub(FullTime(c), until);
    CeilIff(short * c.amount, c.period, 0);
    if short > 0 { MulMonotone(1, short, c.amount); }
  }

  lemma NoTokensBeforeAnchor(c: Config, initial: nat, anchor: nat, t: nat)
    requires c.period > 0 && initial <= c.capacity && t <= anchor
    ensures Tokens(c, initial, anchor, t) == initial
  {
    assert SatSub(t, anchor) == 0;
  }

  /** A debt whose anchor is past the representable range is never repaid: at
      every instant of the range the bucket holds what it was given and no more.
      That is nothing, as intended, exactly if the deadline is at least a whole
      refill after the origin; otherwise the tokens accrued by the origin are
      there for good. */
  lemma UnpayableDebtDrainsIff(c: Config, until: nat)
    requires Valid(c) && RawAnchor(c, until) > U64_MAX
    ensures var (initial, anchor) := Restore(c, until);
            && (forall t: nat :: t <= U64_MAX ==> Tokens(c, initial, anchor, t) == initial)
            && (initial == 0 <==> until >= FullTime(c))
            && initial == Accrued(c, until)
  {
    AccruedWithinCapacity(c, until);
    NothingAccruedIff(c, until);
    hide Accrued, RawAnchor, FullTime, Tokens;
    var (initial, anchor) := Restore(c, until);
    forall t: nat | t <= U64_MAX ensures Tokens(c, initial, anchor, t) == initial {
      NoTokensBeforeAnchor(c, initial, anchor, t);
    }
  }

  /** The bucket is given its whole capacity exactly if the deadline is closer to
      the origin than the refill of one token, all roundings told. */
  lemma GivenAllIff(c: Config, until: nat)
    requires Valid(c)
    ensures Restore(c, until).0 == c.capacity <==>
              until + (c.capacity - 1) * c.period / c.amount < FullTime(c)
  {
    AccruedWithinCapacity(c, until);
    hide FullTime;
    var short, most := SatSub(FullTime(c), until), (c.capacity - 1) * c.period;
    CeilIff(short * c.amount, c.period, c.capacity - 1);
    FloorIff(most, c.amount, short);
  }

  /** So a debt whose anchor is past the range comes back whole, at once and for
      good, exactly then. */
  lemma UnpayableDebtComesBackWholeIff(c: Config, until: nat)
    requires Valid(c) && RawAnchor(c, until) > U64_MAX
    ensures var (initial, anchor) := Restore(c, until);
            (forall t: nat :: t <= U64_MAX ==> Tokens(c, initial, anchor, t) == c.capacity) <==>
              until + (c.capacity - 1) * c.period / c.amount < FullTime(c)
  {
    GivenAllIff(c, until);
    UnpayableDebtDrainsIff(c, until);
    hide Restore, Tokens, FullTime, RawAnchor;
    var (initial, anchor) := Restore(c, until);
    assert Tokens(c, initial, anchor, 0) == initial;
  }

  lemma FullTimeFits(c: Config)
    requires Valid(c)
    ensures FullTime(c) * c.amount <= (c.capacity - 1) * c.period + c.period
  {
    FloorIff(c.capacity * c.period, c.amount, FullTime(c));
    assert c.capacity * c.period == (c.capacity - 1) * c.period + c.period;
  }

  lemma OneTokenLater(until: nat, most: nat, period: nat, amount: nat, full: nat)
    requires amount > 0 && full * amount <= most + period && until * amount >= period
    ensures until + most / amount >= full
  {
    var q := most / amount + 1;
    FloorIff(most, amount, q);
    assert (until + q) * amount == until * amount + q * amount;
    if full >= until + q { MulMonotone(until + q, full, amount); }
  }

  lemma GivenAtMostAll(c: Config, until: nat)
    requires Valid(c)
    ensures Restore(c, until).0 <= c.capacity
  {
    AccruedWithinCapacity(c, until);
  }

  /** A debt of a key's own, recorded in full, never does: it lasts at least until
      one token has been refilled from the origin. */
  lemma OwnDebtIsNotWhole(c: Config, until: nat)
    requires Valid(c) && until * c.amount >= c.period
    ensures Restore(c, until).0 < c.capacity
  {
    hide Restore, FullTime, Accrued, RawAnchor;
    var most: nat := (c.capacity - 1) * c.period;
    FullTimeFits(c);
    OneTokenLater(until, most, c.period, c.amount, FullTime(c));
    GivenAllIff(c, until);
    GivenAtMostAll(c, until);
  }

  /** But a record holds no deadline past 2^63 - 1 milliseconds. A key of two tokens
      at one per 10^25 ns that has spent one at the origin owes past that; its debt
      is recorded as the last deadline there is, and the bucket comes back whole. */
  lemma CappedDebtComesBackWhole(c: Config, owed: nat, until: nat)
    requires c == Config(2, 1, 10_000_000_000_000_000_000_000_000) && owed == c.period
    requires until == Min(CeilMillis(owed), RECORD_UNTIL_MAX) * NANOS_PER_MILLI
    ensures Valid(c) && owed * c.amount >= c.period && until < owed
    ensures RawAnchor(c, until) > U64_MAX && Restore(c, until).0 == c.capacity
  {
    assert FullTime(c) == 2 * c.period;
    assert until == RECORD_UNTIL_MAX * NANOS_PER_MILLI;
    GivenAllIff(c, until);
    AccruedWithinCapacity(c, until);
    assert RawAnchor(c, until) == until;
  }
}

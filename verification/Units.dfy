/** The vocabulary every module shares: machine limits, decisions, debts, and
    the millisecond rounding the store applies to nanosecond instants. */
module Units {

  const U32_MAX: nat := 0xFFFF_FFFF
  const U64_MAX: nat := 0xFFFF_FFFF_FFFF_FFFF
  const TWO64: nat := 0x1_0000_0000_0000_0000
  const TWO128: nat := TWO64 * TWO64

  /** `Duration::MAX` in nanoseconds: the wait of a request that never fits. */
  const DURATION_MAX: nat := U64_MAX * 1_000_000_000 + 999_999_999

  const NANOS_PER_MILLI: nat := 1_000_000

  datatype Option<+T> = None | Some(value: T)

  datatype Decision = Allow | Deny(retryAfter: nat)

  /** What an evicted key still owed: `spent` units, all back by `until` (ns). */
  datatype Debt = Debt(spent: nat, until: nat)

  function Min(a: nat, b: nat): nat { if a <= b then a else b }

  function Max(a: nat, b: nat): nat { if a >= b then a else b }

  /** A `u64` saturating conversion. */
  function Clamp64(x: nat): nat { Min(x, U64_MAX) }

  function SatSub(a: nat, b: nat): nat { if a >= b then a - b else 0 }

  /** `div_ceil`. */
  function CeilDiv(a: nat, b: nat): nat
    requires b > 0
  {
    (a + b - 1) / b
  }

  /** `millis`: whole milliseconds, rounded down. */
  function Millis(ns: nat): nat { Clamp64(ns / NANOS_PER_MILLI) }

  /** `ceil_millis`: only the sub-second part is rounded, so that the
      arithmetic stays in 64 bits. */
  function CeilMillis(ns: nat): nat {
    Clamp64(ns / 1_000_000_000 * 1_000 + CeilDiv(ns % 1_000_000_000, NANOS_PER_MILLI))
  }

  /** Rounding the sub-second part alone is the same as rounding the whole. */
  lemma CeilMillisIsCeiling(ns: nat)
    requires ns <= 2 * U64_MAX
    ensures CeilMillis(ns) * NANOS_PER_MILLI >= ns
    ensures forall m: nat :: m * NANOS_PER_MILLI >= ns ==> CeilMillis(ns) <= m
  {
  }

  /** A deadline is a later millisecond than an instant exactly when it is past
      the millisecond that instant lies in. */
  lemma CeilMillisAfter(due: nat, now: nat)
    requires due <= 2 * U64_MAX && now <= U64_MAX
    ensures due > now ==> CeilMillis(due) > Millis(now)
    ensures CeilMillis(due) <= Millis(now) ==> due <= now
    ensures Millis(now) * NANOS_PER_MILLI <= now < (Millis(now) + 1) * NANOS_PER_MILLI
  {
  }

  /** A deadline survives the rounding exactly when it is a whole millisecond. */
  lemma CeilMillisKeepsIff(ns: nat)
    requires CeilMillis(ns) * NANOS_PER_MILLI <= U64_MAX
    ensures ns <= CeilMillis(ns) * NANOS_PER_MILLI
    ensures ns == CeilMillis(ns) * NANOS_PER_MILLI <==> ns % NANOS_PER_MILLI == 0
  {
  }

  lemma CeilMillisMonotone(a: nat, b: nat)
    requires a <= b
    ensures CeilMillis(a) <= CeilMillis(b)
  {
  }
}

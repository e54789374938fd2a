/** Floor and ceiling division characterised by multiplication, so that no
    other proof reasons about `/` and `%` with a variable divisor. */
module Division {
  import opened Units

  lemma MulMonotone(a: nat, b: nat, c: nat)
    requires a <= b
    ensures a * c <= b * c
  {
  }

  lemma MulMonotoneRight(c: nat, a: nat, b: nat)
    requires a <= b
    ensures c * a <= c * b
  {
  }

  lemma MulCancel(a: nat, b: nat, c: nat)
    requires c > 0 && a * c <= b * c
    ensures a <= b
  {
    if a > b { MulMonotone(b + 1, a, c); }
  }

  lemma FloorParts(a: nat, d: nat)
    requires d > 0
    ensures a == a / d * d + a % d && 0 <= a % d < d
  {
  }

  /** `q <= floor(a / d)` exactly when `q * d <= a`. */
  lemma FloorIff(a: nat, d: nat, q: nat)
    requires d > 0
    ensures q <= a / d <==> q * d <= a
  {
    FloorParts(a, d);
    if q <= a / d {
      MulMonotone(q, a / d, d);
    } else {
      MulMonotone(a / d + 1, q, d);
    }
  }

  /** `ceil(a / d) <= q` exactly when `a <= q * d`. */
  lemma CeilIff(a: nat, d: nat, q: nat)
    requires d > 0
    ensures CeilDiv(a, d) <= q <==> a <= q * d
  {
    FloorIff(a + d - 1, d, q + 1);
    assert (q + 1) * d == q * d + d;
  }

  lemma FloorMonotone(a: nat, b: nat, d: nat)
    requires d > 0 && a <= b
    ensures a / d <= b / d
  {
    FloorIff(a, d, a / d);
    FloorIff(b, d, a / d);
  }
}

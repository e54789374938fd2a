/** Where a key's debts live in a recovery table (src/store.rs:423-481).

    The table reasons about any `Geometry` with the few properties of `Sound`;
    `ProbeGeometry` is the code's own, bit for bit, and `ProbeIsSound` proves
    that it has them. */
module Probe {
  import opened Units

  /** The hash-derived functions of a table of `buckets` buckets and `cells`
      overflow cells. */
  datatype Geometry = Geometry(
    buckets: nat,
    cells: nat,
    tagOf: nat -> nat,             // hash -> tag
    homeOf: nat -> nat,            // hash -> first bucket
    alt: (nat, nat) -> nat,        // bucket, tag -> the other bucket
    cellA: (nat, nat) -> nat,      // tag, lower bucket -> a cell
    cellB: (nat, nat) -> nat)

  /** What a record is found by: its tag and the lower of its two buckets. */
  datatype Id = Id(tag: nat, low: nat)

  ghost predicate Sound(g: Geometry) {
    && g.buckets >= 2 && g.cells >= 2
    && (forall h: nat :: g.tagOf(h) != 0)
    && (forall h: nat :: g.homeOf(h) < g.buckets)
    && (forall b: nat, tag: nat :: b < g.buckets ==> g.alt(b, tag) < g.buckets && g.alt(b, tag) != b)
    && (forall b: nat, tag: nat {:trigger g.alt(g.alt(b, tag), tag)} :: b < g.buckets ==>
          g.alt(g.alt(b, tag), tag) == b)
    && (forall tag: nat, low: nat :: g.cellA(tag, low) < g.cells && g.cellB(tag, low) < g.cells)
    && (forall tag: nat, low: nat :: g.cellA(tag, low) != g.cellB(tag, low))
  }

  /** The identity of a record with `tag` found in bucket `b`. */
  function IdAt(g: Geometry, b: nat, tag: nat): Id { Id(tag, Min(b, g.alt(b, tag))) }

  /** The identity of a key with hash `h`. */
  function IdOf(g: Geometry, h: nat): Id { IdAt(g, g.homeOf(h), g.tagOf(h)) }

  /** A record keeps its identity when it moves to its other bucket, so it can be
      moved without its key. */
  lemma MovingKeepsId(g: Geometry, b: nat, tag: nat)
    requires Sound(g) && b < g.buckets
    ensures IdAt(g, g.alt(b, tag), tag) == IdAt(g, b, tag)
  {
  }

  /** A record has a key's identity exactly when it bears the key's tag in one of
      the key's two buckets: what makes a two-bucket probe complete. */
  lemma ProbedIff(g: Geometry, h: nat, b: nat, tag: nat)
    requires Sound(g) && b < g.buckets
    ensures IdAt(g, b, tag) == IdOf(g, h) <==>
              tag == g.tagOf(h) && (b == g.homeOf(h) || b == g.alt(g.homeOf(h), g.tagOf(h)))
  {
    var home := g.homeOf(h);
    var other := g.alt(home, g.tagOf(h));
    if tag == g.tagOf(h) {
      assert g.alt(other, tag) == home;
      assert g.alt(g.alt(b, tag), tag) == b;
    }
  }

  // --------------------------------------------------------- the code's own

  const MIX: nat := 0x9E37_79B9_7F4A_7C15

  const MIX2: nat := 0xBF58_476D_1CE4_E5B9

  const TWO16: nat := 0x1_0000

  const TWO31: nat := 0x8000_0000

  const TWO32: nat := 0x1_0000_0000

  const TWO40: nat := 0x100_0000_0000

  /** Bitwise exclusive or. */
  function Xor(a: nat, b: nat): nat
    decreases a + b
  {
    if a == 0 then b
    else if b == 0 then a
    else 2 * Xor(a / 2, b / 2) + (if a % 2 == b % 2 then 0 else 1)
  }

  lemma {:induction false} XorSelf(a: nat)
    ensures Xor(a, a) == 0
    decreases a
  {
    if a > 0 { XorSelf(a / 2); }
  }

  lemma XorHalves(a: nat, b: nat)
    ensures Xor(a, b) / 2 == Xor(a / 2, b / 2)
    ensures Xor(a, b) % 2 == if a % 2 == b % 2 then 0 else 1
  {
  }

  lemma {:induction false} XorUndoes(a: nat, b: nat)
    ensures Xor(Xor(a, b), b) == a
    decreases a
  {
    if a == 0 {
      XorSelf(b);
    } else if b != 0 {
      XorUndoes(a / 2, b / 2);
      XorHalves(a, b);
      XorHalves(Xor(a, b), b);
    }
  }

  lemma {:induction false} XorOnlyZeroKeeps(a: nat, b: nat)
    requires Xor(a, b) == a
    ensures b == 0
    decreases b
  {
    if a > 0 && b > 0 {
      XorHalves(a, b);
      XorOnlyZeroKeeps(a / 2, b / 2);
    }
  }

  function Pow2(k: nat): (r: nat)
    ensures r >= 1 && (k > 0 ==> r >= 2)
  {
    if k == 0 then 1 else 2 * Pow2(k - 1)
  }

  lemma {:induction false} XorBelow(a: nat, b: nat, k: nat)
    requires a < Pow2(k) && b < Pow2(k)
    ensures Xor(a, b) < Pow2(k)
    decreases k
  {
    if a > 0 && b > 0 { XorBelow(a / 2, b / 2, k - 1); }
  }

  /** `pick`: the bits of `word` from a power of two up, masked to `len`, itself
      a power of two. */
  function Pick(word: nat, unit: nat, len: nat): (r: nat)
    requires unit > 0 && len > 0
    ensures r < len
  {
    word / unit % len
  }

  function TagOf(hash: nat): nat { if hash % TWO32 == 0 then 1 else hash % TWO32 }

  function HomeOf(hash: nat, buckets: nat): nat
    requires buckets > 0
  {
    Pick(hash * MIX % TWO64, TWO40, buckets)
  }

  function AltBucket(bucket: nat, tag: nat, buckets: nat): nat
    requires buckets > 0
  {
    Xor(bucket, Max(Pick(tag * MIX2 % TWO64, TWO32, buckets), 1))
  }

  function CellWord(tag: nat, low: nat): nat {
    var word := (low * TWO32 + tag) * MIX % TWO64;
    Xor(word, word / TWO31) * MIX2 % TWO64
  }

  function CellA(tag: nat, low: nat, cells: nat): (r: nat)
    requires cells > 0
    ensures r < cells
  {
    Pick(CellWord(tag, low), TWO40, cells)
  }

  function CellB(tag: nat, low: nat, cells: nat): nat
    requires cells > 0
  {
    var first, second := CellA(tag, low, cells), Pick(CellWord(tag, low), TWO16, cells);
    if second == first then (first + 1) % cells else second
  }

  /** `Probe::new` for tables of `2^kb` buckets and `2^kc` cells. */
  function ProbeGeometry(kb: nat, kc: nat): Geometry
  {
    Geometry(Pow2(kb), Pow2(kc), TagOf, h => HomeOf(h, Pow2(kb)), (b, tag) => AltBucket(b, tag, Pow2(kb)),
             (tag, low) => CellA(tag, low, Pow2(kc)), (tag, low) => CellB(tag, low, Pow2(kc)))
  }

  /** The other bucket exists, is another one, and leads back. */
  lemma AltIsAnInvolution(b: nat, tag: nat, k: nat)
    requires k >= 1 && b < Pow2(k)
    ensures AltBucket(b, tag, Pow2(k)) < Pow2(k)
    ensures AltBucket(b, tag, Pow2(k)) != b
    ensures AltBucket(AltBucket(b, tag, Pow2(k)), tag, Pow2(k)) == b
  {
    var offset := Max(Pick(tag * MIX2 % TWO64, TWO32, Pow2(k)), 1);
    XorBelow(b, offset, k);
    XorUndoes(b, offset);
    if Xor(b, offset) == b { XorOnlyZeroKeeps(b, offset); }
  }

  lemma CellsDiffer(tag: nat, low: nat, cells: nat)
    requires cells >= 2
    ensures CellA(tag, low, cells) < cells && CellB(tag, low, cells) < cells
    ensures CellA(tag, low, cells) != CellB(tag, low, cells)
  {
  }

  /** The code's own probe is sound for every table of at least two buckets and
      two cells. */
  lemma ProbeIsSound(kb: nat, kc: nat)
    requires kb >= 1 && kc >= 1
    ensures Sound(ProbeGeometry(kb, kc))
  {
    var g := ProbeGeometry(kb, kc);
    forall b: nat, tag: nat | b < g.buckets
      ensures g.alt(b, tag) < g.buckets && g.alt(b, tag) != b && g.alt(g.alt(b, tag), tag) == b
    {
      AltIsAnInvolution(b, tag, kb);
    }
    forall tag: nat, low: nat
      ensures g.cellA(tag, low) < g.cells && g.cellB(tag, low) < g.cells && g.cellA(tag, low) != g.cellB(tag, low)
    {
      CellsDiffer(tag, low, g.cells);
    }
  }
}

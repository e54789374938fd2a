/** Where the keys of `SpreadTable` live in a table of two buckets and eight cells,
    by the crate's own mixing of hashes (src/store.rs:423-481), worked out by hand:
    the exclusive or of two words goes by their digits to base four. */
module SpreadProbe {
  import opened Units
  import opened Probe
  import opened SpreadTable

  /** The exclusive or of two digits. */
  function Digit(a: nat, b: nat): nat {
    if a == 0 then b
    else if b == 0 then a
    else if a == b then 0
    else if a + b == 3 then 3
    else if a + b == 4 then 2
    else 1
  }

  lemma XorBit(a: nat, b: nat, p: nat, q: nat)
    requires p < 2 && q < 2
    ensures Xor(2 * a + p, 2 * b + q) == 2 * Xor(a, b) + if p == q then 0 else 1
  {
    hide Xor;
    XorHalves(2 * a + p, 2 * b + q);
  }

  lemma XorDigit(a: nat, b: nat, c: nat, d: nat)
    requires c < 4 && d < 4
    ensures Xor(4 * a + c, 4 * b + d) == 4 * Xor(a, b) + Digit(c, d)
  {
    hide Xor;
    var p, q := c / 2, d / 2;
    XorBit(a, b, p, q);
    XorBit(2 * a + p, 2 * b + q, c - 2 * p, d - 2 * q);
  }

  /** Three more digits. */
  lemma XorThree(a: nat, b: nat, x: nat, c: seq<nat>, d: seq<nat>, a': nat, b': nat, x': nat)
    requires Xor(a, b) == x && |c| == |d| == 3
    requires forall i :: 0 <= i < 3 ==> c[i] < 4 && d[i] < 4
    requires a' == 64 * a + 16 * c[0] + 4 * c[1] + c[2] && b' == 64 * b + 16 * d[0] + 4 * d[1] + d[2]
    requires x' == 64 * x + 16 * Digit(c[0], d[0]) + 4 * Digit(c[1], d[1]) + Digit(c[2], d[2])
    ensures Xor(a', b') == x'
  {
    hide Xor, Digit;
    XorDigit(a, b, c[0], d[0]);
    XorDigit(4 * a + c[0], 4 * b + d[0], c[1], d[1]);
    XorDigit(4 * (4 * a + c[0]) + c[1], 4 * (4 * b + d[0]) + d[1], c[2], d[2]);
  }

  lemma XorZero(a: nat)
    ensures Xor(a, 0) == a
  {
  }

  /** The cell word of a key in two buckets. */
  lemma WordFrom(tag: nat, word: nat, high: nat, x: nat)
    requires tag * MIX % TWO64 == word && word / TWO31 == high && Xor(word, high) == x
    ensures CellWord(tag, 0) == x * MIX2 % TWO64
  {
    hide Xor;
  }

  lemma WordOf5()
    ensures CellWord(5, 0) == 0x1715609f525ead57 * MIX2 % TWO64
  {
    hide Xor;
    XorZero(0x1715609);
    XorThree(0x1715609, 0x0, 0x1715609, [3, 3, 1], [0, 0, 0], 0x5c55827d, 0x0, 0x5c55827d);
    XorThree(0x5c55827d, 0x0, 0x5c55827d, [3, 3, 0], [2, 3, 2], 0x1715609f7c, 0x2e, 0x1715609f52);
    XorThree(0x1715609f7c, 0x2e, 0x1715609f52, [1, 3, 1], [0, 2, 2], 0x5c55827df1d, 0xb8a, 0x5c55827d497);
    XorThree(0x5c55827df1d, 0xb8a, 0x5c55827d497, [0, 1, 2], [2, 3, 0], 0x1715609f7c746, 0x2e2ac, 0x1715609f525ea);
    XorThree(0x1715609f7c746, 0x2e2ac, 0x1715609f525ea, [3, 0, 1], [0, 1, 0], 0x5c55827df1d1b1, 0xb8ab04,
      0x5c55827d497ab5);
    XorThree(0x5c55827df1d1b1, 0xb8ab04, 0x5c55827d497ab5, [2, 2, 1], [3, 3, 2], 0x1715609f7c746c69, 0x2e2ac13e,
      0x1715609f525ead57);
    hide Digit;
    WordFrom(5, 0x1715609f7c746c69, 0x2e2ac13e, 0x1715609f525ead57);
  }

  lemma CellsOf5()
    ensures CellA(5, 0, 8) == 6 && CellB(5, 0, 8) == 7
  {
    hide CellWord;
    WordOf5();
    assert 0x1715609f525ead57 * MIX2 % TWO64 == 0x1c13fe241cf616df;
  }

  lemma WordOf14()
    ensures CellWord(14, 0) == 0xa708a825b803996f * MIX2 % TWO64
  {
    hide Xor;
    XorZero(0xa708a82);
    XorThree(0xa708a82, 0x0, 0xa708a82, [1, 0, 3], [0, 1, 1], 0x29c22a093, 0x5, 0x29c22a096);
    XorThree(0x29c22a093, 0x5, 0x29c22a096, [3, 1, 2], [0, 3, 2], 0xa708a824f6, 0x14e, 0xa708a825b8);
    XorThree(0xa708a824f6, 0x14e, 0xa708a825b8, [0, 1, 0], [0, 1, 0], 0x29c22a093d84, 0x5384, 0x29c22a096e00);
    XorThree(0x29c22a093d84, 0x5384, 0x29c22a096e00, [2, 3, 0], [1, 1, 1], 0xa708a824f612c, 0x14e115, 0xa708a825b8039);
    XorThree(0xa708a824f612c, 0x14e115, 0xa708a825b8039, [2, 1, 0], [0, 0, 1], 0x29c22a093d84b24, 0x5384541,
      0x29c22a096e00e65);
    XorThree(0x29c22a093d84b24, 0x5384541, 0x29c22a096e00e65, [2, 1, 2], [0, 2, 1], 0xa708a824f612c926, 0x14e115049,
      0xa708a825b803996f);
    hide Digit;
    WordFrom(14, 0xa708a824f612c926, 0x14e115049, 0xa708a825b803996f);
  }

  lemma CellsOf14()
    ensures CellA(14, 0, 8) == 6 && CellB(14, 0, 8) == 7
  {
    hide CellWord;
    WordOf14();
    assert 0xa708a825b803996f * MIX2 % TWO64 == 0x3da1a61cfdb62c37;
  }

  lemma WordOf20()
    ensures CellWord(20, 0) == 0x5c55827d497ab55f * MIX2 % TWO64
  {
    hide Xor;
    XorZero(0x5c55827);
    XorThree(0x5c55827, 0x0, 0x5c55827, [3, 1, 3], [0, 0, 2], 0x1715609f7, 0x2, 0x1715609f5);
    XorThree(0x1715609f7, 0x2, 0x1715609f5, [3, 0, 1], [3, 2, 0], 0x5c55827df1, 0xb8, 0x5c55827d49);
    XorThree(0x5c55827df1, 0xb8, 0x5c55827d49, [3, 1, 0], [2, 2, 2], 0x1715609f7c74, 0x2e2a, 0x1715609f525e);
    XorThree(0x1715609f7c74, 0x2e2a, 0x1715609f525e, [1, 2, 3], [3, 0, 0], 0x5c55827df1d1b, 0xb8ab0, 0x5c55827d497ab);
    XorThree(0x5c55827df1d1b, 0xb8ab0, 0x5c55827d497ab, [0, 1, 2], [1, 0, 3], 0x1715609f7c746c6, 0x2e2ac13,
      0x1715609f525ead5);
    XorThree(0x1715609f7c746c6, 0x2e2ac13, 0x1715609f525ead5, [2, 1, 0], [3, 2, 3], 0x5c55827df1d1b1a4, 0xb8ab04fb,
      0x5c55827d497ab55f);
    hide Digit;
    WordFrom(20, 0x5c55827df1d1b1a4, 0xb8ab04fb, 0x5c55827d497ab55f);
  }

  lemma CellsOf20()
    ensures CellA(20, 0, 8) == 6 && CellB(20, 0, 8) == 7
  {
    hide CellWord;
    WordOf20();
    assert 0x5c55827d497ab55f * MIX2 % TWO64 == 0xae58ced7ca870ca7;
  }

  lemma WordOf42()
    ensures CellWord(42, 0) == 0xf519f86f080babaf * MIX2 % TWO64
  {
    hide Xor;
    XorZero(0xf519f86);
    XorThree(0xf519f86, 0x0, 0xf519f86, [3, 2, 3], [0, 1, 3], 0x3d467e1bb, 0x7, 0x3d467e1bc);
    XorThree(0x3d467e1bb, 0x7, 0x3d467e1bc, [2, 0, 2], [2, 2, 2], 0xf519f86ee2, 0x1ea, 0xf519f86f08);
    XorThree(0xf519f86ee2, 0x1ea, 0xf519f86f08, [0, 3, 2], [0, 3, 0], 0x3d467e1bb88e, 0x7a8c, 0x3d467e1bc202);
    XorThree(0x3d467e1bb88e, 0x7a8c, 0x3d467e1bc202, [0, 1, 1], [3, 3, 3], 0xf519f86ee2385, 0x1ea33f, 0xf519f86f080ba);
    XorThree(0xf519f86ee2385, 0x1ea33f, 0xf519f86f080ba, [2, 3, 1], [0, 0, 3], 0x3d467e1bb88e16d, 0x7a8cfc3,
      0x3d467e1bc202eae);
    XorThree(0x3d467e1bb88e16d, 0x7a8cfc3, 0x3d467e1bc202eae, [3, 0, 2], [1, 3, 1], 0xf519f86ee2385b72, 0x1ea33f0dd,
      0xf519f86f080babaf);
    hide Digit;
    WordFrom(42, 0xf519f86ee2385b72, 0x1ea33f0dd, 0xf519f86f080babaf);
  }

  lemma CellsOf42()
    ensures CellA(42, 0, 8) == 6 && CellB(42, 0, 8) == 7
  {
    hide CellWord;
    WordOf42();
    assert 0xf519f86f080babaf * MIX2 % TWO64 == 0x181ee1e4cde9c77;
  }

  lemma WordOf70()
    ensures CellWord(70, 0) == 0x432b48b8480b7ccf * MIX2 % TWO64
  {
    hide Xor;
    XorZero(0x432b48b);
    XorThree(0x432b48b, 0x0, 0x432b48b, [2, 0, 3], [0, 0, 2], 0x10cad22e3, 0x2, 0x10cad22e1);
    XorThree(0x10cad22e3, 0x2, 0x10cad22e1, [0, 3, 2], [0, 1, 2], 0x432b48b8ce, 0x86, 0x432b48b848);
    XorThree(0x432b48b8ce, 0x86, 0x432b48b848, [1, 1, 3], [1, 1, 1], 0x10cad22e3397, 0x2195, 0x10cad22e1202);
    XorThree(0x10cad22e3397, 0x2195, 0x10cad22e1202, [1, 3, 2], [2, 2, 1], 0x432b48b8ce5de, 0x86569, 0x432b48b8480b7);
    XorThree(0x432b48b8ce5de, 0x86569, 0x432b48b8480b7, [3, 1, 2], [0, 1, 1], 0x10cad22e33977b6, 0x2195a45,
      0x10cad22e1202df3);
    XorThree(0x10cad22e33977b6, 0x2195a45, 0x10cad22e1202df3, [3, 3, 2], [3, 0, 1], 0x432b48b8ce5dedbe, 0x86569171,
      0x432b48b8480b7ccf);
    hide Digit;
    WordFrom(70, 0x432b48b8ce5dedbe, 0x86569171, 0x432b48b8480b7ccf);
  }

  lemma CellsOf70()
    ensures CellA(70, 0, 8) == 6 && CellB(70, 0, 8) == 7
  {
    hide CellWord;
    WordOf70();
    assert 0x432b48b8480b7ccf * MIX2 % TWO64 == 0x62ff5ea3234e5c97;
  }

  lemma WordOf15()
    ensures CellWord(15, 0) == 0x454021deffdd0687 * MIX2 % TWO64
  {
    hide Xor;
    XorZero(0x454021d);
    XorThree(0x454021d, 0x0, 0x454021d, [3, 2, 1], [0, 0, 2], 0x115008779, 0x2, 0x11500877b);
    XorThree(0x115008779, 0x2, 0x11500877b, [3, 1, 1], [0, 2, 2], 0x454021de75, 0x8a, 0x454021deff);
    XorThree(0x454021de75, 0x8a, 0x454021deff, [1, 1, 3], [2, 0, 0], 0x115008779d57, 0x22a0, 0x11500877bff7);
    XorThree(0x115008779d57, 0x22a0, 0x11500877bff7, [1, 1, 0], [0, 1, 0], 0x454021de755d4, 0x8a804, 0x454021deffdd0);
    XorThree(0x454021de755d4, 0x8a804, 0x454021deffdd0, [1, 1, 0], [0, 3, 2], 0x115008779d57514, 0x22a010e,
      0x11500877bff741a);
    XorThree(0x115008779d57514, 0x22a010e, 0x11500877bff741a, [3, 2, 3], [3, 3, 0], 0x454021de755d453b, 0x8a8043bc,
      0x454021deffdd0687);
    hide Digit;
    WordFrom(15, 0x454021de755d453b, 0x8a8043bc, 0x454021deffdd0687);
  }

  lemma CellsOf15()
    ensures CellA(15, 0, 8) == 3 && CellB(15, 0, 8) == 4
  {
    hide CellWord;
    WordOf15();
    assert 0x454021deffdd0687 * MIX2 % TWO64 == 0x2d903b1331cc7a8f;
  }

  lemma WordOf6()
    ensures CellWord(6, 0) == 0xb54cda5991275ccf * MIX2 % TWO64
  {
    hide Xor;
    XorZero(0xb54cda5);
    XorThree(0xb54cda5, 0x0, 0xb54cda5, [2, 0, 3], [0, 1, 1], 0x2d5336963, 0x5, 0x2d5336966);
    XorThree(0x2d5336963, 0x5, 0x2d5336966, [3, 2, 3], [2, 2, 2], 0xb54cda58fb, 0x16a, 0xb54cda5991);
    XorThree(0xb54cda58fb, 0x16a, 0xb54cda5991, [2, 3, 3], [2, 1, 2], 0x2d5336963eef, 0x5aa6, 0x2d5336966449);
    XorThree(0x2d5336963eef, 0x5aa6, 0x2d5336966449, [2, 3, 2], [1, 2, 3], 0xb54cda58fbbee, 0x16a99b, 0xb54cda5991275);
    XorThree(0xb54cda58fbbee, 0x16a99b, 0xb54cda5991275, [2, 0, 1], [1, 0, 2], 0x2d5336963eefba1, 0x5aa66d2,
      0x2d5336966449d73);
    XorThree(0x2d5336963eefba1, 0x5aa66d2, 0x2d5336966449d73, [3, 3, 2], [3, 0, 1], 0xb54cda58fbbee87e, 0x16a99b4b1,
      0xb54cda5991275ccf);
    hide Digit;
    WordFrom(6, 0xb54cda58fbbee87e, 0x16a99b4b1, 0xb54cda5991275ccf);
  }

  lemma CellsOf6()
    ensures CellA(6, 0, 8) == 3 && CellB(6, 0, 8) == 4
  {
    hide CellWord;
    WordOf6();
    assert 0xb54cda5991275ccf * MIX2 % TWO64 == 0x18296bea67d33c97;
  }

  lemma Homes()
    ensures HomeOf(5, 2) == 0 && HomeOf(4, 2) == 0 && HomeOf(7, 2) == 0 && HomeOf(11, 2) == 0 && HomeOf(13, 2) == 0
    ensures HomeOf(21, 2) == 0 && HomeOf(26, 2) == 0 && HomeOf(27, 2) == 0 && HomeOf(28, 2) == 0
    ensures HomeOf(14, 2) == 0 && HomeOf(20, 2) == 0 && HomeOf(42, 2) == 0 && HomeOf(70, 2) == 0 && HomeOf(6, 2) == 0
    ensures HomeOf(2, 2) == 1 && HomeOf(3, 2) == 1 && HomeOf(8, 2) == 1 && HomeOf(9, 2) == 1 && HomeOf(15, 2) == 1
  {
  }

  lemma SmallTags(k: nat)
    requires 0 < k < 100
    ensures TagOf(k) == k
  {
  }

  lemma CastFrom(g: Geometry)
    requires Sound(g) && g.buckets == 2 && g.cells == 8
    requires forall h: nat :: g.tagOf(h) == TagOf(h) && g.homeOf(h) == HomeOf(h, 2)
    requires forall tag: nat :: g.cellA(tag, 0) == CellA(tag, 0, 8) && g.cellB(tag, 0) == CellB(tag, 0, 8)
    ensures Cast(g)
  {
    hide Sound, CellA, CellB, HomeOf, TagOf;
    Homes();
    CellsOf5();
    CellsOf14();
    CellsOf20();
    CellsOf42();
    CellsOf70();
    CellsOf15();
    CellsOf6();
    forall k: nat | 0 < k < 100 ensures g.tagOf(k) == k { SmallTags(k); }
  }

  lemma CrateParts(g: Geometry)
    requires g == ProbeGeometry(1, 3)
    ensures g.buckets == 2 && g.cells == 8
    ensures forall h: nat :: g.tagOf(h) == TagOf(h) && g.homeOf(h) == HomeOf(h, 2)
    ensures forall tag: nat :: g.cellA(tag, 0) == CellA(tag, 0, 8) && g.cellB(tag, 0) == CellB(tag, 0, 8)
  {
    assert Pow2(1) == 2 && Pow2(3) == 8;
    hide CellA, CellB, HomeOf, TagOf, Pow2;
  }

  /** So the keys are cast as the run needs them, in the crate's own table. */
  lemma CrateCast(g: Geometry)
    requires g == ProbeGeometry(1, 3)
    ensures Cast(g)
  {
    CrateParts(g);
    ProbeIsSound(1, 3);
    hide *;
    CastFrom(g);
  }
}

/** AES-256 on one block (src/aes.cpp): the tables, the field arithmetic, the round functions
    and their inverses, as FIPS 197 defines them. A block is sixteen bytes, column by column. */
module Aes {

  // ----- bytes ------------------------------------------------------------

  /** The table of substitutes, one row for each high digit, as the source lists it. */
  function Sbox(x: bv8): bv8
  {
    var row: bv128 :=
      if x < 0x10 then 0x637c777bf26b6fc53001672bfed7ab76
      else if x < 0x20 then 0xca82c97dfa5947f0add4a2af9ca472c0
      else if x < 0x30 then 0xb7fd9326363ff7cc34a5e5f171d83115
      else if x < 0x40 then 0x04c723c31896059a071280e2eb27b275
      else if x < 0x50 then 0x09832c1a1b6e5aa0523bd6b329e32f84
      else if x < 0x60 then 0x53d100ed20fcb15b6acbbe394a4c58cf
      else if x < 0x70 then 0xd0efaafb434d338545f9027f503c9fa8
      else if x < 0x80 then 0x51a3408f929d38f5bcb6da2110fff3d2
      else if x < 0x90 then 0xcd0c13ec5f974417c4a77e3d645d1973
      else if x < 0xa0 then 0x60814fdc222a908846eeb814de5e0bdb
      else if x < 0xb0 then 0xe0323a0a4906245cc2d3ac629195e479
      else if x < 0xc0 then 0xe7c8376d8dd54ea96c56f4ea657aae08
      else if x < 0xd0 then 0xba78252e1ca6b4c6e8dd741f4bbd8b8a
      else if x < 0xe0 then 0x703eb5664803f60e613557b986c11d9e
      else if x < 0xf0 then 0xe1f8981169d98e949b1e87e9ce5528df
      else 0x8ca1890dbfe6426841992d0fb054bb16;
    ((row >> ((15 - (x & 0xF)) << 3)) & 0xff) as bv8
  }

  function Rsbox(x: bv8): bv8
  {
    var row: bv128 :=
      if x < 0x10 then 0x52096ad53036a538bf40a39e81f3d7fb
      else if x < 0x20 then 0x7ce339829b2fff87348e4344c4dee9cb
      else if x < 0x30 then 0x547b9432a6c2233dee4c950b42fac34e
      else if x < 0x40 then 0x082ea16628d924b2765ba2496d8bd125
      else if x < 0x50 then 0x72f8f66486689816d4a45ccc5d65b692
      else if x < 0x60 then 0x6c704850fdedb9da5e154657a78d9d84
      else if x < 0x70 then 0x90d8ab008cbcd30af7e45805b8b34506
      else if x < 0x80 then 0xd02c1e8fca3f0f02c1afbd0301138a6b
      else if x < 0x90 then 0x3a9111414f67dcea97f2cfcef0b4e673
      else if x < 0xa0 then 0x96ac7422e7ad3585e2f937e81c75df6e
      else if x < 0xb0 then 0x47f11a711d29c5896fb7620eaa18be1b
      else if x < 0xc0 then 0xfc563e4bc6d279209adbc0fe78cd5af4
      else if x < 0xd0 then 0x1fdda8338807c731b11210592780ec5f
      else if x < 0xe0 then 0x60517fa919b54a0d2de57a9f93c99cef
      else if x < 0xf0 then 0xa0e03b4dae2af5b0c8ebbb3c83539961
      else 0x172b047eba77d626e169146355210c7d;
    ((row >> ((15 - (x & 0xF)) << 3)) & 0xff) as bv8
  }

  lemma SboxUndone(x: bv8)
    ensures Rsbox(Sbox(x)) == x
  {
  }

  lemma RsboxUndone(x: bv8)
    ensures Sbox(Rsbox(x)) == x
  {
  }

  /** The two tables undo each other. */
  lemma TablesUndoEachOther(x: bv8)
    ensures Rsbox(Sbox(x)) == x && Sbox(Rsbox(x)) == x
  {
    hide Sbox, Rsbox;
    SboxUndone(x);
    RsboxUndone(x);
  }

  /** Multiplication by x in the field of 256 elements. */
  function Xtime(x: bv8): bv8
  {
    (x << 1) ^ (((x >> 7) & 1) * 0x1b)
  }

  /** Multiplication by a factor below 32, as the source writes it. */
  function Multiply(x: bv8, y: bv8): bv8
  {
    ((y & 1) * x) ^
    (((y >> 1) & 1) * Xtime(x)) ^
    (((y >> 2) & 1) * Xtime(Xtime(x))) ^
    (((y >> 3) & 1) * Xtime(Xtime(Xtime(x)))) ^
    (((y >> 4) & 1) * Xtime(Xtime(Xtime(Xtime(x)))))
  }

  /** Multiplication by any element: the sum of the shifts of x that y selects. */
  function FieldProduct(x: bv8, y: bv8): bv8
  {
    var x1 := Xtime(x);
    var x2 := Xtime(x1);
    var x3 := Xtime(x2);
    var x4 := Xtime(x3);
    var x5 := Xtime(x4);
    var x6 := Xtime(x5);
    var x7 := Xtime(x6);
    (if y & 1 != 0 then x else 0) ^ (if y & 2 != 0 then x1 else 0) ^
    (if y & 4 != 0 then x2 else 0) ^ (if y & 8 != 0 then x3 else 0) ^
    (if y & 16 != 0 then x4 else 0) ^ (if y & 32 != 0 then x5 else 0) ^
    (if y & 64 != 0 then x6 else 0) ^ (if y & 128 != 0 then x7 else 0)
  }

  function Turned(x: bv8, n: bv4): bv8
    requires n <= 8
  {
    (x << n) | (x >> (8 - n))
  }

  /** The affine map of FIPS 197, section 5.1.1, and the map that undoes it. */
  function Affine(x: bv8): bv8
  {
    x ^ Turned(x, 1) ^ Turned(x, 2) ^ Turned(x, 3) ^ Turned(x, 4) ^ 0x63
  }

  function Unaffine(x: bv8): bv8
  {
    Turned(x, 1) ^ Turned(x, 3) ^ Turned(x, 6) ^ 0x05
  }

  lemma AffineUndone(x: bv8)
    ensures Affine(Unaffine(x)) == x
  {
  }

  /** The table is what section 5.1.1 defines: the affine map of the inverse in the field, or of
      zero for zero. */
  lemma SboxIsInverse(x: bv8) returns (inverse: bv8)
    ensures Sbox(x) == Affine(inverse)
    ensures x != 0 ==> FieldProduct(x, inverse) == 1
    ensures x == 0 ==> inverse == 0
  {
    inverse := Unaffine(Sbox(x));
    AffineUndone(Sbox(x));
  }

  /** The four factors of the inverse column mixing are computed as products in the field. */
  lemma MultiplyIsProduct(x: bv8)
    ensures Multiply(x, 0x0e) == FieldProduct(x, 0x0e) && Multiply(x, 0x0b) == FieldProduct(x, 0x0b)
    ensures Multiply(x, 0x0d) == FieldProduct(x, 0x0d) && Multiply(x, 0x09) == FieldProduct(x, 0x09)
  {
  }

  function Xor(a: bv8, b: bv8): bv8
  {
    a ^ b
  }

  lemma XorTwice(a: bv8, b: bv8)
    ensures Xor(Xor(a, b), b) == a
  {
  }

  function Sum3(a: bv8, b: bv8, c: bv8): bv8
  {
    Xor(Xor(a, b), c)
  }

  function Sum4(a: bv8, b: bv8, c: bv8, d: bv8): bv8
  {
    Xor(Sum3(a, b, c), d)
  }

  lemma XorPairs(a: bv8, b: bv8, p: bv8, q: bv8)
    ensures Xor(Xor(a, p), Xor(b, q)) == Xor(Xor(a, b), Xor(p, q))
  {
    hide Xor;
    XorGroups(a, p, Xor(b, q));
    XorGroups(p, b, q);
    XorGroups(b, p, q);
    XorGroups(a, b, Xor(p, q));
  }

  lemma XorGroups(a: bv8, b: bv8, c: bv8)
    ensures Xor(Xor(a, b), c) == Xor(a, Xor(b, c)) && Xor(a, b) == Xor(b, a)
  {
    XorGroupsBits(a, b, c);
  }

  lemma XorGroupsBits(a: bv8, b: bv8, c: bv8)
    ensures (a ^ b) ^ c == a ^ (b ^ c) && a ^ b == b ^ a
  {
  }

  // ----- columns ----------------------------------------------------------

  /** One byte of a mixed column: 2a + 3b + c + d, section 5.1.3. */
  function Mixed(a: bv8, b: bv8, c: bv8, d: bv8): bv8
  {
    Sum4(Xtime(a), Xor(Xtime(b), b), c, d)
  }

  /** One byte of an unmixed column: 0e a + 0b b + 0d c + 09 d, section 5.3.3. */
  function Unmixed(a: bv8, b: bv8, c: bv8, d: bv8): bv8
  {
    Sum4(Multiply(a, 0x0e), Multiply(b, 0x0b), Multiply(c, 0x0d), Multiply(d, 0x09))
  }

  lemma XtimeAdds(x: bv8, y: bv8)
    ensures Xtime(Xor(x, y)) == Xor(Xtime(x), Xtime(y))
  {
    XtimeAddsBits(x, y);
  }

  lemma XtimeAddsBits(x: bv8, y: bv8)
    ensures ((x ^ y) << 1) ^ ((((x ^ y) >> 7) & 1) * 0x1b)
         == ((x << 1) ^ (((x >> 7) & 1) * 0x1b)) ^ ((y << 1) ^ (((y >> 7) & 1) * 0x1b))
  {
  }

  /** The source's form with one doubling for two bytes. */
  lemma MixedFast(a: bv8, b: bv8, c: bv8, d: bv8)
    ensures Xor(a, Xor(Xtime(Xor(a, b)), Sum4(a, b, c, d))) == Mixed(a, b, c, d)
  {
    XtimeAdds(a, b);
    hide Xtime;
    FastSum(a, b, c, d, Xtime(a), Xtime(b));
  }

  lemma FastSum(a: bv8, b: bv8, c: bv8, d: bv8, x: bv8, y: bv8)
    ensures Xor(a, Xor(Xor(x, y), Sum4(a, b, c, d))) == Sum4(x, Xor(y, b), c, d)
  {
    FastSumBits(a, b, c, d, x, y);
  }

  lemma FastSumBits(a: bv8, b: bv8, c: bv8, d: bv8, x: bv8, y: bv8)
    ensures a ^ ((x ^ y) ^ (((a ^ b) ^ c) ^ d)) == ((x ^ (y ^ b)) ^ c) ^ d
  {
  }

  lemma MultiplySums(x: bv8)
    ensures var x2 := Xtime(x);
            var x4 := Xtime(x2);
            var x8 := Xtime(x4);
            && Multiply(x, 0x0e) == Sum3(x8, x4, x2) && Multiply(x, 0x0b) == Sum3(x8, x2, x)
            && Multiply(x, 0x0d) == Sum3(x8, x4, x) && Multiply(x, 0x09) == Xor(x8, x)
  {
  }

  lemma PairUp(a: bv8, b: bv8, c: bv8, p: bv8, q: bv8, r: bv8)
    ensures Sum3(Xor(a, p), Xor(b, q), Xor(c, r)) == Xor(Sum3(a, b, c), Sum3(p, q, r))
    ensures Xor(Xor(a, p), Xor(b, q)) == Xor(Xor(a, b), Xor(p, q))
  {
    hide Xor;
    XorPairs(a, b, p, q);
    XorPairs(Xor(a, b), c, Xor(p, q), r);
  }

  ghost predicate Factor(k: bv8)
  {
    k == 0x0e || k == 0x0b || k == 0x0d || k == 0x09
  }

  lemma MultiplyAdds(x: bv8, y: bv8, k: bv8)
    requires Factor(k)
    ensures Multiply(Xor(x, y), k) == Xor(Multiply(x, k), Multiply(y, k))
  {
    hide Multiply, Xtime, Xor, Sum3;
    var x2, y2 := Xtime(x), Xtime(y);
    var x4, y4 := Xtime(x2), Xtime(y2);
    var x8, y8 := Xtime(x4), Xtime(y4);
    XtimeAdds(x, y);
    XtimeAdds(x2, y2);
    XtimeAdds(x4, y4);
    MultiplySums(x);
    MultiplySums(y);
    MultiplySums(Xor(x, y));
    PairUp(x8, x4, x2, y8, y4, y2);
    PairUp(x8, x2, x, y8, y2, y);
    PairUp(x8, x4, x, y8, y4, y);
    PairUp(x8, x, x, y8, y, y);
  }

  lemma SumInPairs(a: bv8, b: bv8, c: bv8, d: bv8)
    ensures Sum4(a, b, c, d) == Xor(Xor(a, b), Xor(c, d))
  {
    hide Xor;
    XorGroups(Xor(a, b), c, d);
  }

  lemma MultiplyAdds4(w: bv8, x: bv8, y: bv8, z: bv8, k: bv8)
    requires Factor(k)
    ensures Multiply(Sum4(w, x, y, z), k) == Sum4(Multiply(w, k), Multiply(x, k), Multiply(y, k), Multiply(z, k))
  {
    hide Multiply, Factor, Xor, Sum4;
    SumInPairs(w, x, y, z);
    SumInPairs(Multiply(w, k), Multiply(x, k), Multiply(y, k), Multiply(z, k));
    MultiplyAdds(Xor(w, x), Xor(y, z), k);
    MultiplyAdds(w, x, k);
    MultiplyAdds(y, z, k);
  }

  /** The products of the two circulant matrices, entry by entry: one, and three zeros. */
  lemma Entries(x: bv8)
    ensures var x2 := Xtime(x);
            var x3 := Xor(x2, x);
            && Sum4(Multiply(x2, 0x0e), Multiply(x, 0x0b), Multiply(x, 0x0d), Multiply(x3, 0x09)) == x
            && Sum4(Multiply(x3, 0x0e), Multiply(x2, 0x0b), Multiply(x, 0x0d), Multiply(x, 0x09)) == 0
            && Sum4(Multiply(x, 0x0e), Multiply(x3, 0x0b), Multiply(x2, 0x0d), Multiply(x, 0x09)) == 0
            && Sum4(Multiply(x, 0x0e), Multiply(x, 0x0b), Multiply(x3, 0x0d), Multiply(x2, 0x09)) == 0
  {
  }

  /** Sixteen terms added by rows or by columns. */
  lemma Regroup(a0: bv8, a1: bv8, a2: bv8, a3: bv8, b0: bv8, b1: bv8, b2: bv8, b3: bv8,
                c0: bv8, c1: bv8, c2: bv8, c3: bv8, d0: bv8, d1: bv8, d2: bv8, d3: bv8)
    ensures Sum4(Sum4(a0, b0, c0, d0), Sum4(a1, b1, c1, d1), Sum4(a2, b2, c2, d2), Sum4(a3, b3, c3, d3))
         == Sum4(Sum4(a0, a1, a2, a3), Sum4(b0, b1, b2, b3), Sum4(c0, c1, c2, c3), Sum4(d0, d1, d2, d3))
  {
    hide Sum4, Xor;
    SumInPairs4(a0, b0, c0, d0, a1, b1, c1, d1);
    SumInPairs4(a2, b2, c2, d2, a3, b3, c3, d3);
    SumInPairs(Sum4(a0, b0, c0, d0), Sum4(a1, b1, c1, d1), Sum4(a2, b2, c2, d2), Sum4(a3, b3, c3, d3));
    SumInPairs4(Xor(a0, a1), Xor(b0, b1), Xor(c0, c1), Xor(d0, d1), Xor(a2, a3), Xor(b2, b3), Xor(c2, c3), Xor(d2, d3));
    SumInPairs(a0, a1, a2, a3);
    SumInPairs(b0, b1, b2, b3);
    SumInPairs(c0, c1, c2, c3);
    SumInPairs(d0, d1, d2, d3);
  }

  lemma SumInPairs4(a: bv8, b: bv8, c: bv8, d: bv8, p: bv8, q: bv8, r: bv8, s: bv8)
    ensures Xor(Sum4(a, b, c, d), Sum4(p, q, r, s)) == Sum4(Xor(a, p), Xor(b, q), Xor(c, r), Xor(d, s))
  {
    hide Xor, Sum4;
    SumInPairs(a, b, c, d);
    SumInPairs(p, q, r, s);
    SumInPairs(Xor(a, p), Xor(b, q), Xor(c, r), Xor(d, s));
    PairUp(a, b, 0, p, q, 0);
    PairUp(c, d, 0, r, s, 0);
    PairUp(Xor(a, b), Xor(c, d), 0, Xor(p, q), Xor(r, s), 0);
  }

  lemma Rotated(p: bv8, q: bv8, r: bv8, s: bv8)
    ensures Sum4(p, q, r, s) == Sum4(s, p, q, r)
  {
    hide Xor;
    XorGroups(s, p, q);
    XorGroups(s, Xor(p, q), r);
    XorGroups(Sum3(p, q, r), s, r);
  }

  lemma OneLeft(a: bv8)
    ensures Sum4(a, 0, 0, 0) == a
  {
  }

  /** Unmixing a mixed column gives its first byte back. */
  lemma ColumnReturns(a: bv8, b: bv8, c: bv8, d: bv8)
    ensures Unmixed(Mixed(a, b, c, d), Mixed(b, c, d, a), Mixed(c, d, a, b), Mixed(d, a, b, c)) == a
  {
    hide Xtime, Multiply, Xor, Sum4;
    var a2, b2, c2, d2 := Xtime(a), Xtime(b), Xtime(c), Xtime(d);
    var a3, b3, c3, d3 := Xor(a2, a), Xor(b2, b), Xor(c2, c), Xor(d2, d);
    Rotated(b2, c3, d, a);
    Rotated(c2, d3, a, b);
    Rotated(b, c2, d3, a);
    Rotated(d2, a3, b, c);
    Rotated(c, d2, a3, b);
    Rotated(b, c, d2, a3);
    MultiplyAdds4(a2, b3, c, d, 0x0e);
    MultiplyAdds4(a, b2, c3, d, 0x0b);
    MultiplyAdds4(a, b, c2, d3, 0x0d);
    MultiplyAdds4(a3, b, c, d2, 0x09);
    Regroup(Multiply(a2, 0x0e), Multiply(a, 0x0b), Multiply(a, 0x0d), Multiply(a3, 0x09),
            Multiply(b3, 0x0e), Multiply(b2, 0x0b), Multiply(b, 0x0d), Multiply(b, 0x09),
            Multiply(c, 0x0e), Multiply(c3, 0x0b), Multiply(c2, 0x0d), Multiply(c, 0x09),
            Multiply(d, 0x0e), Multiply(d, 0x0b), Multiply(d3, 0x0d), Multiply(d2, 0x09));
    Entries(a);
    Entries(b);
    Entries(c);
    Entries(d);
    OneLeft(a);
  }
}

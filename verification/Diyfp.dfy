/** Floating-point numbers with a 64-bit significand (utils/rapidjson/internal/diyfp.h). */
module Diyfp {
  import opened NumberTheory
  import opened Limbs

  const TOP_BIT := 0x8000_0000_0000_0000
  const HIDDEN_BIT := 0x10_0000_0000_0000

  /** The number f * 2^e. */
  datatype DiyFp = DiyFp(f: Limb, e: int)

  function Minus(a: DiyFp, b: DiyFp): DiyFp
  {
    DiyFp((a.f - b.f) % BASE, a.e)
  }

  // ----- multiplication ---------------------------------------------------

  /** The nearest multiple of 2^64, halves upwards. */
  function RoundedHigh(p: nat): nat
  {
    (p + TOP_BIT) / BASE
  }

  /** The form on a 128-bit product: its high half, plus one when the low half has its top bit. */
  function Multiply(a: DiyFp, b: DiyFp): DiyFp
  {
    ProductFits(a.f, b.f);
    var p := a.f * b.f;
    var h, l := p / BASE, p % BASE;
    DiyFp(if l >= TOP_BIT then (h + 1) % BASE else h, a.e + b.e + 64)
  }

  /** The portable form from four 32-bit half products, every sum kept to 64 bits. */
  function MultiplyPortable(x: DiyFp, y: DiyFp): DiyFp
  {
    var a, b, c, d := x.f / TWO_32, x.f % TWO_32, y.f / TWO_32, y.f % TWO_32;
    HalfProduct(a, c);
    HalfProduct(b, c);
    HalfProduct(a, d);
    HalfProduct(b, d);
    DiyFp(PortableHigh(a * c, b * c, a * d, b * d), x.e + y.e + 64)
  }

  function PortableHigh(ac: Limb, bc: Limb, ad: Limb, bd: Limb): Limb
  {
    var tmp := Wrap(Wrap(bd / TWO_32 + ad % TWO_32 + bc % TWO_32) as int + 0x8000_0000);
    Wrap(ac as int + ad / TWO_32 + bc / TWO_32 + tmp / TWO_32)
  }

  lemma ProductFits(a: Limb, b: Limb)
    ensures 0 <= a * b <= (BASE - 1) * (BASE - 1)
    ensures (a * b) / BASE < BASE - 1 && RoundedHigh(a * b) < BASE
  {
    MulMonotone(a, b, BASE - 1, BASE - 1);
  }

  lemma RoundingUp(p: nat)
    ensures RoundedHigh(p) == p / BASE + (if p % BASE >= TOP_BIT then 1 else 0)
  {
    DivModUnique(p + TOP_BIT, p / BASE + (if p % BASE >= TOP_BIT then 1 else 0),
                 if p % BASE >= TOP_BIT then p % BASE - TOP_BIT else p % BASE + TOP_BIT, BASE);
  }

  lemma MultiplyRounds(a: DiyFp, b: DiyFp)
    ensures 0 <= a.f * b.f && Multiply(a, b) == DiyFp(RoundedHigh(a.f * b.f), a.e + b.e + 64)
  {
    ProductFits(a.f, b.f);
    var p := a.f * b.f;
    RoundingUp(p);
    OneMore(p / BASE);
  }

  lemma OneMore(h: nat)
    requires h < BASE - 1
    ensures (h + 1) % BASE == h + 1
  {
  }

  /** The rounded high half from the half products: only 2^32 times the middle column and
      the low product are below the cut. */
  lemma RoundedColumns(ac: nat, ad: nat, bc: nat, bd: nat)
    ensures var mid := bd / TWO_32 + ad % TWO_32 + bc % TWO_32 + 0x8000_0000;
            RoundedHigh(ac * BASE + TWO_32 * (ad + bc) + bd) == ac + ad / TWO_32 + bc / TWO_32 + mid / TWO_32
  {
    var mid := bd / TWO_32 + ad % TWO_32 + bc % TWO_32 + 0x8000_0000;
    var p := ac * BASE + TWO_32 * (ad + bc) + bd;
    assert p + TOP_BIT == (ac + ad / TWO_32 + bc / TWO_32) * BASE + mid * TWO_32 + bd % TWO_32;
    assert mid * TWO_32 + bd % TWO_32 == (mid / TWO_32) * BASE + (mid % TWO_32) * TWO_32 + bd % TWO_32;
    DivModUnique(p + TOP_BIT, ac + ad / TWO_32 + bc / TWO_32 + mid / TWO_32,
                 (mid % TWO_32) * TWO_32 + bd % TWO_32, BASE);
  }

  lemma Halves(x: nat, y: nat, a: nat, b: nat, c: nat, d: nat)
    requires x == a * TWO_32 + b && y == c * TWO_32 + d
    ensures x * y == a * c * BASE + TWO_32 * (a * d + b * c) + b * d
  {
    assert x * y == TWO_32 * (a * y) + b * y;
    assert a * y == TWO_32 * (a * c) + a * d;
    assert b * y == TWO_32 * (b * c) + b * d;
  }

  /** The sums of half products in the order the portable form takes them. */
  lemma SmallSums(ac: nat, ad: nat, bc: nat, bd: nat)
    requires bd < BASE
    ensures var mid := bd / TWO_32 + ad % TWO_32 + bc % TWO_32;
            Wrap(Wrap(mid) as int + 0x8000_0000) == mid + 0x8000_0000
  {
  }

  lemma WrapSmall(n: nat)
    requires n < BASE
    ensures Wrap(n) == n
  {
  }

  /** Both forms compute the exact product rounded to its high half; nothing wraps. */
  lemma ProductsAgree(x: DiyFp, y: DiyFp)
    ensures 0 <= x.f * y.f && Multiply(x, y).f == RoundedHigh(x.f * y.f)
    ensures MultiplyPortable(x, y) == Multiply(x, y)
  {
    hide RoundedHigh, Wrap, Multiply;
    var a, b, c, d := x.f / TWO_32, x.f % TWO_32, y.f / TWO_32, y.f % TWO_32;
    MultiplyRounds(x, y);
    ProductFits(x.f, y.f);
    HalfProduct(a, c);
    HalfProduct(b, c);
    HalfProduct(a, d);
    HalfProduct(b, d);
    Halves(x.f, y.f, a, b, c, d);
    var ac, bc, ad, bd := a * c, b * c, a * d, b * d;
    RoundedColumns(ac, ad, bc, bd);
    SmallSums(ac, ad, bc, bd);
    WrapSmall(RoundedHigh(x.f * y.f));
  }

  // ----- normalisation ----------------------------------------------------

  /** The number of zero bits above the highest set one. */
  function LeadingZeros(f: Limb): (n: nat)
    requires f > 0
    ensures n < 64
    ensures TOP_BIT <= f * Pow(2, n) < BASE
    decreases BASE - f
  {
    if f >= TOP_BIT then 0
    else
      var n := LeadingZeros(2 * f);
      assert f * Pow(2, n + 1) == (2 * f) * Pow(2, n);
      ShortShift(f, n + 1);
      n + 1
  }

  /** A shift that keeps a nonzero significand in 64 bits is shorter than 64. */
  lemma ShortShift(f: nat, n: nat)
    requires f > 0 && f * Pow(2, n) < BASE
    ensures n < 64
  {
    if n >= 64 {
      PowIncreases(2, 64, n);
      TwoTo64();
      MulMonotone(1, Pow(2, 64), f, Pow(2, n));
      assert false;
    }
  }

  /** The shift that puts the top bit in place is unique. */
  lemma NormalShiftUnique(f: nat, m: nat, n: nat)
    requires TOP_BIT <= f * Pow(2, m) < BASE && TOP_BIT <= f * Pow(2, n) < BASE
    ensures m == n
  {
    if m < n {
      ShiftGap(f, m, n);
    } else if n < m {
      ShiftGap(f, n, m);
    }
  }

  lemma ShiftGap(f: nat, m: nat, n: nat)
    requires m < n
    ensures f * Pow(2, n) >= 2 * (f * Pow(2, m))
  {
    PowIncreases(2, m + 1, n);
    MulMonotone(f, Pow(2, m + 1), f, Pow(2, n));
    assert f * (2 * Pow(2, m)) == 2 * (f * Pow(2, m));
  }

  function Normalize(x: DiyFp): DiyFp
    requires x.f > 0
  {
    var s := LeadingZeros(x.f);
    DiyFp(x.f * Pow(2, s), x.e - s)
  }

  /** The loop form for compilers without a count of leading zeros. */
  method NormalizeByLoop(x: DiyFp) returns (res: DiyFp)
    requires x.f > 0
    ensures res == Normalize(x)
  {
    hide LeadingZeros, Pow, Wrap;
    PowZero();
    res := x;
    while res.f < TOP_BIT
      invariant 0 < res.f && res.e <= x.e && x.f * Pow(2, x.e - res.e) == res.f
      decreases BASE - res.f
    {
      PowDoubles(x.f, x.e - res.e);
      WrapSmall(res.f as int * 2);
      res := DiyFp(Wrap(res.f as int * 2), res.e - 1);
    }
    NormalShiftUnique(x.f, x.e - res.e, LeadingZeros(x.f));
  }

  lemma PowZero()
    ensures Pow(2, 0) == 1
  {
  }

  lemma PowDoubles(f: nat, n: nat)
    ensures f * Pow(2, n + 1) == (f * Pow(2, n)) * 2
  {
  }

  lemma Bit53(f: nat)
    requires f < 4 * HIDDEN_BIT
    ensures f / (2 * HIDDEN_BIT) % 2 == 0 <==> f < 2 * HIDDEN_BIT
  {
  }

  /** Normalises a significand of at most 54 bits, testing bit 53 and then shifting by ten. */
  method NormalizeBoundary(x: DiyFp) returns (res: DiyFp)
    requires 0 < x.f < 4 * HIDDEN_BIT
    ensures res == Normalize(x) && res.e <= x.e - 10
  {
    hide LeadingZeros, Pow, Wrap;
    PowZero();
    res := x;
    while res.f / (2 * HIDDEN_BIT) % 2 == 0
      invariant 0 < res.f < 4 * HIDDEN_BIT && res.e <= x.e && x.f * Pow(2, x.e - res.e) == res.f
      decreases BASE - res.f
    {
      Bit53(res.f);
      PowDoubles(x.f, x.e - res.e);
      WrapSmall(res.f as int * 2);
      res := DiyFp(Wrap(res.f as int * 2), res.e - 1);
    }
    Bit53(res.f);
    TenMore(x.f, x.e - res.e);
    WrapSmall(res.f as int * 0x400);
    res := DiyFp(Wrap(res.f as int * 0x400), res.e - 10);
    NormalShiftUnique(x.f, x.e - res.e, LeadingZeros(x.f));
  }

  lemma TenMore(f: nat, n: nat)
    ensures f * Pow(2, n + 10) == (f * Pow(2, n)) * 0x400
  {
    PowAdd(2, n, 10);
    assert Pow(2, 10) == 0x400;
    assert f * (Pow(2, n) * 0x400) == (f * Pow(2, n)) * 0x400;
  }

  // ----- the neighbours of a double ---------------------------------------

  /** Half the gap to the double above, and to the one below, in units of the normalised
      significand. The gap below a power of two is half as wide. */
  function GapAbove(f: Limb): nat
    requires 0 < f < 2 * HIDDEN_BIT
  {
    ElevenSpare(f);
    PowPositive(2, LeadingZeros(f) - 1);
    Pow(2, LeadingZeros(f) - 1)
  }

  function GapBelow(f: Limb): nat
    requires 0 < f < 2 * HIDDEN_BIT
  {
    ElevenSpare(f);
    PowPositive(2, LeadingZeros(f) - 2);
    if f == HIDDEN_BIT then Pow(2, LeadingZeros(f) - 2) else GapAbove(f)
  }

  lemma ElevenSpare(f: Limb)
    requires 0 < f < 2 * HIDDEN_BIT
    ensures LeadingZeros(f) >= 11
  {
    hide LeadingZeros, Pow;
    var n := LeadingZeros(f);
    if n < 11 {
      PowIncreases(2, n, 10);
      assert Pow(2, 10) == 1024 by { TenMore(1, 0); PowZero(); }
      MulMonotone(f, Pow(2, n), 2 * HIDDEN_BIT - 1, 1024);
      assert false;
    }
  }

  /** An odd number one above 2f has its highest bit where 2f has it. */
  lemma OddNeighbour(f: Limb)
    requires 0 < f < 2 * HIDDEN_BIT
    ensures LeadingZeros(2 * f + 1) == LeadingZeros(f) - 1
    ensures f * Pow(2, LeadingZeros(f)) + GapAbove(f) == (2 * f + 1) * Pow(2, LeadingZeros(f) - 1) < BASE
  {
    hide LeadingZeros, Pow;
    ElevenSpare(f);
    var n := LeadingZeros(f);
    var w := Pow(2, n - 1);
    PowPositive(2, n - 1);
    PowDoubles(f, n - 1);
    OddSplit(f, w);
    OddFits(f, n);
    NormalShiftUnique(2 * f + 1, LeadingZeros(2 * f + 1), n - 1);
  }

  lemma OddSplit(f: nat, w: nat)
    ensures (2 * f + 1) * w == f * w * 2 + w
  {
  }

  /** An odd multiple of a power of two is not 2^64, so it stays below. */
  lemma OddFits(f: nat, n: nat)
    requires 1 <= n < 64 && f * Pow(2, n) < BASE
    ensures (2 * f + 1) * Pow(2, n - 1) < BASE
  {
    hide Pow;
    PowPositive(2, n - 1);
    PowDoubles(f, n - 1);
    PowDoubles(1, n - 1);
    RoomForOne(f, n);
    var w := Pow(2, n - 1);
    assert (f + 1) * Pow(2, n) == f * Pow(2, n) + Pow(2, n);
    OddSplit(f, w);
  }

  /** Multiples of a power of two below 2^64 leave room for one more. */
  lemma RoomForOne(f: nat, n: nat)
    requires n <= 64 && f * Pow(2, n) < BASE
    ensures (f + 1) * Pow(2, n) <= BASE
  {
    hide Pow;
    PowAdd(2, n, 64 - n);
    TwoTo64();
    PowPositive(2, n);
    var w, q := Pow(2, n), Pow(2, 64 - n);
    assert w * q == BASE;
    if f >= q {
      MulMonotone(q, w, f, w);
      assert false;
    }
    MulMonotone(f + 1, w, q, w);
  }

  lemma QuarterGap(f: nat, n: nat)
    requires f > 0 && n >= 2
    ensures (4 * f - 1) * Pow(2, n - 2) == f * Pow(2, n) - Pow(2, n - 2)
    ensures (2 * f - 1) * Pow(2, n - 1) == f * Pow(2, n) - Pow(2, n - 1)
  {
    var w := Pow(2, n - 2);
    assert Pow(2, n - 1) == 2 * w && Pow(2, n) == 4 * w;
    assert (4 * f - 1) * w == 4 * (f * w) - w;
    assert (2 * f - 1) * (2 * w) == 4 * (f * w) - 2 * w;
    assert f * (4 * w) == 4 * (f * w);
  }

  /** The lower midpoint at the normalised exponent: nothing is shifted out. */
  lemma LowerMidpoint(f: Limb)
    requires 0 < f < 2 * HIDDEN_BIT
    ensures LeadingZeros(f) >= 11
    ensures var n := LeadingZeros(f);
            var below := if f == HIDDEN_BIT then (f * 4 - 1) * Pow(2, n - 2) else (f * 2 - 1) * Pow(2, n - 1);
            0 <= below < BASE && below == f * Pow(2, n) - GapBelow(f)
  {
    hide LeadingZeros, Pow;
    ElevenSpare(f);
    var n := LeadingZeros(f);
    QuarterGap(f, n);
    PowPositive(2, n - 1);
    PowPositive(2, n - 2);
  }

  /** The points halfway to the neighbouring doubles, both at the normalised exponent. */
  method NormalizedBoundaries(v: DiyFp) returns (minus: DiyFp, plus: DiyFp)
    requires 0 < v.f < 2 * HIDDEN_BIT
    ensures plus.e == minus.e == Normalize(v).e
    ensures plus.f == Normalize(v).f + GapAbove(v.f)
    ensures minus.f == Normalize(v).f - GapBelow(v.f)
  {
    hide LeadingZeros, Pow, GapAbove, GapBelow, Wrap;
    LowerMidpoint(v.f);
    OddNeighbour(v.f);
    plus := NormalizeBoundary(DiyFp(v.f * 2 + 1, v.e - 1));
    minus := if v.f == HIDDEN_BIT then DiyFp(v.f * 4 - 1, v.e - 2) else DiyFp(v.f * 2 - 1, v.e - 1);
    var shifted := minus.f * Pow(2, minus.e - plus.e);
    WrapSmall(shifted);
    minus := DiyFp(Wrap(shifted), plus.e);
  }
}

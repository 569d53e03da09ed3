/** The digits of a positive double (utils/rapidjson/internal/dtoa.h). */
module Grisu {
  import opened NumberTheory
  import opened Limbs
  import opened Diyfp
  import opened DigitGen
  import opened CachedPowers
  import opened JsonScalars
  import opened Itoa

  // ----- powers of both signs -------------------------------------------------

  function Power(b: nat, n: int): (r: real)
    requires b > 0
    ensures r > 0.0
  {
    PowPositive(b, if n > 0 then n else -n);
    if n >= 0 then Pow(b, n) as real else 1.0 / (Pow(b, -n) as real)
  }

  lemma PowerStep(b: nat, n: int)
    requires b > 0
    ensures Power(b, n + 1) == (b as real) * Power(b, n)
  {
    if n >= 0 {
      PowPositive(b, n);
      ProductAsReal(b, Pow(b, n));
    } else {
      PowPositive(b, -n - 1);
      PowPositive(b, -n);
      var x, y := Pow(b, -n - 1) as real, Pow(b, -n) as real;
      ProductAsReal(b, Pow(b, -n - 1));
      assert y == (b as real) * x;
      Reciprocals(b as real, x, y);
      assert Pow(b, 0) == 1;
    }
  }

  lemma Reciprocals(b: real, x: real, y: real)
    requires b > 0.0 && x > 0.0 && y == b * x
    ensures y > 0.0 && 1.0 / x == b * (1.0 / y)
  {
    var z := 1.0 / y;
    assert z * y == 1.0;
    assert (b * z) * x == 1.0;
  }

  lemma {:induction false} PowersAdd(b: nat, m: int, n: int)
    requires b > 0
    ensures Power(b, m + n) == Power(b, m) * Power(b, n)
    decreases if m < 0 then -m else m
  {
    hide *;
    if m == 0 {
      PowerZero(b);
    } else {
      var k := if m > 0 then m - 1 else m;
      PowersAdd(b, if m > 0 then k else k + 1, n);
      PowerStep(b, k);
      PowerStep(b, k + n);
      FactorMoves(b as real, Power(b, k), Power(b, n), Power(b, k + n));
      assert m > 0 ==> k + n + 1 == m + n;
      assert m < 0 ==> k + 1 + n == k + n + 1;
    }
  }

  lemma PowerZero(b: nat)
    requires b > 0
    ensures Power(b, 0) == 1.0
  {
  }

  lemma FactorMoves(b: real, x: real, y: real, xy: real)
    requires b > 0.0
    ensures xy == x * y ==> b * xy == (b * x) * y
    ensures b * xy == (b * x) * y ==> xy == x * y
  {
    Regrouped(b, x, y);
    if b * xy == (b * x) * y {
      CancelFactor(b, xy, x * y);
    }
  }

  lemma Regrouped(x: real, y: real, z: real)
    ensures x * (y * z) == (x * y) * z
  {
  }

  lemma CancelFactor(b: real, x: real, y: real)
    requires b > 0.0 && b * x == b * y
    ensures x == y
  {
    assert b * (x - y) == 0.0;
  }

  // ----- numbers next to v ----------------------------------------------------

  /** Halfway from v to the number above and to the one below, which is nearer below a power
      of two. */
  function Above(v: DiyFp): real
  {
    ((2 * v.f + 1) as real) * Power(2, v.e - 1)
  }

  function Below(v: DiyFp): real
    requires v.f > 0
  {
    if v.f == HIDDEN_BIT then ((4 * v.f - 1) as real) * Power(2, v.e - 2) else ((2 * v.f - 1) as real) * Power(2, v.e - 1)
  }

  /** The decimal number n * 10^K is nearer to v than to any other double. */
  ghost predicate ReadsBack(v: DiyFp, n: nat, K: int)
    requires v.f > 0
  {
    Below(v) < (n as real) * Power(10, K) < Above(v)
  }

  lemma Scaling(m: nat, s: nat, e: int)
    ensures Pow(2, s) >= 0 && m * Pow(2, s) >= 0
    ensures ((m * Pow(2, s)) as real) * Power(2, e - s) == (m as real) * Power(2, e)
  {
    hide *;
    PowPositive(2, s);
    MulMonotone(0, 0, m, Pow(2, s));
    ProductAsReal(m, Pow(2, s));
    WholePower(2, s);
    PowersAdd(2, s, e - s);
    assert s + (e - s) == e;
    Regrouped(m as real, Power(2, s), Power(2, e - s));
  }

  lemma WholePower(b: nat, n: nat)
    requires b > 0
    ensures Power(b, n) == Pow(b, n) as real
  {
  }

  lemma HighIsAbove(v: DiyFp)
    requires 0 < v.f < 2 * HIDDEN_BIT
    ensures (HighBoundary(v) as real) * Power(2, Normalize(v).e) == Above(v)
  {
    hide LeadingZeros, Pow, GapAbove, Power;
    ElevenSpare(v.f);
    OddNeighbour(v.f);
    Scaling(2 * v.f + 1, LeadingZeros(v.f) - 1, v.e - 1);
  }

  lemma LowIsBelow(v: DiyFp)
    requires 0 < v.f < 2 * HIDDEN_BIT
    ensures (LowBoundary(v) as real) * Power(2, Normalize(v).e) == Below(v)
  {
    hide LeadingZeros, Pow, GapBelow, Power;
    LowerMidpoint(v.f);
    var n := LeadingZeros(v.f);
    if v.f == HIDDEN_BIT {
      Scaling(4 * v.f - 1, n - 2, v.e - 2);
    } else {
      Scaling(2 * v.f - 1, n - 1, v.e - 1);
    }
  }

  // ----- the cached power is within half a unit ---------------------------------

  /** 10^k / 2^e, which the entry at an index rounds. */
  function Exact(index: nat): real
    requires index < 87
  {
    Power(10, DecimalExponent(index)) * Power(2, -Table(index).e)
  }

  lemma UpAndDown(b: nat, n: int)
    requires b > 0
    ensures PowerUp(b, -n) > 0 && Power(b, n) * (PowerUp(b, -n) as real) == PowerUp(b, n) as real
  {
    PowPositive(b, if n > 0 then n else -n);
    assert Pow(b, 0) == 1;
  }

  lemma FractionIsExact(index: nat, num: nat, den: nat)
    requires index < 87 && Fraction(index, num, den)
    ensures Exact(index) * (den as real) == num as real
  {
    hide Table, Power, PowerUp;
    var k, e := DecimalExponent(index), Table(index).e;
    UpAndDown(10, k);
    UpAndDown(2, -e);
    UpAndDown(10, -k);
    UpAndDown(2, e);
    ProductAsReal(PowerUp(10, k), PowerUp(2, -e));
    ProductAsReal(PowerUp(10, -k), PowerUp(2, e));
    Rearranged(Power(10, k), Power(2, -e), PowerUp(10, -k) as real, PowerUp(2, e) as real);
  }

  lemma Rearranged(a: real, b: real, c: real, d: real)
    ensures (a * b) * (c * d) == (a * c) * (b * d)
  {
  }

  lemma HalfUnitFrom(f: Limb, num: nat, den: nat, exact: real)
    requires HalfUnit(f, num, den) && den > 0 && exact * (den as real) == num as real
    ensures f as real - 0.5 <= exact <= f as real + 0.5
  {
    ProductAsReal(f, den);
    var fd := f * den;
    assert 2 * num - den <= 2 * fd <= 2 * num + den;
    var x, d := f as real, den as real;
    Apart(x, exact, d, fd as real, num as real);
  }

  lemma Apart(x: real, y: real, d: real, xd: real, yd: real)
    requires d > 0.0 && xd == x * d && yd == y * d && -0.5 * d <= xd - yd <= 0.5 * d
    ensures x - 0.5 <= y <= x + 0.5
  {
    assert (x - y + 0.5) * d == xd - yd + 0.5 * d;
    assert (y - x + 0.5) * d == yd - xd + 0.5 * d;
    NotNegative(x - y + 0.5, d);
    NotNegative(y - x + 0.5, d);
  }

  lemma NotNegative(z: real, d: real)
    requires d > 0.0 && z * d >= 0.0
    ensures z >= 0.0
  {
    assert z == (z * d) / d;
  }

  lemma CloseToExact(index: nat)
    requires index < 87
    ensures Table(index).f >= TOP_BIT
    ensures Table(index).f as real - 0.5 <= Exact(index) <= Table(index).f as real + 0.5
  {
    hide Table, Fraction, Exact;
    TableIsRounded(index);
    var num: nat, den: nat :| Fraction(index, num, den) && HalfUnit(Table(index).f, num, den);
    FractionIsExact(index, num, den);
    assert den > 0 by { FractionPositive(index, num, den); }
    HalfUnitFrom(Table(index).f, num, den, Exact(index));
  }

  lemma FractionPositive(index: nat, num: nat, den: nat)
    requires index < 87 && Fraction(index, num, den)
    ensures den > 0
  {
  }

  // ----- from the scaled digits back to v ---------------------------------------

  function Times(x: real, y: real): real
  {
    x * y
  }

  /** What one unit of the scaled digits is worth, up to the scale. */
  function Worth(kappa: int, e: int): real
  {
    Power(10, kappa) * Power(2, -e)
  }

  /** The factor from the scaled digits back to v. */
  function Lift(k: int, s: int): (r: real)
    ensures r > 0.0
  {
    ProductPositive(Power(10, -k), Power(2, s));
    Power(10, -k) * Power(2, s)
  }

  lemma UnitIsScaled(n: nat, kappa: int, e: int)
    requires -60 <= e <= -32
    ensures Multiple(n, Unit(kappa, One(e))) as real
         == ((n as real) * (Power(10, kappa) * Power(2, -e))) * (Scale(kappa) as real)
  {
    var one := One(e);
    assert Power(2, -e) == one as real;
    hide One;
    UnitAsReal(kappa, one);
    MultipleAsReal(n, Unit(kappa, one));
    hide *;
    var p, q, scale := Power(10, kappa), Power(2, -e), Scale(kappa) as real;
    Regrouped(n as real, p * q, scale);
  }

  lemma UnitAsReal(kappa: int, one: nat)
    ensures Scale(kappa) > 0 && Unit(kappa, one) as real == (Power(10, kappa) * (one as real)) * (Scale(kappa) as real)
  {
    if kappa > 0 {
      MultipleAsReal(Pow10(kappa), one);
    } else {
      TenUpAndDown(kappa);
      hide Power, Pow10;
      Swapped(Power(10, kappa), one as real, Scale(kappa) as real);
    }
  }

  lemma TenUpAndDown(kappa: int)
    requires kappa <= 0
    ensures Scale(kappa) > 0 && Power(10, kappa) * (Scale(kappa) as real) == 1.0
  {
    PowPositive(10, -kappa);
    PowerZero(10);
  }

  lemma Swapped(x: real, y: real, z: real)
    requires x * z == 1.0
    ensures (x * y) * z == y
  {
    assert (x * y) * z == (x * z) * y;
  }

  /** Dividing the scale out. */
  lemma ScaledLess(l: real, x: real, n: real, y: real, scale: real, m: real, p: real, q: real)
    requires scale > 0.0 && m > 0.0 && x * m == p && y * m == q
    ensures (l * x) * scale < (n * y) * scale ==> l * p < n * q
    ensures (l * x) * scale > (n * y) * scale ==> l * p > n * q
  {
    var d := n * y - l * x;
    assert d * scale == (n * y) * scale - (l * x) * scale;
    assert d * m == n * q - l * p by {
      Regrouped(n, y, m);
      Regrouped(l, x, m);
    }
    SignOf(d, scale);
    SignOf(d, m);
  }

  lemma SignOf(d: real, m: real)
    requires m > 0.0
    ensures d > 0.0 <==> d * m > 0.0
    ensures d < 0.0 <==> d * m < 0.0
  {
  }

  lemma ExactTimes(index: nat, v: int)
    requires index < 87
    ensures Times(Exact(index), Lift(DecimalExponent(index), v + Table(index).e)) == Power(2, v)
  {
    hide Power, Table, DecimalExponent;
    var k, c := DecimalExponent(index), Table(index).e;
    PowersAdd(10, k, -k);
    PowerZero(10);
    PowersAdd(2, -c, v + c);
    Rearranged(Power(10, k), Power(2, -c), Power(10, -k), Power(2, v + c));
  }

  lemma UnitTimes(kappa: int, k: int, e: int, v: int, c: int)
    requires e == v + c + 64
    ensures Times(Times(Worth(kappa, e), BASE as real), Lift(k, v + c)) == Power(10, kappa - k)
  {
    BaseIsPower();
    hide Power;
    PowersAdd(2, -e, 64);
    Regrouped(Power(10, kappa), Power(2, -e), Power(2, 64));
    PowersAdd(2, -e + 64, v + c);
    PowerZero(2);
    PowersAdd(10, kappa, -k);
    Rearranged(Power(10, kappa), Power(2, -e + 64), Power(10, -k), Power(2, v + c));
  }

  lemma BaseIsPower()
    ensures BASE as real == Power(2, 64)
  {
    TwoTo64();
    WholePower(2, 64);
  }

  /** Digits between the scaled bounds are, as a decimal number, nearest to v. */
  lemma DigitsReadBack(v: DiyFp, index: nat, kappa: int, n: nat)
    requires 0 < v.f < 2 * HIDDEN_BIT && index < 87 && Table(index).f >= TOP_BIT
    requires -60 <= Normalize(v).e + Table(index).e + 64 <= -32
    requires var c := Table(index);
             0 < Lower(v, c) < Upper(v, c)
             && Shortest(Upper(v, c), Upper(v, c) - Lower(v, c), One(Normalize(v).e + c.e + 64), kappa, n)
    ensures ReadsBack(v, n, kappa - DecimalExponent(index))
  {
    var c, k := Table(index), DecimalExponent(index);
    var ev, e := Normalize(v).e, Normalize(v).e + c.e + 64;
    hide *;
    CloseToExact(index);
    ScaledBetween(v, c, Exact(index), e, kappa, n);
    ExactTimes(index, ev);
    UnitTimes(kappa, k, e, ev, c.e);
    ScaleIsPositive(kappa);
    BoundsMove(LowBoundary(v) as real, HighBoundary(v) as real, n as real, Exact(index), Worth(kappa, e),
               BASE as real, Scale(kappa) as real, Lift(k, ev + c.e), Power(2, ev), Power(10, kappa - k));
    BetweenReadsBack(v, n, kappa - k);
  }

  lemma ScaledBetween(v: DiyFp, c: DiyFp, exact: real, e: int, kappa: int, n: nat)
    requires 0 < v.f < 2 * HIDDEN_BIT && c.f >= TOP_BIT && -60 <= e <= -32
    requires c.f as real - 0.5 <= exact <= c.f as real + 0.5
    requires 0 < Lower(v, c) < Upper(v, c) && Shortest(Upper(v, c), Upper(v, c) - Lower(v, c), One(e), kappa, n)
    ensures var scale, digits := Scale(kappa) as real, Times(n as real, Worth(kappa, e));
            Times(Times(LowBoundary(v) as real, exact), scale) < Times(Times(digits, scale), BASE as real)
            < Times(Times(HighBoundary(v) as real, exact), scale)
  {
    hide Upper, Lower, Shortest, One, HighBoundary, LowBoundary, Scale, Multiple, Unit, Power;
    DigitsStayInside(v, c, exact, One(e), kappa, n);
    UnitIsScaled(n, kappa, e);
  }

  lemma BetweenReadsBack(v: DiyFp, n: nat, K: int)
    requires 0 < v.f < 2 * HIDDEN_BIT
    requires var p := Power(2, Normalize(v).e);
             Times(LowBoundary(v) as real, p) < Times(n as real, Power(10, K)) < Times(HighBoundary(v) as real, p)
    ensures ReadsBack(v, n, K)
  {
    hide Power, Below, Above, LowBoundary, HighBoundary, Normalize;
    LowIsBelow(v);
    HighIsAbove(v);
  }

  lemma BoundsMove(low: real, high: real, n: real, exact: real, unit: real, base: real, scale: real, m: real, p: real, q: real)
    requires scale > 0.0 && m > 0.0 && Times(exact, m) == p && Times(Times(unit, base), m) == q
    requires Times(Times(low, exact), scale) < Times(Times(Times(n, unit), scale), base) < Times(Times(high, exact), scale)
    ensures Times(low, p) < Times(n, q) < Times(high, p)
  {
    BaseMoves(n, unit, scale, base);
    ScaledLess(low, exact, n, unit * base, scale, m, p, q);
    ScaledLess(high, exact, n, unit * base, scale, m, p, q);
  }

  lemma ScaleIsPositive(kappa: int)
    ensures Scale(kappa) > 0
  {
  }

  lemma BaseMoves(n: real, unit: real, scale: real, base: real)
    ensures ((n * unit) * scale) * base == (n * (unit * base)) * scale
  {
    assert ((n * unit) * scale) * base == ((n * unit) * base) * scale;
    Regrouped(n, unit, base);
  }

  lemma ProductPositive(x: real, y: real)
    requires x > 0.0 && y > 0.0
    ensures x * y > 0.0
  {
  }

  // ----- the digits of a double ---------------------------------------------------

  /** Fewer than ten digits before the point. */
  lemma PointFits(v: DiyFp, c: DiyFp)
    requires 0 < v.f < 2 * HIDDEN_BIT && c.f >= TOP_BIT && -60 <= Normalize(v).e + c.e + 64 <= -34
    requires Normalize(v).e + c.e + 64 == -34 ==> c.f < 1000000000 * 0x4_0000_0000
    ensures 0 <= Upper(v, c) / One(Normalize(v).e + c.e + 64) < 1000000000
  {
    hide Normalize, One, HighBoundary, RoundedHigh, Pow;
    BoundsInOrder(v, c);
    UpperBelowPower(v, c);
    var e, u := Normalize(v).e + c.e + 64, Upper(v, c);
    OneOfThirtyFour(e);
    if e == -34 {
      QuotientBelow(u, One(e), 1000000000);
    } else {
      QuotientBelow(u, One(e), 0x2000_0000);
    }
  }

  lemma QuotientBelow(u: nat, one: nat, bound: nat)
    requires one > 0 && u < Multiple(bound, one)
    ensures u / one < bound
  {
    if u / one >= bound {
      MulMonotone(bound, one, u / one, one);
    }
  }

  lemma OneOfThirtyFour(e: int)
    requires -60 <= e <= -34
    ensures e == -34 ==> One(e) == 0x4_0000_0000
    ensures e < -34 ==> Multiple(0x2000_0000, One(e)) >= BASE
  {
    assert Pow(2, 8) == 0x100;
    hide Pow;
    ShiftPowers();
    PowAdd(2, 26, 8);
    PowAdd(2, 27, 8);
    if e < -34 {
      PowIncreases(2, 35, -e);
      MulMonotone(0x2000_0000, 0x8_0000_0000, 0x2000_0000, One(e));
    }
  }

  lemma UpperBelowPower(v: DiyFp, c: DiyFp)
    requires 0 < v.f < 2 * HIDDEN_BIT && c.f >= TOP_BIT
    ensures Upper(v, c) < c.f
  {
    var h := HighBoundary(v);
    hide HighBoundary;
    MulMonotone(h, c.f, BASE - 1, c.f);
  }

  /** Shortest digits of a positive double v: between the scaled boundaries none are shorter,
      none of that length nearer to v at that scale, and as a decimal number they are nearest
      to v. */
  method Grisu2(v: DiyFp, buffer: array<char>) returns (len: nat, K: int, ghost index: nat)
    requires 0 < v.f < 2 * HIDDEN_BIT && -1074 <= v.e <= 971 && buffer.Length >= 21
    modifies buffer
    ensures 1 <= len <= 21 && Leading(buffer[..len]) && ReadsBack(v, Fold(0, buffer[..len]), K)
    ensures index < 87 && -60 <= Normalize(v).e + Table(index).e + 64 <= -34
    ensures var c, kappa := Table(index), K + DecimalExponent(index);
            var W, one := Multiply(Normalize(v), c).f, One(Normalize(v).e + c.e + 64);
            && 0 < Lower(v, c) < W < Upper(v, c)
            && Shortest(Upper(v, c), Upper(v, c) - Lower(v, c), one, kappa, Fold(0, buffer[..len]))
            && Nearest(Upper(v, c), Upper(v, c) - Lower(v, c), if kappa > -9 then Upper(v, c) - W else 0,
                       one, kappa, Fold(0, buffer[..len]))
  {
    hide *;
    BoundariesFit(v);
    var w_m, w_p := NormalizedBoundaries(v);
    NormalExponent(v);
    var c, k;
    c, k, index := GetCachedPower(w_p.e);
    CloseToExact(index);
    var W := Multiply(Normalize(v), c);
    var Wp := Multiply(w_p, c);
    var Wm := Multiply(w_m, c);
    ProductsAreBounds(v, c, w_m, w_p);
    BoundsInOrder(v, c);
    Wm := DiyFp(Wm.f + 1, Wm.e);
    Wp := DiyFp(Wp.f - 1, Wp.e);
    PointFits(v, c);
    len, K := DigitGen.DigitGen(W, Wp, Wp.f - Wm.f, buffer, k);
    LeadingDigits(buffer[..len]);
    DigitsReadBack(v, index, K - k, Fold(0, buffer[..len]));
  }

  lemma LeadingDigits(s: string)
    requires Leading(s)
    ensures AllDigits(s)
  {
  }

  lemma NormalExponent(v: DiyFp)
    requires 0 < v.f
    ensures v.e - 63 <= Normalize(v).e <= v.e
  {
    hide Pow;
  }

  lemma ProductsAreBounds(v: DiyFp, c: DiyFp, minus: DiyFp, plus: DiyFp)
    requires 0 < v.f < 2 * HIDDEN_BIT && c.f >= TOP_BIT && plus.e == minus.e == Normalize(v).e
    requires plus.f == Normalize(v).f + GapAbove(v.f) && minus.f == Normalize(v).f - GapBelow(v.f)
    ensures Multiply(plus, c).f == Upper(v, c) + 1 && Multiply(minus, c).f == Lower(v, c) - 1
    ensures Multiply(plus, c).e == Multiply(minus, c).e == Multiply(Normalize(v), c).e == Normalize(v).e + c.e + 64
  {
    hide RoundedHigh, GapAbove, GapBelow, Normalize, Multiply;
    BoundariesFit(v);
    MultiplyRounds(Normalize(v), c);
    MultiplyRounds(plus, c);
    MultiplyRounds(minus, c);
  }
}

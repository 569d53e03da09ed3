/** Shortest digits of a number between two bounds (utils/rapidjson/internal/dtoa.h). */
module DigitGen {
  import opened NumberTheory
  import opened Limbs
  import opened Diyfp
  import opened Itoa
  import opened JsonText
  import opened JsonScalars

  // ----- what the digits have to be ---------------------------------------

  function Multiple(n: nat, unit: nat): nat
  {
    n * unit
  }

  function Distance(a: int, b: int): nat
  {
    if a < b then b - a else a - b
  }

  /** The multiple is at most delta below m. */
  ghost predicate Within(m: nat, delta: nat, unit: nat, n: nat)
  {
    m - delta <= Multiple(n, unit) <= m
  }

  /** One digit less is not enough: no multiple of ten units is closer than delta below m. */
  ghost predicate NoneShorter(m: nat, delta: nat, unit: nat)
  {
    forall i: nat :: Multiple(i, 10 * unit) <= m ==> Multiple(i, 10 * unit) <= m - delta
  }

  /** No multiple within the bounds is closer to the target than this one. */
  ghost predicate Closest(m: nat, delta: nat, target: int, unit: nat, n: nat)
  {
    forall i: nat :: Within(m, delta, unit, i) ==>
      Distance(Multiple(n, unit), target) <= Distance(Multiple(i, unit), target)
  }

  lemma MultipleMonotone(i: nat, j: nat, unit: nat)
    requires i <= j
    ensures Multiple(i, unit) <= Multiple(j, unit)
    ensures i < j ==> Multiple(i, unit) + unit <= Multiple(j, unit)
  {
    MulMonotone(i, unit, j, unit);
    if i < j {
      MulMonotone(i + 1, unit, j, unit);
    }
  }

  lemma MultipleNext(i: nat, unit: nat)
    ensures Multiple(i + 1, unit) == Multiple(i, unit) + unit
  {
  }

  lemma LastMultiple(m: nat, unit: nat, n: nat, rest: nat)
    requires m == Multiple(n, unit) + rest && rest < unit
    ensures forall i: nat :: Multiple(i, unit) <= m ==> i <= n
  {
    hide Multiple;
    forall i: nat | Multiple(i, unit) <= m
      ensures i <= n
    {
      if i > n {
        MultipleMonotone(n, i, unit);
      }
    }
  }

  lemma NoneShorterFrom(m: nat, delta: nat, unit: nat, n: nat, rest: nat)
    requires m == Multiple(n, 10 * unit) + rest && delta <= rest < 10 * unit
    ensures NoneShorter(m, delta, unit)
  {
    hide Multiple;
    LastMultiple(m, 10 * unit, n, rest);
    forall i: nat | Multiple(i, 10 * unit) <= m
      ensures Multiple(i, 10 * unit) <= m - delta
    {
      MultipleMonotone(i, n, 10 * unit);
    }
  }

  // ----- rounding the last digit ------------------------------------------

  /** At a stop, everything below is farther from the target, or out of bounds. */
  lemma NoneBelowCloser(m: nat, delta: nat, unit: nat, w: int, n: nat, rest: nat)
    requires m == Multiple(n, unit) + rest && rest <= delta
    requires rest >= w || delta - rest < unit || (rest + unit >= w && w - rest <= rest + unit - w)
    requires forall i: nat :: i >= n && Within(m, delta, unit, i) ==>
      Distance(Multiple(n, unit), m - w) <= Distance(Multiple(i, unit), m - w)
    ensures Closest(m, delta, m - w, unit, n)
  {
    hide Multiple;
    forall i: nat | Within(m, delta, unit, i)
      ensures Distance(Multiple(n, unit), m - w) <= Distance(Multiple(i, unit), m - w)
    {
      if i < n {
        MultipleMonotone(i, n, unit);
      }
    }
  }

  /** One step down is closer to the target than where it started, hence than all above. */
  lemma StepDown(m: nat, delta: nat, unit: nat, w: int, n: nat, rest: nat)
    requires n > 0 && m == Multiple(n, unit) + rest
    requires rest < w && (rest + unit < w || w - rest > rest + unit - w)
    requires forall i: nat :: i >= n && Within(m, delta, unit, i) ==>
      Distance(Multiple(n, unit), m - w) <= Distance(Multiple(i, unit), m - w)
    ensures m == Multiple(n - 1, unit) + rest + unit
    ensures forall i: nat :: i >= n - 1 && Within(m, delta, unit, i) ==>
      Distance(Multiple(n - 1, unit), m - w) <= Distance(Multiple(i, unit), m - w)
  {
    MultipleNext(n - 1, unit);
    hide Multiple;
  }

  /** The prefix without the last digit is a multiple of ten units, so it leaves at least
      delta; taking the last digit below zero would overshoot the bound. */
  lemma DigitRemains(m: nat, delta: nat, unit: nat, prefix: nat, d: nat, rest: nat)
    requires m == Multiple(10 * prefix + d, unit) + rest && rest + unit <= delta && unit > 0
    requires NoneShorter(m, delta, unit)
    ensures d > 0
  {
    assert Multiple(10 * prefix, unit) == Multiple(prefix, 10 * unit);
    assert Multiple(10 * prefix + d, unit) == Multiple(10 * prefix, unit) + d * unit;
    assert d * unit >= unit;
  }

  /** Takes the last digit down while that brings the number closer to the target m - w. */
  method GrisuRound(buffer: array<char>, len: nat, delta: Limb, rest0: Limb, tenKappa: Limb, w: Limb, ghost m: nat)
    requires 0 < len <= buffer.Length && AllDigits(buffer[..len])
    requires tenKappa > 0 && rest0 <= delta < m && rest0 < tenKappa
    requires m == Multiple(Fold(0, buffer[..len]), tenKappa) + rest0
    requires NoneShorter(m, delta, tenKappa)
    modifies buffer
    ensures AllDigits(buffer[..len]) && buffer[..len - 1] == old(buffer[..len - 1])
    ensures Within(m, delta, tenKappa, Fold(0, buffer[..len]))
    ensures Fold(0, buffer[..len]) > 0
    ensures Closest(m, delta, m - w, tenKappa, Fold(0, buffer[..len]))
  {
    hide Multiple, Fold, NoneShorter, Closest;
    ghost var high := buffer[..len - 1];
    ghost var n := Fold(0, buffer[..len]);
    var rest := rest0;
    LastMultiple(m, tenKappa, n, rest);
    PositivePart(n, tenKappa, m, rest);
    assert buffer[..len] == high + [buffer[len - 1]];
    while rest < w && delta - rest >= tenKappa &&
          (rest + tenKappa < w || w - rest > rest + tenKappa - w)
      invariant rest <= delta && n > 0
      invariant buffer[..len - 1] == high && AllDigits(buffer[..len])
      invariant n == Fold(0, buffer[..len]) && m == Multiple(n, tenKappa) + rest
      invariant forall i: nat :: i >= n && Within(m, delta, tenKappa, i) ==>
        Distance(Multiple(n, tenKappa), m - w) <= Distance(Multiple(i, tenKappa), m - w)
      decreases delta - rest
    {
      var last := buffer[len - 1];
      assert buffer[..len] == high + [last];
      FoldLast(0, high, last);
      DigitRemains(m, delta, tenKappa, Fold(0, high), DigitValue(last), rest);
      StepDown(m, delta, tenKappa, w, n, rest);
      FoldLast(0, high, (last as int - 1) as char);
      buffer[len - 1] := (last as int - 1) as char;
      assert buffer[..len] == high + [(last as int - 1) as char];
      rest := rest + tenKappa;
      n := n - 1;
      PositivePart(n, tenKappa, m, rest);
    }
    NoneBelowCloser(m, delta, tenKappa, w, n, rest);
  }

  lemma PositivePart(n: nat, unit: nat, m: nat, rest: nat)
    requires m == Multiple(n, unit) + rest && rest < m
    ensures n > 0
  {
    assert Multiple(0, unit) == 0;
  }

  // ----- digits in the buffer ---------------------------------------------

  /** Digits without a leading zero. */
  ghost predicate Leading(s: string)
  {
    AllDigits(s) && (s != "" ==> s[0] != '0')
  }

  lemma {:induction false} LeadingAtLeast(s: string)
    requires Leading(s) && s != ""
    ensures Fold(0, s) >= Pow10(|s| - 1)
    decreases |s|
  {
    var high, last := s[..|s| - 1], s[|s| - 1];
    assert s == high + [last];
    FoldLast(0, high, last);
    if high == "" {
      assert Fold(0, high) == 0;
    } else {
      LeadingAtLeast(high);
    }
  }

  lemma Extend(s: string, d: nat)
    requires Leading(s) && d < 10 && (s != "" || d > 0)
    ensures Leading(s + [Digit(d)]) && Fold(0, s + [Digit(d)]) == Fold(0, s) * 10 + d
  {
    FoldLast(0, s, Digit(d));
  }

  lemma NothingFolds()
    ensures Fold(0, "") == 0
  {
  }

  lemma SomeDigits(s: string)
    requires AllDigits(s) && Fold(0, s) > 0
    ensures s != ""
  {
    NothingFolds();
  }

  /** Writes a digit unless it would be a leading zero. */
  method Emit(buffer: array<char>, len: nat, d: nat) returns (next: nat)
    requires len < buffer.Length && d < 10 && Leading(buffer[..len])
    modifies buffer
    ensures next == (if d > 0 || len > 0 then len + 1 else 0)
    ensures Leading(buffer[..next]) && Fold(0, buffer[..next]) == old(Fold(0, buffer[..len])) * 10 + d
  {
    hide Fold;
    NothingFolds();
    next := len;
    if d != 0 || len != 0 {
      Extend(buffer[..len], d);
      buffer[len] := Digit(d);
      next := len + 1;
      assert buffer[..next] == old(buffer[..len]) + [Digit(d)];
    }
  }

  /** Rounding leaves a positive number, so its first digit is still not zero. */
  lemma StillLeading(before: string, after: string)
    requires Leading(before) && AllDigits(after) && |before| == |after| > 0
    requires before[..|before| - 1] == after[..|after| - 1] && Fold(0, after) > 0
    ensures Leading(after)
  {
    if |after| == 1 {
      NothingFolds();
      assert after == [] + [after[0]];
      FoldLast(0, [], after[0]);
    } else {
      assert before[..|before| - 1][0] == after[..|after| - 1][0];
    }
  }

  // ----- generating -------------------------------------------------------

  const KPOW10: seq<nat> := [1, 10, 100, 1000, 10000, 100000, 1000000, 10000000, 100000000, 1000000000]

  lemma KPow10At(k: nat)
    requires k < 10
    ensures KPOW10[k] == Pow10(k)
    decreases k
  {
    if k > 0 {
      KPow10At(k - 1);
    }
  }

  function CountDecimalDigit32(n: nat): (r: nat)
    ensures 1 <= r <= 9
  {
    if n < 10 then 1
    else if n < 100 then 2
    else if n < 1000 then 3
    else if n < 10000 then 4
    else if n < 100000 then 5
    else if n < 1000000 then 6
    else if n < 10000000 then 7
    else if n < 100000000 then 8
    else 9
  }

  lemma CountIsEnough(n: nat)
    requires n < 1000000000
    ensures n < Pow10(CountDecimalDigit32(n))
  {
    KPow10At(CountDecimalDigit32(n));
  }

  /** Position kappa counts from the decimal point: below it, everything is scaled up. */
  function Scale(kappa: int): nat
  {
    if kappa < 0 then Pow10(-kappa) else 1
  }

  function Unit(kappa: int, one: nat): nat
  {
    if kappa > 0 then Multiple(Pow10(kappa), one) else one
  }

  /** The digits n, worth n * 10^kappa, lie between m - delta and m, and no shorter ones do. */
  ghost predicate Shortest(m: nat, delta: nat, one: nat, kappa: int, n: nat)
  {
    && Within(Multiple(m, Scale(kappa)), Multiple(delta, Scale(kappa)), Unit(kappa, one), n)
    && NoneShorter(Multiple(m, Scale(kappa)), Multiple(delta, Scale(kappa)), Unit(kappa, one))
  }

  /** No other digits of that length between the bounds are closer to m - w. */
  ghost predicate Nearest(m: nat, delta: nat, w: nat, one: nat, kappa: int, n: nat)
  {
    Closest(Multiple(m, Scale(kappa)), Multiple(delta, Scale(kappa)),
            Multiple(m, Scale(kappa)) - Multiple(w, Scale(kappa)), Unit(kappa, one), n)
  }

  lemma IntegralStep(m: nat, delta: nat, one: nat, n: nat, kappa: nat, p1: nat, p2: nat)
    requires kappa > 0 && p1 < Pow10(kappa) && p2 < one
    requires m == Multiple(n, Multiple(Pow10(kappa), one)) + Multiple(p1, one) + p2
    requires delta < Multiple(p1, one) + p2
    ensures var u := Pow10(kappa - 1);
            var d, r := p1 / u, p1 % u;
            var rest, unit := Multiple(r, one) + p2, Multiple(u, one);
            && d < 10 && rest < unit
            && m == Multiple(n * 10 + d, unit) + rest
            && NoneShorter(m, delta, unit)
  {
    var u := Pow10(kappa - 1);
    var d, r := p1 / u, p1 % u;
    var unit := Multiple(u, one);
    DivBound(p1, 10, u);
    Regroup(n, p1, u, one);
    hide Multiple, Pow10;
    MultipleMonotone(r, u, one);
    MultipleMonotone(p1, 10 * u, one);
    NoneShorterFrom(m, delta, unit, n, Multiple(p1, one) + p2);
  }

  lemma Regroup(n: nat, p1: nat, u: nat, one: nat)
    requires u > 0
    ensures var unit := Multiple(u, one);
            && Multiple(10 * u, one) == 10 * unit
            && Multiple(n * 10 + p1 / u, unit) + Multiple(p1 % u, one) == Multiple(n, 10 * unit) + Multiple(p1, one)
  {
    var d, r := p1 / u, p1 % u;
    var unit := u * one;
    assert p1 * one == d * unit + r * one by {
      assert p1 == d * u + r;
      assert (d * u + r) * one == d * (u * one) + r * one;
    }
    assert (n * 10 + d) * unit == n * (10 * unit) + d * unit;
  }

  lemma FractionStep(m: nat, delta: nat, one: nat, n: nat, p2: nat)
    requires m == Multiple(n, one) + p2 && delta <= p2 < one
    ensures var d, r := p2 * 10 / one, p2 * 10 % one;
            && d < 10 && r < one
            && 10 * m == Multiple(n * 10 + d, one) + r
            && NoneShorter(10 * m, 10 * delta, one)
  {
    DivBound(p2 * 10, 10, one);
    var d, r := p2 * 10 / one, p2 * 10 % one;
    assert p2 * 10 == d * one + r;
    assert Multiple(n * 10 + d, one) == 10 * Multiple(n, one) + d * one;
    assert Multiple(n, 10 * one) == 10 * Multiple(n, one);
    hide Multiple;
    NoneShorterFrom(10 * m, 10 * delta, one, n, p2 * 10);
  }

  lemma UnitIsSmall(n: nat, unit: nat, m: nat)
    requires n > 0 && Multiple(n, unit) <= m
    ensures unit <= m
  {
    assert Multiple(1, unit) == unit;
    MultipleMonotone(1, n, unit);
  }

  /** While no digit ends the number, the digits so far are below the number itself, so
      there are at most twenty. */
  lemma TwentyDigits(s: string, m: nat, delta: nat, scale: nat, one: nat, p2: nat)
    requires Leading(s) && m < BASE && 0 < delta
    requires Multiple(m, scale) == Multiple(Fold(0, s), one) + p2
    requires Multiple(delta, scale) <= p2 < one
    ensures |s| <= 20
  {
    hide Fold, Multiple;
    if |s| > 20 {
      LeadingAtLeast(s);
      TenTo20(|s| - 1);
      assert Multiple(1, scale) == scale by { OneMultiple(scale); }
      MultipleMonotone(1, delta, scale);
      ProductsCompare(m, scale, Fold(0, s), one);
      assert false;
    }
  }

  lemma OneMultiple(scale: nat)
    ensures Multiple(1, scale) == scale
  {
  }

  lemma ProductsCompare(m: nat, scale: nat, n: nat, one: nat)
    requires scale <= one && m <= n && n > 0 && scale < one
    ensures Multiple(m, scale) < Multiple(n, one)
  {
    MulMonotone(m, scale, n, scale);
    MulMonotone(n, scale + 1, n, one);
    assert n * (scale + 1) == n * scale + n;
  }

  lemma {:induction false} TenTo20(k: nat)
    requires k >= 20
    ensures Pow10(k) >= BASE
    decreases k
  {
    if k == 20 {
      assert Pow10(10) == 10000000000 by { KPow10At(9); }
      assert Pow10(15) == 10000000000_00000;
      assert Pow10(20) == 10000000000_0000000000;
    } else {
      TenTo20(k - 1);
    }
  }

  lemma ScaleUp(a: nat, scale: nat)
    ensures Multiple(a, 10 * scale) == 10 * Multiple(a, scale)
  {
  }

  lemma ScaleOne(a: nat)
    ensures Multiple(a, 1) == a
  {
  }

  lemma ScaleKeepsOrder(a: nat, b: nat, scale: nat)
    requires scale > 0
    ensures a <= b ==> Multiple(a, scale) <= Multiple(b, scale)
    ensures a < b ==> Multiple(a, scale) < Multiple(b, scale)
  {
    if a < b {
      MultipleMonotone(a, b, scale);
    }
  }

  /** The digits before the decimal point, from the highest down; they may already be enough. */
  method IntegralDigits(m: Limb, w: Limb, one: Limb, delta: Limb, buffer: array<char>)
    returns (done: bool, len: nat, kappa: nat)
    requires buffer.Length >= 21 && one > 0 && m / one < 1000000000 && 0 < delta < m
    modifies buffer
    ensures len <= 9 && Leading(buffer[..len])
    ensures done ==> 1 <= len && Shortest(m, delta, one, kappa, Fold(0, buffer[..len]))
    ensures done ==> Nearest(m, delta, w, one, kappa, Fold(0, buffer[..len]))
    ensures !done ==> (kappa == 0 && m == Multiple(Fold(0, buffer[..len]), one) + m % one && delta < m % one)
  {
    hide Fold, Multiple, Pow10, NoneShorter, Closest, CountDecimalDigit32;
    var p1: nat, p2: Limb := m / one, m % one;
    kappa := CountDecimalDigit32(p1);
    CountIsEnough(p1);
    len := 0;
    NothingFolds();
    assert buffer[..0] == "";
    NoDigits(m, one, Multiple(Pow10(kappa), one));
    while kappa > 0
      invariant len + kappa <= 9 && p1 < Pow10(kappa)
      invariant Leading(buffer[..len])
      invariant m == Multiple(Fold(0, buffer[..len]), Multiple(Pow10(kappa), one)) + Multiple(p1, one) + p2
      invariant delta < Multiple(p1, one) + p2
    {
      IntegralStep(m, delta, one, Fold(0, buffer[..len]), kappa, p1, p2);
      KPow10At(kappa - 1);
      var d := p1 / KPOW10[kappa - 1];
      p1 := p1 % KPOW10[kappa - 1];
      len := Emit(buffer, len, d);
      kappa := kappa - 1;
      var tmp: Limb := Multiple(p1, one) + p2;
      if tmp <= delta {
        ghost var unit, digits := Multiple(Pow10(kappa), one), buffer[..len];
        PositivePart(Fold(0, digits), unit, m, tmp);
        UnitIsSmall(Fold(0, digits), unit, m);
        SomeDigits(digits);
        GrisuRound(buffer, len, delta, tmp, Multiple(KPOW10[kappa], one), w, m);
        StillLeading(digits, buffer[..len]);
        ScaleOne(m);
        ScaleOne(delta);
        ScaleOne(w);
        assert Unit(kappa, one) == unit by { TopUnit(one); }
        return true, len, kappa;
      }
    }
    TopUnit(one);
    NothingLeft(p1, one);
    return false, len, 0;
  }

  lemma TopUnit(one: nat)
    ensures Pow10(0) == 1 && Multiple(Pow10(0), one) == one
  {
  }

  lemma NothingLeft(p1: nat, one: nat)
    requires p1 < Pow10(0)
    ensures Multiple(p1, one) == 0
  {
  }

  lemma NoDigits(m: nat, one: nat, unit: nat)
    requires one > 0
    ensures Multiple(0, unit) == 0 && m == Multiple(m / one, one) + m % one
  {
  }

  /** The last step of a number that ended after the decimal point. */
  method RoundFraction(ghost m: Limb, w: Limb, one: Limb, rest: Limb, ghost delta0: Limb, delta: Limb,
                       buffer: array<char>, len: nat, kappa: int)
    requires len <= 21 <= buffer.Length && kappa < 0 && Leading(buffer[..len]) && 0 < delta0 < m
    requires Multiple(m, Scale(kappa)) == Multiple(Fold(0, buffer[..len]), one) + rest
    requires delta == Multiple(delta0, Scale(kappa)) && rest < delta && rest < one
    requires NoneShorter(Multiple(m, Scale(kappa)), delta, one)
    modifies buffer
    ensures 1 <= len && Leading(buffer[..len])
    ensures Shortest(m, delta0, one, kappa, Fold(0, buffer[..len]))
    ensures w <= delta0 ==> Nearest(m, delta0, if kappa > -9 then w else 0, one, kappa, Fold(0, buffer[..len]))
  {
    hide Fold, Multiple, Pow10, NoneShorter, Closest;
    ghost var digits, scale := buffer[..len], Scale(kappa);
    ScaleKeepsOrder(delta0, m, scale);
    PositivePart(Fold(0, digits), one, Multiple(m, scale), rest);
    SomeDigits(digits);
    var index := -kappa;
    var scaled: Limb := 0;
    if index < 9 {
      KPow10At(index);
      ScaleKeepsOrder(w, delta0, scale);
      scaled := Wrap(Multiple(w, KPOW10[index]));
      assert w <= delta0 ==> scaled == Multiple(w, scale);
    } else {
      ZeroMultiple(scale);
    }
    GrisuRound(buffer, len, delta, rest, one, scaled, Multiple(m, scale));
    StillLeading(digits, buffer[..len]);
  }

  /** The digits after the decimal point, with remainder and bound scaled up together. */
  method FractionDigits(ghost m: Limb, w: Limb, one: Limb, start: Limb, delta0: Limb, buffer: array<char>, len0: nat)
    returns (len: nat, kappa: int)
    requires buffer.Length >= 21 && one <= 0x1000_0000_0000_0000 && len0 <= 9
    requires Leading(buffer[..len0]) && 0 < delta0 < start < one && delta0 < m
    requires m == Multiple(Fold(0, buffer[..len0]), one) + start
    modifies buffer
    ensures 1 <= len <= 21 && kappa < 0 && Leading(buffer[..len])
    ensures Shortest(m, delta0, one, kappa, Fold(0, buffer[..len]))
    ensures w <= delta0 ==> Nearest(m, delta0, if kappa > -9 then w else 0, one, kappa, Fold(0, buffer[..len]))
  {
    hide Fold, Multiple, Pow10, NoneShorter, Shortest, Nearest;
    var p2, delta := start, delta0;
    len, kappa := len0, 0;
    ghost var scale := 1;
    ScaleOne(m);
    ScaleOne(delta);
    assert Pow10(0) == 1 by { TopUnit(one); }
    while true
      invariant kappa <= 0 && scale == Pow10(-kappa)
      invariant len <= buffer.Length && Leading(buffer[..len])
      invariant Multiple(m, scale) == Multiple(Fold(0, buffer[..len]), one) + p2
      invariant delta == Multiple(delta0, scale) && 0 < delta <= p2 < one
      decreases one - delta
    {
      TwentyDigits(buffer[..len], m, delta0, scale, one, p2);
      FractionStep(Multiple(m, scale), delta, one, Fold(0, buffer[..len]), p2);
      ScaleUp(m, scale);
      ScaleUp(delta0, scale);
      PowTen(-kappa);
      scale := 10 * scale;
      p2 := p2 * 10;
      delta := delta * 10;
      var d := p2 / one;
      len := Emit(buffer, len, d);
      p2 := p2 % one;
      kappa := kappa - 1;
      if p2 < delta {
        RoundFraction(m, w, one, p2, delta0, delta, buffer, len, kappa);
        return;
      }
    }
  }

  lemma PowTen(k: nat)
    ensures Pow10(k + 1) == 10 * Pow10(k)
  {
  }

  lemma ZeroMultiple(scale: nat)
    ensures Multiple(0, scale) == 0
  {
  }

  /** The shortest digits between Mp - delta and Mp, the nearest to W among those of their
      length; at nine or more decimal places the rounding aims at Mp. */
  method DigitGen(W: DiyFp, Mp: DiyFp, delta: Limb, buffer: array<char>, k: int) returns (len: nat, K: int)
    requires -60 <= Mp.e <= -32 && Mp.f / One(Mp.e) < 1000000000 && 0 < delta < Mp.f
    requires buffer.Length >= 21
    modifies buffer
    ensures 1 <= len <= 21 && Leading(buffer[..len])
    ensures Shortest(Mp.f, delta, One(Mp.e), K - k, Fold(0, buffer[..len]))
    ensures 0 <= Mp.f - W.f <= delta ==>
              Nearest(Mp.f, delta, if K - k > -9 then Mp.f - W.f else 0, One(Mp.e), K - k, Fold(0, buffer[..len]))
  {
    hide Fold, One, Shortest, Nearest;
    var one := One(Mp.e);
    var wp_w := Minus(Mp, W);
    var done, kappa;
    done, len, kappa := IntegralDigits(Mp.f, wp_w.f, one, delta, buffer);
    K := k + kappa;
    if !done {
      var fraction;
      len, fraction := FractionDigits(Mp.f, wp_w.f, one, Mp.f % one, delta, buffer, len);
      K := k + fraction;
    }
  }

  /** The number one at an exponent. */
  function One(e: int): (one: Limb)
    requires -60 <= e <= -32
    ensures 0 < one <= 0x1000_0000_0000_0000
  {
    OneFits(-e);
    Pow(2, -e)
  }

  lemma OneFits(s: nat)
    requires 32 <= s <= 60
    ensures 0 < Pow(2, s) <= 0x1000_0000_0000_0000
  {
    PowIncreases(2, s, 60);
    assert Pow(2, 10) == 0x400;
    PowMul(2, 10, 6);
    assert Pow(0x400, 6) == 0x1000_0000_0000_0000;
  }

  // ----- from a double to its digits --------------------------------------

  lemma GapsAreWide(f: Limb)
    requires 0 < f < 2 * HIDDEN_BIT
    ensures GapAbove(f) >= 4 && GapBelow(f) >= 4
  {
    hide LeadingZeros, Pow;
    ElevenSpare(f);
    PowIncreases(2, 2, LeadingZeros(f) - 1);
    PowIncreases(2, 2, LeadingZeros(f) - 2);
    assert Pow(2, 2) == 4 by { PowDoubles(1, 1); PowDoubles(1, 0); PowZero(); }
  }

  lemma RoundedGap(x: Limb, y: Limb, c: Limb)
    requires x + 4 <= y && c >= TOP_BIT
    ensures 0 <= x * c && 0 <= y * c && RoundedHigh(x * c) + 2 <= RoundedHigh(y * c)
  {
    MulMonotone(x + 4, c, y, c);
    assert (x + 4) * c == x * c + 4 * c;
    var p, q := x * c + TOP_BIT, y * c + TOP_BIT;
    assert q >= p + 2 * BASE;
  }

  /** The halfway points between v and its neighbours, as normalised significands. */
  function HighBoundary(v: DiyFp): Limb
    requires 0 < v.f < 2 * HIDDEN_BIT
  {
    BoundariesFit(v);
    Normalize(v).f + GapAbove(v.f)
  }

  function LowBoundary(v: DiyFp): Limb
    requires 0 < v.f < 2 * HIDDEN_BIT
  {
    BoundariesFit(v);
    Normalize(v).f - GapBelow(v.f)
  }

  lemma BoundariesFit(v: DiyFp)
    requires 0 < v.f < 2 * HIDDEN_BIT
    ensures 0 <= Normalize(v).f - GapBelow(v.f) && Normalize(v).f + GapAbove(v.f) < BASE
  {
    hide LeadingZeros, Pow, GapAbove, GapBelow;
    LowerMidpoint(v.f);
    OddNeighbour(v.f);
  }

  function Scaled(x: Limb, c: Limb): nat
  {
    MulMonotone(0, 0, x, c);
    RoundedHigh(x * c)
  }

  /** Bounds for the digits of v at the scale of a cached power c: the boundaries scaled,
      rounded, and each moved inwards by one. */
  function Upper(v: DiyFp, c: DiyFp): (u: int)
    requires 0 < v.f < 2 * HIDDEN_BIT
  {
    Scaled(HighBoundary(v), c.f) - 1
  }

  function Lower(v: DiyFp, c: DiyFp): (l: int)
    requires 0 < v.f < 2 * HIDDEN_BIT
  {
    Scaled(LowBoundary(v), c.f) + 1
  }

  lemma BoundsInOrder(v: DiyFp, c: DiyFp)
    requires 0 < v.f < 2 * HIDDEN_BIT && c.f >= TOP_BIT
    ensures 0 < Lower(v, c) < Multiply(Normalize(v), c).f < Upper(v, c) < BASE
  {
    hide RoundedHigh, GapAbove, GapBelow, Normalize, Multiply;
    GapsAreWide(v.f);
    RoundedGap(Normalize(v).f, HighBoundary(v), c.f);
    RoundedGap(LowBoundary(v), Normalize(v).f, c.f);
    MultiplyRounds(Normalize(v), c);
    ProductFits(HighBoundary(v), c.f);
  }

  /** Scaling by a rounded power of ten is off by less than one unit. */
  lemma ScaledWithinOne(x: Limb, c: Limb, exact: real)
    requires c as real - 0.5 <= exact <= c as real + 0.5
    ensures var scaled := (x as real) * exact;
            && (Scaled(x, c) as real - 1.0) * (BASE as real) < scaled
            && scaled < (Scaled(x, c) as real + 1.0) * (BASE as real)
  {
    hide RoundedHigh;
    MulMonotone(0, 0, x, c);
    var p := x * c;
    var xr, err := x as real, exact - c as real;
    assert xr * exact == p as real + xr * err by {
      ProductAsReal(x, c);
      assert xr * exact == xr * (c as real) + xr * err;
    }
    var e := xr * err;
    HalfOf(xr, err, e);
    CutOff(p);
    OffByLessThanOne(p as real, RoundedHigh(p) as real, e, xr, BASE as real);
  }

  lemma OffByLessThanOne(p: real, r: real, e: real, x: real, base: real)
    requires r * base - 0.5 * base <= p < r * base + 0.5 * base
    requires -0.5 * x <= e <= 0.5 * x && 0.0 <= x < base
    ensures (r - 1.0) * base < p + e < (r + 1.0) * base
  {
    assert (r - 1.0) * base == r * base - base && (r + 1.0) * base == r * base + base;
  }

  lemma CutOff(p: nat)
    ensures var r, base := RoundedHigh(p) as real, BASE as real;
            r * base - 0.5 * base <= p as real < r * base + 0.5 * base
  {
    var r := RoundedHigh(p);
    assert r * BASE - TOP_BIT <= p < r * BASE + TOP_BIT;
    assert (r * BASE) as real == r as real * (BASE as real);
  }

  lemma ProductAsReal(x: nat, c: nat)
    ensures ((x * c) as real) == (x as real) * (c as real)
    decreases c
  {
    if c > 0 {
      ProductAsReal(x, c - 1);
      assert x * c == x * (c - 1) + x;
      assert (x as real) * (c as real) == (x as real) * ((c - 1) as real) + (x as real);
    }
  }

  lemma HalfOf(x: real, err: real, e: real)
    requires x >= 0.0 && -0.5 <= err <= 0.5 && e == x * err
    ensures -0.5 * x <= e <= 0.5 * x
  {
    assert x * (err + 0.5) >= 0.0;
    assert x * (0.5 - err) >= 0.0;
  }

  /** When c is a power of ten correct to half a unit, the digits lie strictly between the
      boundaries of v itself, so reading them back gives v. */
  lemma DigitsStayInside(v: DiyFp, c: DiyFp, exact: real, one: nat, kappa: int, n: nat)
    requires 0 < v.f < 2 * HIDDEN_BIT && c.f >= TOP_BIT
    requires c.f as real - 0.5 <= exact <= c.f as real + 0.5
    requires 0 < Lower(v, c) < Upper(v, c) && Shortest(Upper(v, c), Upper(v, c) - Lower(v, c), one, kappa, n)
    ensures var digits := (Multiple(n, Unit(kappa, one)) as real) * (BASE as real);
            var scale := Scale(kappa) as real;
            && (LowBoundary(v) as real) * exact * scale < digits
            && digits < (HighBoundary(v) as real) * exact * scale
  {
    hide Pow10, Scaled, LowBoundary, HighBoundary, Multiple, Unit, Scale, Shortest;
    var low, high := LowBoundary(v), HighBoundary(v);
    ScaledWithinOne(low, c.f, exact);
    ScaledWithinOne(high, c.f, exact);
    var l, u, scale, digits := Lower(v, c), Upper(v, c), Scale(kappa), Multiple(n, Unit(kappa, one));
    BetweenBounds(u, l, one, kappa, n);
    MultipleAsReal(l, scale);
    MultipleAsReal(u, scale);
    Bracket(l as real, u as real, (low as real) * exact, (high as real) * exact, BASE as real, scale as real, digits as real);
  }

  lemma BetweenBounds(u: nat, l: nat, one: nat, kappa: int, n: nat)
    requires l <= u && Shortest(u, u - l, one, kappa, n)
    ensures Scale(kappa) >= 1
    ensures Multiple(l, Scale(kappa)) <= Multiple(n, Unit(kappa, one)) <= Multiple(u, Scale(kappa))
  {
    hide Pow10, Multiple, Unit, NoneShorter;
    Spread(u, l, Scale(kappa));
  }

  lemma MultipleAsReal(n: nat, unit: nat)
    ensures Multiple(n, unit) as real == (n as real) * (unit as real)
  {
    ProductAsReal(n, unit);
  }

  lemma Spread(u: nat, l: nat, scale: nat)
    requires l <= u
    ensures Multiple(u, scale) - Multiple(u - l, scale) == Multiple(l, scale)
  {
    assert (u - l) * scale == u * scale - l * scale;
  }

  lemma Bracket(l: real, u: real, low: real, high: real, base: real, scale: real, digits: real)
    requires base > 0.0 && scale >= 1.0
    requires low < l * base && u * base < high && l * scale <= digits <= u * scale
    ensures low * scale < digits * base < high * scale
  {
    assert (l * base - low) * scale > 0.0;
    assert (high - u * base) * scale > 0.0;
    assert (digits - l * scale) * base >= 0.0;
    assert (u * scale - digits) * base >= 0.0;
    assert (l * base) * scale == (l * scale) * base;
    assert (u * base) * scale == (u * scale) * base;
  }
}

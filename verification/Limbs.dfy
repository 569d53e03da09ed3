/** Numbers as sequences of 64-bit limbs, least significant first. */
module Limbs {
  import opened NumberTheory

  const BASE := 0x1_0000_0000_0000_0000

  type Limb = n: int | 0 <= n < 0x1_0000_0000_0000_0000

  lemma TwoTo64()
    ensures Pow(2, 64) == BASE
  {
    assert Pow(2, 8) == 256;
    PowMul(2, 8, 8);
    assert Pow(256, 8) == BASE;
  }

  function Value(s: seq<Limb>): nat
  {
    if s == [] then 0 else s[0] + BASE * Value(s[1..])
  }

  /** No leading zero limb, except for zero itself. */
  predicate Normal(s: seq<Limb>)
  {
    s != [] && (|s| > 1 ==> s[|s| - 1] != 0)
  }

  lemma ValueOne(u: Limb)
    ensures Value([u]) == u
  {
    assert [u][1..] == [];
  }

  lemma NormalTail(s: seq<Limb>)
    requires Normal(s) && |s| > 1
    ensures Normal(s[1..]) && Value(s[1..]) > 0
    decreases |s|
  {
    if |s| > 2 {
      NormalTail(s[1..]);
    } else {
      ValueOne(s[1]);
      assert s[1..] == [s[1]];
    }
  }

  // ----- addition ---------------------------------------------------------

  function AddLimbs(s: seq<Limb>, u: Limb): seq<Limb>
  {
    if s == [] then (if u == 0 then [] else [u])
    else if s[0] + u < BASE then [s[0] + u] + s[1..]
    else [s[0] + u - BASE] + AddLimbs(s[1..], 1)
  }

  /** A 64-bit sum. */
  function Wrap(n: nat): Limb
  {
    n % BASE
  }

  /** One limb of the addition: the sum either fits, or wraps and carries one. */
  lemma AddStep(s: seq<Limb>, i: nat, u: Limb)
    requires i < |s|
    ensures var sum := Wrap(s[i] + u);
            && (sum >= s[i] <==> s[i] + u < BASE)
            && (sum >= s[i] ==> AddLimbs(s[i..], u) == [sum] + s[i + 1..])
            && (sum < s[i] ==> AddLimbs(s[i..], u) == [sum] + AddLimbs(s[i + 1..], 1))
  {
    assert s[i..][1..] == s[i + 1..];
  }

  /** The limbs t below i are done, limb i has its sum, and those above are still those of s. */
  ghost predicate Carrying(s: seq<Limb>, t: seq<Limb>, i: nat, carry: Limb, u: Limb)
  {
    && i < |s| == |t| && t[i] == Wrap(s[i] + carry) && t[i + 1..] == s[i + 1..]
    && t[..i] + AddLimbs(s[i..], carry) == AddLimbs(s, u)
  }

  lemma CarryStarts(s: seq<Limb>, u: Limb)
    requires s != []
    ensures Carrying(s, s[0 := Wrap(s[0] + u)], 0, u, u)
  {
    assert s[0..] == s;
  }

  lemma CarryGoesOn(s: seq<Limb>, t: seq<Limb>, i: nat, carry: Limb, u: Limb)
    requires Carrying(s, t, i, carry, u) && t[i] < s[i] && i + 1 < |s|
    ensures t[i + 1] == s[i + 1] && Carrying(s, t[i + 1 := Wrap(s[i + 1] as int + 1)], i + 1, 1, u)
  {
    hide AddLimbs;
    AddStep(s, i, carry);
    assert t[i + 1] == t[i + 1..][0] && s[i + 1] == s[i + 1..][0];
    Regrouped(t[..i], t[i], AddLimbs(s[i + 1..], 1));
    var t' := t[i + 1 := Wrap(s[i + 1] as int + 1)];
    assert t'[..i + 1] == t[..i] + [t[i]];
    assert t'[i + 2..] == t[i + 1..][1..] && s[i + 2..] == s[i + 1..][1..];
  }

  /** The carry ends where the sum does not wrap, and beyond the last limb as a limb of its own. */
  lemma CarryEnds(s: seq<Limb>, t: seq<Limb>, i: nat, carry: Limb, u: Limb)
    requires Carrying(s, t, i, carry, u)
    ensures t[i] >= s[i] ==> AddLimbs(s, u) == t
    ensures t[i] < s[i] && i == |s| - 1 ==> AddLimbs(s, u) == t + [1]
  {
    hide AddLimbs;
    AddStep(s, i, carry);
    Regrouped(t[..i], t[i], s[i + 1..]);
    assert t == t[..i] + [t[i]] + t[i + 1..];
    if i == |s| - 1 {
      assert s[i + 1..] == [];
      AddToNothing();
      Regrouped(t[..i], t[i], [1]);
    }
  }

  lemma AddToNothing()
    ensures AddLimbs([], 1) == [1]
  {
  }

  lemma Regrouped(low: seq<Limb>, d: Limb, high: seq<Limb>)
    ensures low + ([d] + high) == low + [d] + high
  {
  }

  lemma {:induction false} AddValue(s: seq<Limb>, u: Limb)
    ensures Value(AddLimbs(s, u)) == Value(s) + u
  {
    if s == [] {
      if u != 0 {
        ValueOne(u);
      }
    } else if s[0] + u < BASE {
      assert AddLimbs(s, u)[1..] == s[1..];
    } else {
      AddValue(s[1..], 1);
      assert AddLimbs(s, u)[1..] == AddLimbs(s[1..], 1);
    }
  }

  lemma {:induction false} AddNormal(s: seq<Limb>, u: Limb)
    requires Normal(s)
    ensures Normal(AddLimbs(s, u))
    decreases |s|
  {
    if |s| == 1 {
      assert s[1..] == [];
    } else if s[0] + u >= BASE {
      NormalTail(s);
      AddNormal(s[1..], 1);
      var t := AddLimbs(s[1..], 1);
      assert t != [0] by { AddValue(s[1..], 1); ValueOne(0); }
      assert AddLimbs(s, u) == [s[0] + u - BASE] + t;
    }
  }

  // ----- multiplication by one limb ---------------------------------------

  /** The product of s by u plus an incoming carry k; a last carry makes one more limb. */
  function MulLimbs(s: seq<Limb>, u: Limb, k: Limb): seq<Limb>
  {
    if s == [] then (if k == 0 then [] else [k])
    else
      CarryBound(s[0], u, k);
      [(s[0] * u + k) % BASE] + MulLimbs(s[1..], u, (s[0] * u + k) / BASE)
  }

  lemma DivBound(x: nat, q: nat, n: nat)
    requires n > 0 && x < q * n
    ensures x / n < q
  {
    if x / n >= q {
      MulMonotone(q, n, x / n, n);
      assert false;
    }
  }

  lemma CarryBound(a: Limb, u: Limb, k: Limb)
    ensures 0 <= a * u + k && 0 <= (a * u + k) / BASE < BASE
  {
    MulMonotone(a, u, BASE - 1, BASE - 1);
    DivBound(a * u + k, BASE, BASE);
  }

  lemma TimesTail(a: int, v: int, u: int)
    ensures (a + BASE * v) * u == a * u + BASE * (v * u)
  {
    assert (a + BASE * v) * u == a * u + (BASE * v) * u;
  }

  lemma MulStep(s: seq<Limb>, i: nat, u: Limb, k: Limb)
    requires i < |s|
    ensures 0 <= s[i] * u + k && (s[i] * u + k) / BASE < BASE
    ensures MulLimbs(s[i..], u, k)
         == [(s[i] * u + k) % BASE] + MulLimbs(s[i + 1..], u, (s[i] * u + k) / BASE)
  {
    CarryBound(s[i], u, k);
    assert s[i..][1..] == s[i + 1..];
  }

  lemma {:induction false} MulValue(s: seq<Limb>, u: Limb, k: Limb)
    ensures Value(MulLimbs(s, u, k)) == Value(s) * u + k
  {
    if s == [] {
      if k != 0 {
        ValueOne(k);
      }
    } else {
      var p := s[0] * u + k;
      CarryBound(s[0], u, k);
      MulValue(s[1..], u, p / BASE);
      assert MulLimbs(s, u, k)[1..] == MulLimbs(s[1..], u, p / BASE);
      TimesTail(s[0], Value(s[1..]), u);
    }
  }

  lemma {:induction false} MulNormal(s: seq<Limb>, u: Limb, k: Limb)
    requires Normal(s) && u > 0
    ensures Normal(MulLimbs(s, u, k))
    decreases |s|
  {
    var p := s[0] * u + k;
    CarryBound(s[0], u, k);
    var t := MulLimbs(s[1..], u, p / BASE);
    assert MulLimbs(s, u, k) == [p % BASE] + t;
    if |s| > 1 {
      NormalTail(s);
      MulNormal(s[1..], u, p / BASE);
      assert t != [0] by {
        MulValue(s[1..], u, p / BASE);
        MulMonotone(1, 1, Value(s[1..]), u);
        ValueOne(0);
      }
    } else {
      assert s[1..] == [];
    }
  }

  // ----- comparison -------------------------------------------------------

  lemma {:induction false} ValueBelow(s: seq<Limb>)
    ensures Value(s) < Pow(BASE, |s|)
  {
    if s != [] {
      ValueBelow(s[1..]);
    }
  }

  lemma {:induction false} ValueConcat(a: seq<Limb>, b: seq<Limb>)
    ensures Value(a + b) == Value(a) + Pow(BASE, |a|) * Value(b)
    decreases |a|
  {
    if a == [] {
      assert a + b == b;
    } else {
      assert (a + b)[1..] == a[1..] + b;
      ValueConcat(a[1..], b);
      TimesTail(0, Pow(BASE, |a| - 1), Value(b));
    }
  }

  lemma {:induction false} PowIncreases(b: nat, e: nat, f: nat)
    requires b > 0 && e <= f
    ensures 0 < Pow(b, e) <= Pow(b, f)
  {
    PowPositive(b, e);
    if e < f {
      PowIncreases(b, e, f - 1);
      assert b * Pow(b, f - 1) >= Pow(b, f - 1);
    }
  }

  /** A normal sequence of more than one limb is at least the weight of its last limb. */
  lemma {:induction false} NormalAtLeast(s: seq<Limb>)
    requires Normal(s) && |s| > 1
    ensures Value(s) >= Pow(BASE, |s| - 1)
    decreases |s|
  {
    if |s| == 2 {
      ValueOne(s[1]);
      assert s[1..] == [s[1]];
      assert Pow(BASE, 1) == BASE * Pow(BASE, 0);
    } else {
      NormalTail(s);
      NormalAtLeast(s[1..]);
    }
  }

  /** More limbs means a larger number. */
  lemma LongerIsLarger(s: seq<Limb>, t: seq<Limb>)
    requires Normal(s) && Normal(t) && |s| < |t|
    ensures Value(s) < Value(t)
  {
    ValueBelow(s);
    NormalAtLeast(t);
    PowIncreases(BASE, |s|, |t| - 1);
  }

  /** The normal form of a number. */
  function LimbsOf(n: nat): (s: seq<Limb>)
    ensures s != []
  {
    if n < BASE then [n] else [n % BASE] + LimbsOf(n / BASE)
  }

  lemma {:induction false} LimbsOfIsNormal(n: nat)
    ensures Normal(LimbsOf(n)) && Value(LimbsOf(n)) == n
  {
    if n < BASE {
      ValueOne(n);
    } else {
      var rest := LimbsOf(n / BASE);
      LimbsOfIsNormal(n / BASE);
      assert LimbsOf(n)[1..] == rest;
      if |rest| == 1 {
        ValueOne(rest[0]);
        assert rest == [rest[0]];
      }
    }
  }

  /** How many limbs a normal form has depends on the size of the number alone. */
  lemma CountExactly(s: seq<Limb>, k: nat)
    requires Normal(s) && k >= 1
    ensures |s| <= k <==> Value(s) < Pow(BASE, k)
  {
    hide Pow, Value;
    if |s| <= k {
      ValueBelow(s);
      PowIncreases(BASE, |s|, k);
    }
    if Value(s) < Pow(BASE, k) {
      CountBound(s, k);
    }
  }

  /** A number below a power of the base has no more limbs than the power. */
  lemma CountBound(s: seq<Limb>, k: nat)
    requires Normal(s) && k >= 1 && Value(s) < Pow(BASE, k)
    ensures |s| <= k
  {
    if |s| > k {
      NormalAtLeast(s);
      PowIncreases(BASE, k, |s| - 1);
      assert false;
    }
  }

  lemma ScaledGap(a: nat, b: nat, w: nat, p: nat, q: nat)
    requires a < w && p < q
    ensures a + w * p < b + w * q
  {
    MulMonotone(w, p + 1, w, q);
    assert w * (p + 1) == w * p + w;
  }

  lemma ValueCons(x: Limb, high: seq<Limb>)
    ensures Value([x] + high) == x + BASE * Value(high)
  {
    assert ([x] + high)[1..] == high;
  }

  lemma ValueSplitAt(a: seq<Limb>, x: Limb, high: seq<Limb>)
    ensures Value(a + [x] + high) == Value(a) + Pow(BASE, |a|) * (x + BASE * Value(high))
  {
    hide Pow, Value;
    assert a + [x] + high == a + ([x] + high);
    ValueCons(x, high);
    ValueConcat(a, [x] + high);
  }

  /** The highest differing limb decides. */
  lemma HighestDifference(a: seq<Limb>, b: seq<Limb>, x: Limb, y: Limb, high: seq<Limb>)
    requires |a| == |b| && x < y
    ensures Value(a + [x] + high) < Value(b + [y] + high)
  {
    hide Pow, Value;
    ValueBelow(a);
    ValueSplitAt(a, x, high);
    ValueSplitAt(b, y, high);
    ScaledGap(Value(a), Value(b), Pow(BASE, |a|), x + BASE * Value(high), y + BASE * Value(high));
  }

  // ----- zero limbs -------------------------------------------------------

  function Zeros(n: nat): (s: seq<Limb>)
    ensures |s| == n
  {
    seq(n, _ => 0)
  }

  lemma {:induction false} ZerosValue(n: nat, s: seq<Limb>)
    ensures Value(Zeros(n) + s) == Pow(BASE, n) * Value(s)
  {
    if n == 0 {
      assert Zeros(0) + s == s;
    } else {
      assert (Zeros(n) + s)[1..] == Zeros(n - 1) + s;
      ZerosValue(n - 1, s);
      TimesTail(0, Pow(BASE, n - 1), Value(s));
    }
  }

  // ----- shifting by less than one limb -----------------------------------

  /** With p * q the base, p shifts a limb left and q cuts off the bits shifted out. */
  lemma ShiftCarry(a: Limb, p: nat, q: nat, k: nat)
    requires p * q == BASE && k < p
    ensures q > 0 && a / q < p
    ensures 0 <= a * p && (a * p) % BASE + k < BASE
    ensures a * p + k == (a / q) * BASE + (a * p) % BASE + k
  {
    var h, r := a / q, a % q;
    assert a == h * q + r;
    assert a * p == h * BASE + r * p by {
      assert (h * q + r) * p == h * (p * q) + r * p;
    }
    MulMonotone(r, p, q - 1, p);
    assert (q - 1) * p == BASE - p;
    assert r * p >= 0;
    DivModUnique(a * p, h, r * p, BASE);
    DivBound(a, p, q);
  }

  function ShiftLimbs(s: seq<Limb>, p: nat, q: nat, k: nat): (r: seq<Limb>)
    requires p * q == BASE && k < p
    ensures |r| == |s| + 1
  {
    if s == [] then
      assert k < BASE by { ShiftCarry(0, p, q, k); }
      [k]
    else
      ShiftCarry(s[0], p, q, k);
      [(s[0] * p) % BASE + k] + ShiftLimbs(s[1..], p, q, s[0] / q)
  }

  lemma {:induction false} ShiftValue(s: seq<Limb>, p: nat, q: nat, k: nat)
    requires p * q == BASE && k < p
    ensures Value(ShiftLimbs(s, p, q, k)) == Value(s) * p + k
    decreases |s|
  {
    ShiftCarry(if s == [] then 0 else s[0], p, q, k);
    if s == [] {
      ValueOne(k);
    } else {
      var rest := ShiftLimbs(s[1..], p, q, s[0] / q);
      ShiftValue(s[1..], p, q, s[0] / q);
      assert ShiftLimbs(s, p, q, k)[1..] == rest;
      TimesTail(s[0], Value(s[1..]), p);
    }
  }

  /** Each limb of the shift joins the low part of one limb and the high part of the one below. */
  lemma {:induction false} ShiftLimbAt(s: seq<Limb>, p: nat, q: nat, k: nat, j: nat)
    requires p * q == BASE && k < p && j <= |s|
    ensures q > 0
    ensures ShiftLimbs(s, p, q, k)[j]
         == (if j == |s| then 0 else (s[j] * p) % BASE) + (if j == 0 then k else s[j - 1] / q)
    decreases |s|
  {
    if s != [] {
      ShiftCarry(s[0], p, q, k);
      if j > 0 {
        ShiftLimbAt(s[1..], p, q, s[0] / q, j - 1);
      }
    }
  }

  /** Dropping a zero top limb keeps the number; what is left is normal. */
  lemma ShiftNormal(s: seq<Limb>, p: nat, q: nat)
    requires p * q == BASE && p > 0 && Normal(s) && Value(s) > 0
    ensures var t := ShiftLimbs(s, p, q, 0);
            var r := if t[|s|] == 0 then t[..|s|] else t;
            Normal(r) && Value(r) == Value(s) * p
  {
    hide ShiftLimbs, Value, Pow;
    var t, n := ShiftLimbs(s, p, q, 0), |s|;
    ShiftValue(s, p, q, 0);
    ShiftLimbAt(s, p, q, 0, n);
    if t[n] == 0 {
      assert t == t[..n] + [0];
      ValueConcat(t[..n], [0]);
      ValueOne(0);
      if n > 1 {
        ShiftLimbAt(s, p, q, 0, n - 1);
        var a := s[n - 1];
        ShiftCarry(a, p, q, 0);
        assert a * p == (a * p) % BASE;
        MulMonotone(1, 1, a, p);
      }
    }
  }
}

/** Unsigned words as numbers: exclusive or and shifts by their binary digits. */
module Words {
  import opened NumberTheory

  const WORD := 0x1_0000_0000_0000_0000

  function Xor(a: nat, b: nat): nat
    decreases a + b
  {
    if a == 0 && b == 0 then 0 else (a + b) % 2 + 2 * Xor(a / 2, b / 2)
  }

  function ShiftRight(x: nat, k: nat): nat
  {
    PowPositive(2, k);
    var p := Pow(2, k);
    QuotientIsNat(x, p);
    x / p
  }

  lemma QuotientIsNat(x: nat, p: nat)
    requires p > 0
    ensures x / p >= 0
  {
  }

  // ----- exclusive or -----------------------------------------------------

  lemma {:induction false} XorComm(a: nat, b: nat)
    ensures Xor(a, b) == Xor(b, a)
    decreases a + b
  {
    if a + b > 0 {
      XorComm(a / 2, b / 2);
    }
  }

  lemma {:induction false} XorZero(a: nat)
    ensures Xor(a, 0) == a && Xor(0, a) == a
    decreases a
  {
    if a > 0 {
      XorZero(a / 2);
    }
  }

  lemma {:induction false} XorSelf(a: nat)
    ensures Xor(a, a) == 0
    decreases a
  {
    if a > 0 {
      XorSelf(a / 2);
      assert (a + a) % 2 == 0;
    }
  }

  lemma TwoDigits(d: nat, n: nat)
    requires d < 2
    ensures (d + 2 * n) % 2 == d && (d + 2 * n) / 2 == n
  {
  }

  lemma XorUnfolds(a: nat, b: nat)
    ensures Xor(a, b) == (a + b) % 2 + 2 * Xor(a / 2, b / 2)
  {
  }

  /** The last digit of an exclusive or, and the rest. */
  lemma XorDigits(a: nat, b: nat)
    ensures Xor(a, b) % 2 == (a + b) % 2 && Xor(a, b) / 2 == Xor(a / 2, b / 2)
  {
    hide Xor;
    XorUnfolds(a, b);
    TwoDigits((a + b) % 2, Xor(a / 2, b / 2));
  }

  lemma {:induction false} XorAssoc(a: nat, b: nat, c: nat)
    ensures Xor(Xor(a, b), c) == Xor(a, Xor(b, c))
    decreases a + b + c
  {
    hide Xor;
    XorZero(0);
    if a + b + c > 0 {
      XorAssoc(a / 2, b / 2, c / 2);
      XorDigits(a, b);
      XorDigits(b, c);
      XorUnfolds(Xor(a, b), c);
      XorUnfolds(a, Xor(b, c));
      SameParity(Xor(a, b), a + b, c);
      SameParity(Xor(b, c), b + c, a);
    }
  }

  lemma SameParity(x: nat, y: nat, z: nat)
    requires x % 2 == y % 2
    ensures (x + z) % 2 == (y + z) % 2 && (z + x) % 2 == (z + y) % 2
  {
  }

  /** Words that cancel are equal. */
  lemma XorCancels(a: nat, b: nat)
    requires Xor(a, b) == 0
    ensures a == b
  {
    XorAssoc(a, b, b);
    XorSelf(b);
    XorZero(a);
    XorZero(b);
  }

  lemma XorPairs(a: nat, b: nat, c: nat, d: nat)
    ensures Xor(Xor(a, b), Xor(c, d)) == Xor(Xor(a, c), Xor(b, d))
  {
    hide Xor;
    XorAssoc(a, b, Xor(c, d));
    XorAssoc(b, c, d);
    XorComm(b, c);
    XorAssoc(c, b, d);
    XorAssoc(a, c, Xor(b, d));
  }

  lemma {:induction false} XorBelow(a: nat, b: nat, w: nat)
    requires a < Pow(2, w) && b < Pow(2, w)
    ensures Xor(a, b) < Pow(2, w)
    decreases w
  {
    if w > 0 {
      XorBelow(a / 2, b / 2, w - 1);
      XorDigits(a, b);
    }
  }

  // ----- shifts -----------------------------------------------------------

  lemma HalveFirst(x: nat, k: nat)
    ensures ShiftRight(x, k + 1) == ShiftRight(x / 2, k)
  {
    PowPositive(2, k);
    var p := Pow(2, k);
    var q, r := x / 2 / p, x / 2 % p;
    assert x == q * (2 * p) + (2 * r + x % 2) by {
      assert x / 2 == q * p + r;
    }
    DivModUnique(x, q, 2 * r + x % 2, 2 * p);
  }

  lemma ShiftByNothing(x: nat)
    ensures ShiftRight(x, 0) == x
  {
  }

  lemma {:induction false} RightAdds(a: nat, b: nat, k: nat)
    ensures ShiftRight(Xor(a, b), k) == Xor(ShiftRight(a, k), ShiftRight(b, k))
    decreases k
  {
    hide Xor, ShiftRight;
    if k == 0 {
      ShiftByNothing(a);
      ShiftByNothing(b);
      ShiftByNothing(Xor(a, b));
    } else {
      HalveFirst(Xor(a, b), k - 1);
      HalveFirst(a, k - 1);
      HalveFirst(b, k - 1);
      XorDigits(a, b);
      RightAdds(a / 2, b / 2, k - 1);
    }
  }

  lemma WordIsPower()
    ensures WORD == Pow(2, 64)
  {
    assert Pow(2, 8) == 256;
    PowAdd(2, 8, 8);
    PowAdd(2, 16, 16);
    PowAdd(2, 32, 32);
  }
}

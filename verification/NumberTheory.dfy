/** Modular arithmetic up to Fermat's little theorem and the product of two
    coprime congruences, for the RSA proofs. */
module NumberTheory {

  const TWO_32 := 0x1_0000_0000

  function Pow(b: int, e: nat): int
    decreases e
  {
    if e == 0 then 1 else b * Pow(b, e - 1)
  }

  lemma {:induction false} PowPositive(b: nat, e: nat)
    requires b > 0
    ensures Pow(b, e) > 0
  {
    if e > 0 {
      PowPositive(b, e - 1);
    }
  }

  ghost predicate Prime(p: int)
  {
    2 <= p && forall d :: 2 <= d < p ==> p % d != 0
  }

  ghost predicate Divides(d: int, n: int)
    requires d > 0
  {
    n % d == 0
  }

  // ----- quotient and remainder -------------------------------------------

  lemma SmallMultiple(k: int, m: int)
    requires m > 0 && -m < k * m < m
    ensures k == 0
  {
    assert k >= 1 ==> k * m >= m;
    assert k <= -1 ==> k * m <= -m;
  }

  lemma MulMonotone(a: nat, b: nat, c: nat, d: nat)
    requires a <= c && b <= d
    ensures a * b <= c * d
  {
    assert c * d - a * b == (c - a) * d + a * (d - b);
    assert (c - a) * d >= 0 && a * (d - b) >= 0;
  }

  lemma HalfProduct(x: nat, y: nat)
    requires x < TWO_32 && y < TWO_32
    ensures 0 <= x * y <= 0xFFFF_FFFE_0000_0001
  {
    MulMonotone(0, 0, x, y);
    MulMonotone(x, y, TWO_32 - 1, TWO_32 - 1);
    assert (TWO_32 - 1) * (TWO_32 - 1) == 0xFFFF_FFFE_0000_0001;
  }

  lemma DivModUnique(x: int, q: int, r: int, m: int)
    requires m > 0 && 0 <= r < m && x == q * m + r
    ensures x / m == q && x % m == r
  {
    var k := x / m - q;
    assert k * m == (x / m) * m - q * m;
    SmallMultiple(k, m);
  }

  lemma DividesFromWitness(d: int, k: int, n: int)
    requires d > 0 && n == k * d
    ensures Divides(d, n)
  {
    DivModUnique(n, k, 0, d);
  }

  lemma ModAddMultiple(x: int, k: int, m: int)
    requires m > 0
    ensures (x + k * m) % m == x % m
  {
    assert (x / m + k) * m == (x / m) * m + k * m;
    DivModUnique(x + k * m, x / m + k, x % m, m);
  }

  lemma MulSub(x: int, y: int, m: int)
    ensures (x - y) * m == x * m - y * m
  {
  }

  /** Equal remainders mean the difference is a multiple, and conversely. */
  lemma CongruentIff(a: int, b: int, m: int)
    requires m > 0
    ensures a % m == b % m <==> Divides(m, a - b)
  {
    if a % m == b % m {
      MulSub(a / m, b / m, m);
      DividesFromWitness(m, a / m - b / m, a - b);
    } else if Divides(m, a - b) {
      ModAddMultiple(b, (a - b) / m, m);
    }
  }

  lemma ModMulLeft(a: int, b: int, m: int)
    requires m > 0
    ensures ((a % m) * b) % m == (a * b) % m
  {
    var q, r := a / m, a % m;
    assert a * b == r * b + (q * b) * m by {
      assert a == q * m + r;
      assert (q * m + r) * b == (q * b) * m + r * b;
    }
    ModAddMultiple(r * b, q * b, m);
  }

  lemma ModMul(a: int, b: int, m: int)
    requires m > 0
    ensures ((a % m) * (b % m)) % m == (a * b) % m
  {
    ModMulLeft(a, b % m, m);
    ModMulLeft(b, a, m);
    assert (b % m) * a == a * (b % m);
    assert b * a == a * b;
  }

  lemma ModAdd(a: int, b: int, m: int)
    requires m > 0
    ensures ((a % m) + b) % m == (a + b) % m
  {
    ModAddMultiple(a % m + b, a / m, m);
    assert a % m + b + (a / m) * m == a + b;
  }

  // ----- powers -----------------------------------------------------------

  lemma {:induction false} PowAdd(b: int, m: nat, n: nat)
    ensures Pow(b, m + n) == Pow(b, m) * Pow(b, n)
    decreases m
  {
    if m > 0 {
      PowAdd(b, m - 1, n);
      assert b * (Pow(b, m - 1) * Pow(b, n)) == (b * Pow(b, m - 1)) * Pow(b, n);
    }
  }

  lemma {:induction false} PowMul(b: int, m: nat, n: nat)
    ensures m * n >= 0 && Pow(b, m * n) == Pow(Pow(b, m), n)
    decreases n
  {
    if n == 0 {
      assert m * n == 0;
    } else {
      PowMul(b, m, n - 1);
      assert m * n == m + m * (n - 1);
      PowAdd(b, m, m * (n - 1));
    }
  }

  /** The base may be reduced before raising it to a power. */
  lemma {:induction false} PowMod(b: int, e: nat, m: int)
    requires m > 0
    ensures Pow(b % m, e) % m == Pow(b, e) % m
    decreases e
  {
    if e > 0 {
      var x, y := Pow(b % m, e - 1), Pow(b, e - 1);
      PowMod(b, e - 1, m);
      ModMul(b % m, x, m);
      ModMul(b, y, m);
      assert (b % m) % m == b % m by { DivModUnique(b % m, 0, b % m, m); }
    }
  }

  // ----- primes -----------------------------------------------------------

  /** Euclid's lemma. The descent replaces a by p mod a, which keeps p dividing a * b. */
  lemma {:induction false} Euclid(p: int, a: int, b: int)
    requires Prime(p) && Divides(p, a * b)
    ensures Divides(p, a) || Divides(p, b)
    decreases if 0 <= a < p then 0 else 1, if 0 <= a < p then a else 0
  {
    if !(0 <= a < p) {
      ModMulLeft(a, b, p);
      Euclid(p, a % p, b);
      DivModUnique(a % p, 0, a % p, p);
    } else if a == 0 {
      DividesFromWitness(p, 0, a);
    } else if a > 1 {
      var q, r := p / a, p % a;
      assert 0 < r < a;
      var k := (a * b) / p;
      assert a * b == k * p;
      assert r * b == (b - q * k) * p by {
        assert p == q * a + r;
        assert (q * a + r) * b == q * (a * b) + r * b;
        assert q * (k * p) == (q * k) * p;
        assert (b - q * k) * p == b * p - (q * k) * p;
      }
      DividesFromWitness(p, b - q * k, r * b);
      Euclid(p, r, b);
      if Divides(p, r) {
        DivModUnique(r, 0, r, p);
        assert false;
      }
    }
  }

  /** Two different primes that both divide n divide it together. */
  lemma PrimesDivideTogether(p: int, q: int, n: int)
    requires Prime(p) && Prime(q) && p != q
    requires Divides(p, n) && Divides(q, n)
    ensures Divides(p * q, n)
  {
    var k := n / p;
    assert n == p * k;
    Euclid(q, p, k);
    if p < q {
      DivModUnique(p, 0, p, q);
    }
    assert !Divides(q, p);
    var j := k / q;
    assert k == j * q;
    assert p * (j * q) == j * (p * q);
    DividesFromWitness(p * q, j, n);
  }

  // ----- the binomial theorem ---------------------------------------------

  function Choose(n: nat, k: nat): nat
    decreases n
  {
    if k == 0 then 1
    else if n == 0 then 0
    else Choose(n - 1, k - 1) + Choose(n - 1, k)
  }

  lemma {:induction false} ChooseEdge(n: nat, k: nat)
    requires n <= k
    ensures Choose(n, k) == if n == k then 1 else 0
    decreases n
  {
    if n > 0 {
      ChooseEdge(n - 1, k - 1);
      ChooseEdge(n - 1, k);
    }
  }

  lemma AbsorptionStep(n: int, k: int, a: int, b: int, c: int)
    requires (k - 1) * (a + b) == (n - 1) * a && k * c == (n - 1) * b
    ensures k * ((a + b) + c) == n * (a + b)
  {
    assert (k - 1) * (a + b) == k * (a + b) - (a + b);
    assert k * ((a + b) + c) == k * (a + b) + k * c;
    assert n * (a + b) == (n - 1) * a + (n - 1) * b + (a + b);
  }

  lemma {:induction false} ChooseAbsorption(n: nat, k: nat)
    requires n > 0 && k > 0
    ensures k * Choose(n, k) == n * Choose(n - 1, k - 1)
    decreases n
  {
    if n == 1 {
      ChooseEdge(1, k);
      ChooseEdge(0, k - 1);
    } else if k == 1 {
      ChooseAbsorption(n - 1, 1);
      assert Choose(n - 1, 0) == Choose(n - 2, 0) == 1;
    } else {
      ChooseAbsorption(n - 1, k);
      ChooseAbsorption(n - 1, k - 1);
      AbsorptionStep(n, k, Choose(n - 2, k - 2), Choose(n - 2, k - 1), Choose(n - 1, k));
    }
  }

  /** The first k + 1 terms of the expansion of (1 + a) to the power n. */
  function BinomialSum(n: nat, k: nat, a: int): int
    decreases k
  {
    Choose(n, k) * Pow(a, k) + (if k == 0 then 0 else BinomialSum(n, k - 1, a))
  }

  lemma BinomialTermStep(c: int, d: int, a: int, w: int, s1: int, s2: int, r: int)
    requires r == c * w + s2
    ensures (c + d) * (a * w) + (s1 + a * s2) == (d * (a * w) + s1) + a * r
  {
    assert (c + d) * (a * w) == c * (a * w) + d * (a * w);
    assert a * r == a * (c * w) + a * s2;
    assert c * (a * w) == a * (c * w);
  }

  lemma {:induction false} BinomialStep(n: nat, k: nat, a: int)
    requires k > 0
    ensures BinomialSum(n + 1, k, a) == BinomialSum(n, k, a) + a * BinomialSum(n, k - 1, a)
    decreases k
  {
    var c, d, w := Choose(n, k - 1), Choose(n, k), Pow(a, k - 1);
    if k == 1 {
      BinomialTermStep(c, d, a, w, 1, 0, 1);
      assert BinomialSum(n, 0, a) == BinomialSum(n + 1, 0, a) == 1;
    } else {
      BinomialStep(n, k - 1, a);
      BinomialTermStep(c, d, a, w, BinomialSum(n, k - 1, a), BinomialSum(n, k - 2, a), BinomialSum(n, k - 1, a));
    }
  }

  lemma {:induction false} BinomialTheorem(n: nat, a: int)
    ensures Pow(a + 1, n) == BinomialSum(n, n, a)
    decreases n
  {
    if n > 0 {
      BinomialTheorem(n - 1, a);
      BinomialStep(n - 1, n, a);
      ChooseEdge(n - 1, n);
      assert BinomialSum(n - 1, n, a) == 0 * Pow(a, n) + BinomialSum(n - 1, n - 1, a);
      assert (a + 1) * BinomialSum(n - 1, n - 1, a)
          == a * BinomialSum(n - 1, n - 1, a) + BinomialSum(n - 1, n - 1, a);
    }
  }

  lemma {:induction false} PrimeDividesChoose(p: int, k: nat)
    requires Prime(p) && 0 < k < p
    ensures Divides(p, Choose(p, k))
  {
    ChooseAbsorption(p, k);
    assert p * Choose(p - 1, k - 1) == Choose(p - 1, k - 1) * p;
    DividesFromWitness(p, Choose(p - 1, k - 1), k * Choose(p, k));
    Euclid(p, k, Choose(p, k));
    DivModUnique(k, 0, k, p);
  }

  lemma AddedMultiple(y: int, w: int, x: int, p: int)
    requires p > 0 && Divides(p, y)
    ensures (y * w + x) % p == x % p
  {
    var c := y / p;
    assert y == c * p;
    assert (c * p) * w == (c * w) * p;
    ModAddMultiple(x, c * w, p);
  }

  lemma {:induction false} BinomialSumModPrime(p: int, k: nat, a: int)
    requires Prime(p) && k < p
    ensures BinomialSum(p, k, a) % p == 1
    decreases k
  {
    if k == 0 {
      assert BinomialSum(p, 0, a) == 1;
      DivModUnique(1, 0, 1, p);
    } else {
      assert BinomialSum(p, k, a) == Choose(p, k) * Pow(a, k) + BinomialSum(p, k - 1, a);
      hide *;
      BinomialSumModPrime(p, k - 1, a);
      PrimeDividesChoose(p, k);
      AddedMultiple(Choose(p, k), Pow(a, k), BinomialSum(p, k - 1, a), p);
    }
  }

  /** Fermat's little theorem. */
  lemma {:induction false} Fermat(p: int, a: nat)
    requires Prime(p)
    ensures Pow(a, p) % p == a % p
    decreases a
  {
    if a == 0 {
      assert Pow(0, p) == 0;
    } else {
      Fermat(p, a - 1);
      BinomialTheorem(p, a - 1);
      BinomialSumModPrime(p, p - 1, a - 1);
      ChooseEdge(p, p);
      var s, t := BinomialSum(p, p - 1, a - 1), Pow(a - 1, p);
      assert Pow(a, p) == 1 * t + s;
      ModAdd(t, s, p);
      ModAdd(s, t % p, p);
      ModAdd(a - 1, 1, p);
      assert (t % p + 1) % p == (s % p + t % p) % p;
    }
  }

  /** A power whose exponent is one more than a multiple of p - 1 leaves every base unchanged mod p. */
  lemma {:induction false} FermatPeriod(p: int, a: nat, k: nat)
    requires Prime(p)
    ensures k * (p - 1) >= 0 && Pow(a, k * (p - 1) + 1) % p == a % p
    decreases k
  {
    if k == 0 {
      assert k * (p - 1) == 0;
      assert Pow(a, 1) == a * Pow(a, 0);
    } else {
      FermatPeriod(p, a, k - 1);
      var n := (k - 1) * (p - 1);
      assert k * (p - 1) + 1 == n + p;
      PowAdd(a, n, p);
      PowAdd(a, n, 1);
      assert Pow(a, 1) == a * Pow(a, 0);
      Fermat(p, a);
      ModMul(Pow(a, n), Pow(a, p), p);
      ModMul(Pow(a, n), a, p);
    }
  }
}

/** RSA key derivation, modular exponentiation and byte encryption (src/rsa.cpp). */
module Rsa {
  import opened Bytes
  import opened Wrappers
  import opened NumberTheory

  const TWO_64 := 0x1_0000_0000_0000_0000
  const MAX_INT64 := 0x7FFF_FFFF_FFFF_FFFF
  const PUBLIC_EXPONENT := 257

  datatype Key = Key(modulus: nat, exponent: nat)
  datatype KeyPair = KeyPair(pub: Key, priv: Key)
  // ----- greatest common divisor and Bezout coefficients ------------------

  /** g has exactly the common divisors of a and b. */
  ghost predicate IsGcd(g: nat, a: nat, b: nat)
  {
    forall d :: d > 0 ==> (Divides(d, g) <==> Divides(d, a) && Divides(d, b))
  }

  lemma CommonDivisorsAfterRemainder(d: int, a: nat, b: nat)
    requires d > 0 && a > 0
    ensures (Divides(d, b % a) && Divides(d, a)) <==> (Divides(d, a) && Divides(d, b))
  {
    if Divides(d, a) {
      var k := (b / a) * (a / d);
      assert b == b % a + k * d by {
        assert b == (b / a) * a + b % a;
        assert (b / a) * ((a / d) * d) == ((b / a) * (a / d)) * d;
      }
      ModAddMultiple(b % a, k, d);
    }
  }

  method Gcd(a: nat, b: nat) returns (g: nat)
    ensures IsGcd(g, a, b)
  {
    var x, y := a, b;
    while x != 0
      invariant forall d :: d > 0 ==> (Divides(d, x) && Divides(d, y) <==> Divides(d, a) && Divides(d, b))
      decreases x
    {
      forall d | d > 0
        ensures Divides(d, y % x) && Divides(d, x) <==> Divides(d, a) && Divides(d, b)
      {
        CommonDivisorsAfterRemainder(d, x, y);
      }
      x, y := y % x, x;
    }
    forall d | d > 0
      ensures Divides(d, 0)
    {
      DivModUnique(0, 0, 0, d);
    }
    g := y;
  }

  lemma EuclidStep(A: int, B: int, a: int, g: int, x: int, y: int, u: int, v: int)
    requires a > 0
    requires x * A + y * B == g && u * A + v * B == a
    ensures (x - u * (g / a)) * A + (y - v * (g / a)) * B == g % a
  {
    var q := g / a;
    assert (x - u * q) * A + (y - v * q) * B == (x * A + y * B) - q * (u * A + v * B) by {
      assert (u * q) * A == q * (u * A);
      assert (v * q) * B == q * (v * B);
      assert (x - u * q) * A == x * A - (u * q) * A;
      assert (y - v * q) * B == y * B - (v * q) * B;
    }
    assert g == q * a + g % a;
  }

  lemma MagnitudeStepNat(a: nat, q: nat, r: nat, x: nat, u: nat, bound: nat)
    requires a > 0 && u * (q * a + r) + x * a == bound
    ensures u * q >= 0 && (x + u * q) * a + u * r == bound && x + u * q <= bound
  {
    var w := u * q;
    assert w >= 0 && u * r >= 0 by {
      MulMonotone(0, 0, u, q);
      MulMonotone(0, 0, u, r);
    }
    assert u * (q * a + r) == w * a + u * r by {
      assert u * (q * a) == w * a;
    }
    assert (x + w) * a == x * a + w * a;
    MulMonotone(x + w, 1, x + w, a);
  }

  /** With x and u of opposite sign, one step keeps |u| * g + |x| * a. */
  lemma MagnitudeStep(a: nat, g: nat, x: int, u: int, bound: nat)
    requires a > 0 && (x <= 0 <= u || u <= 0 <= x)
    requires Abs(u) * g + Abs(x) * a == bound
    ensures var m := x - u * (g / a);
            (u <= 0 <= m || m <= 0 <= u) && Abs(m) * a + Abs(u) * (g % a) == bound
            && Abs(m) <= bound && Abs(u * (g / a)) <= bound
  {
    var q := g / a;
    assert g == q * a + g % a;
    MagnitudeStepNat(a, q, g % a, Abs(x), Abs(u), bound);
    assert (-u) * q == -(u * q);
  }

  function Abs(x: int): nat
  {
    if x < 0 then -x else x
  }

  ghost predicate EuclidInvariant(a: nat, b: nat, w: nat, c: nat, p: int, y: int, u: int, v: int)
  {
    && p * a + y * b == c && u * a + v * b == w
    && Abs(u) * c + Abs(p) * w == b && (p <= 0 <= u || u <= 0 <= p)
    && Abs(v) * c + Abs(y) * w == a && (y <= 0 <= v || v <= 0 <= y)
  }

  lemma EuclidInvariantStep(a: nat, b: nat, w: nat, c: nat, p: int, y: int, u: int, v: int)
    requires w > 0 && EuclidInvariant(a, b, w, c, p, y, u, v)
    ensures var q := c / w;
            && EuclidInvariant(a, b, c % w, w, u, v, p - u * q, y - v * q)
            && Abs(p - u * q) <= b && Abs(y - v * q) <= a
            && Abs(u * q) <= b && Abs(v * q) <= a
  {
    EuclidStep(a, b, w, c, p, y, u, v);
    MagnitudeStep(w, c, p, u, b);
    MagnitudeStep(w, c, y, v, a);
  }

  /** The coefficient of b once the loop has run down from remainders c, w with b-coefficients y, v. */
  function ExtEuclidFrom(w: nat, c: nat, y: int, v: int): int
    decreases w
  {
    if w == 0 then y else ExtEuclidFrom(c % w, w, v, y - v * (c / w))
  }

  method ExtEuclid(a: nat, b: nat) returns (y: int)
    ensures y == ExtEuclidFrom(a, b, 1, 0)
  {
    var x, u, v, w, c := 0, 1, 0, a, b;
    y := 1;
    while w != 0
      invariant ExtEuclidFrom(w, c, y, v) == ExtEuclidFrom(a, b, 1, 0)
      decreases w
    {
      var q, r := c / w, c % w;
      var m, n := x - u * q, y - v * q;
      c, w, x, y, u, v := w, r, u, v, m, n;
    }
  }

  /** Every product and difference the loop forms from this state on fits a signed 64-bit integer. */
  ghost predicate StepsFit(w: nat, c: nat, x: int, y: int, u: int, v: int)
    decreases w
  {
    w == 0 ||
    var q := c / w;
    && Abs(u * q) <= MAX_INT64 && Abs(v * q) <= MAX_INT64
    && Abs(x - u * q) <= MAX_INT64 && Abs(y - v * q) <= MAX_INT64
    && StepsFit(c % w, w, u, v, x - u * q, y - v * q)
  }

  lemma {:induction false} BezoutFrom(a: nat, b: nat, w: nat, c: nat, p: int, y: int, u: int, v: int)
      returns (x: int, g: nat)
    requires a <= MAX_INT64 && b <= MAX_INT64
    requires EuclidInvariant(a, b, w, c, p, y, u, v)
    requires Abs(v) <= a && (a > 0 ==> Abs(y) <= a)
    ensures x * a + ExtEuclidFrom(w, c, y, v) * b == g
    ensures forall d :: d > 0 ==> (Divides(d, g) <==> Divides(d, w) && Divides(d, c))
    ensures a > 0 ==> Abs(ExtEuclidFrom(w, c, y, v)) <= a
    ensures StepsFit(w, c, p, y, u, v)
    decreases w
  {
    if w == 0 {
      x, g := p, c;
      forall d | d > 0
        ensures Divides(d, 0)
      {
        DivModUnique(0, 0, 0, d);
      }
    } else {
      var q := c / w;
      EuclidInvariantStep(a, b, w, c, p, y, u, v);
      x, g := BezoutFrom(a, b, c % w, w, u, v, p - u * q, y - v * q);
      forall d | d > 0
        ensures Divides(d, g) <==> Divides(d, w) && Divides(d, c)
      {
        CommonDivisorsAfterRemainder(d, w, c);
      }
    }
  }

  /** ExtEuclid returns the coefficient of b in Bezout's identity, no larger than a, without overflow. */
  lemma ExtEuclidBezout(a: nat, b: nat) returns (x: int, g: nat)
    requires a <= MAX_INT64 && b <= MAX_INT64
    ensures x * a + ExtEuclidFrom(a, b, 1, 0) * b == g && IsGcd(g, a, b)
    ensures a > 0 ==> Abs(ExtEuclidFrom(a, b, 1, 0)) <= a
    ensures StepsFit(a, b, 0, 1, 1, 0)
  {
    x, g := BezoutFrom(a, b, a, b, 0, 1, 1, 0);
  }

  // ----- modular exponentiation in 64-bit unsigned arithmetic -------------

  function ModExp(b: nat, e: nat, m: nat): (r: nat)
    requires 0 < m < TWO_64
    ensures r < TWO_64
    decreases e
  {
    var b' := b % m;
    if e == 0 then 1
    else if e == 1 then b'
    else if e % 2 == 0 then ModExp((b' * b' % TWO_64) % m, e / 2, m) % m
    else ((b' * ModExp(b', e - 1, m)) % TWO_64) % m
  }

  /** The modulus leaves no room for a product to wrap, or wrapping does not touch remainders. */
  predicate WrapIsIdle(m: nat)
    requires m > 0
  {
    m <= TWO_32 || TWO_64 % m == 0
  }

  lemma WrapHarmless(x: nat, y: nat, m: nat)
    requires x < m && y < m && WrapIsIdle(m)
    ensures (x * y) % TWO_64 % m == (x * y) % m
  {
    var z := x * y;
    if m <= TWO_32 {
      MulMonotone(x, y, TWO_32 - 1, TWO_32 - 1);
      ModSmall(z, TWO_64);
    } else {
      var q, k := z / TWO_64, TWO_64 / m;
      assert z == z % TWO_64 + (q * k) * m by {
        assert TWO_64 == k * m;
        assert q * (k * m) == (q * k) * m;
      }
      ModAddMultiple(z % TWO_64, q * k, m);
    }
  }

  lemma EvenPower(b: nat, e: nat, m: nat)
    requires m > 0 && e % 2 == 0
    ensures Pow((b % m) * (b % m) % m, e / 2) % m == Pow(b, e) % m
  {
    var x, h := b % m, e / 2;
    PowMod(x * x, h, m);
    assert Pow(x, 2) == x * Pow(x, 1) == x * (x * Pow(x, 0)) == x * x;
    PowMul(x, 2, h);
    PowMod(b, e, m);
  }

  lemma OddPower(b: nat, e: nat, m: nat)
    requires m > 0 && e > 0
    ensures ((b % m) * (Pow(b % m, e - 1) % m)) % m == Pow(b, e) % m
  {
    PowMod(b, e - 1, m);
    ModMul(b, Pow(b, e - 1), m);
  }

  lemma EvenStep(b: nat, e: nat, m: nat)
    requires 1 < m < TWO_64 && WrapIsIdle(m) && e >= 2 && e % 2 == 0
    requires var x := b % m; ModExp((x * x) % m, e / 2, m) == Pow((x * x) % m, e / 2) % m
    ensures ModExp(b, e, m) == Pow(b, e) % m
  {
    hide Pow, WrapIsIdle;
    WrapHarmless(b % m, b % m, m);
    EvenPower(b, e, m);
    ModSmall(Pow(b, e) % m, m);
  }

  lemma OddStep(b: nat, e: nat, m: nat)
    requires 1 < m < TWO_64 && WrapIsIdle(m) && e >= 2 && e % 2 == 1
    requires ModExp(b % m, e - 1, m) == Pow(b % m, e - 1) % m
    ensures ModExp(b, e, m) == Pow(b, e) % m
  {
    hide Pow, WrapIsIdle;
    WrapHarmless(b % m, Pow(b % m, e - 1) % m, m);
    OddPower(b, e, m);
  }

  /** With such a modulus the power is exact. */
  lemma {:induction false} ModExpExact(b: nat, e: nat, m: nat)
    requires 1 < m < TWO_64 && WrapIsIdle(m)
    ensures ModExp(b, e, m) == Pow(b, e) % m
    decreases e
  {
    var x := b % m;
    if e == 0 {
      ModSmall(1, m);
    } else if e == 1 {
      assert Pow(b, 1) == b * Pow(b, 0) == b;
    } else if e % 2 == 0 {
      hide *;
      ModExpExact((x * x) % m, e / 2, m);
      EvenStep(b, e, m);
    } else {
      hide *;
      ModExpExact(x, e - 1, m);
      OddStep(b, e, m);
    }
  }

  lemma ModSmall(x: nat, m: nat)
    requires x < m
    ensures x % m == x
  {
    DivModUnique(x, 0, x, m);
  }

  lemma {:induction false} ModExpOfZero(e: nat, m: nat)
    requires 1 < m < TWO_64
    ensures ModExp(0, e, m) == if e == 0 then 1 else 0
    decreases e
  {
    ModSmall(0, m);
    if e >= 2 {
      if e % 2 == 0 {
        ModExpOfZero(e / 2, m);
      }
    }
  }

  lemma SquaringStep(x: nat, square: nat, h: nat, m: nat)
    requires TWO_32 < m < TWO_64 && x <= 65536 && square == x * x && h > 0
    requires ModExp(square, h, m) == 0
    ensures ModExp(x, 2 * h, m) == 0
  {
    ModSmall(x, m);
    MulMonotone(x, x, 65536, 65536);
    ModSmall(square, TWO_64);
    ModSmall(square, m);
    ModSmall(0, m);
    assert (2 * h) / 2 == h && (2 * h) % 2 == 0;
  }

  /** Above 32 bits the sixth squaring of 2 wraps to zero, so the byte 2 encrypts to 0. */
  lemma ModExpOfTwoVanishes(m: nat)
    requires TWO_32 < m < TWO_64
    ensures ModExp(2, PUBLIC_EXPONENT, m) == 0
  {
    ModExpOfZero(4, m);
    ModSmall(0, m);
    ModSmall(2, m);
    assert ModExp(TWO_32, 8, m) == 0 by {
      ModSmall(TWO_32, m);
      assert TWO_32 * TWO_32 % TWO_64 == 0;
    }
    SquaringStep(65536, TWO_32, 8, m);
    SquaringStep(256, 65536, 16, m);
    SquaringStep(16, 256, 32, m);
    SquaringStep(4, 16, 64, m);
    SquaringStep(2, 4, 128, m);
  }

  // ----- key derivation ---------------------------------------------------

  function RaiseToPositive(d: int, phi: nat): (r: nat)
    requires phi > 0
    ensures Divides(phi, r - d)
    ensures 0 <= d + phi && d <= phi ==> r <= phi
    decreases if d < 0 then -d else 0
  {
    if d >= 0 then (ModSmall(0, phi); d)
    else
      var r := RaiseToPositive(d + phi, phi);
      ModAddMultiple(r - (d + phi), 1, phi);
      r
  }

  method MakePositive(d: int, phi: nat) returns (r: nat)
    requires phi > 0
    ensures r == RaiseToPositive(d, phi)
  {
    var x := d;
    while x < 0
      invariant RaiseToPositive(x, phi) == RaiseToPositive(d, phi)
      decreases -x
    {
      x := x + phi;
    }
    r := x;
  }

  /** The condition under which a draw of two table entries is kept. */
  ghost predicate Usable(p: nat, q: nat)
  {
    p != 0 && q != 0 && p != q && IsGcd(1, (p - 1) * (q - 1), PUBLIC_EXPONENT)
  }

  lemma PhiBounds(p: nat, q: nat)
    requires p >= 2 && q >= 2 && p != q
    ensures 2 <= (p - 1) * (q - 1) < p * q
  {
    var x, y := p - 1, q - 1;
    assert p * q == x * y + x + y + 1;
    assert (x - 1) * (y - 1) == x * y - x - y + 1;
    assert (x - 1) * (y - 1) >= 0;
  }

  lemma UsableFactors(p: nat, q: nat)
    requires Usable(p, q)
    ensures p >= 2 && q >= 2 && 2 <= (p - 1) * (q - 1) < p * q
  {
    if p == 1 || q == 1 {
      NotCoprimeToZero();
      assert false;
    }
    PhiBounds(p, q);
  }

  lemma NotCoprimeToZero()
    ensures !IsGcd(1, 0, PUBLIC_EXPONENT)
  {
    assert Divides(PUBLIC_EXPONENT, 0) && Divides(PUBLIC_EXPONENT, PUBLIC_EXPONENT);
    assert !Divides(PUBLIC_EXPONENT, 1);
  }

  function PrivateExponent(phi: nat): nat
    requires phi > 0
  {
    RaiseToPositive(ExtEuclidFrom(phi, PUBLIC_EXPONENT, 1, 0), phi)
  }

  function KeysFor(p: nat, q: nat): KeyPair
    requires p >= 2 && q >= 2 && (p - 1) * (q - 1) > 0
  {
    KeyPair(Key(p * q, PUBLIC_EXPONENT), Key(p * q, PrivateExponent((p - 1) * (q - 1))))
  }

  /** The outcome of one draw of two table entries. */
  ghost function DrawOutcome(p: nat, q: nat): Option<KeyPair>
  {
    if Usable(p, q) && p >= 2 && q >= 2 && (p - 1) * (q - 1) > 0 then Some(KeysFor(p, q)) else None
  }

  method TryDraw(p: nat, q: nat) returns (r: Option<KeyPair>)
    ensures r == DrawOutcome(p, q)
    ensures r.Some? <==> Usable(p, q)
  {
    r := None;
    if p != 0 && q != 0 && p != q {
      var phi := (p - 1) * (q - 1);
      var g := Gcd(phi, PUBLIC_EXPONENT);
      GcdUnique(g, phi, PUBLIC_EXPONENT);
      if g == 1 {
        UsableFactors(p, q);
        var d := ExtEuclid(phi, PUBLIC_EXPONENT);
        d := MakePositive(d, phi);
        r := Some(KeyPair(Key(p * q, PUBLIC_EXPONENT), Key(p * q, d)));
      }
    }
  }

  /** Draws until a pair of table entries is usable; the draws stand for the random choices. */
  method GenKeys(draws: seq<(nat, nat)>) returns (r: Option<KeyPair>)
    ensures r == None ==> forall i :: 0 <= i < |draws| ==> !Usable(draws[i].0, draws[i].1)
    ensures r.Some? ==> exists i ::
        && 0 <= i < |draws| && Usable(draws[i].0, draws[i].1)
        && (forall j :: 0 <= j < i ==> !Usable(draws[j].0, draws[j].1))
        && r == DrawOutcome(draws[i].0, draws[i].1)
  {
    for i := 0 to |draws|
      invariant forall j :: 0 <= j < i ==> !Usable(draws[j].0, draws[j].1)
    {
      r := TryDraw(draws[i].0, draws[i].1);
      if r.Some? {
        return;
      }
    }
    r := None;
  }

  lemma GcdUnique(g: nat, a: nat, b: nat)
    requires IsGcd(g, a, b)
    ensures g == 1 <==> IsGcd(1, a, b)
  {
    if IsGcd(1, a, b) {
      var d := if g == 0 then 2 else g;
      assert Divides(d, g) by { DividesFromWitness(d, g / d, g); }
      assert Divides(d, 1);
      if d > 1 {
        ModSmall(1, d);
      }
    }
  }

  lemma InverseFromBezout(phi: nat, e: nat, x: int, y: int, d: int, k: int)
    requires phi > 1 && x * phi + y * e == 1 && d == y + k * phi
    ensures (e * d) % phi == 1
  {
    assert e * d == e * y + e * (k * phi);
    assert e * (k * phi) == (e * k) * phi;
    MulSub(e * k, x, phi);
    assert e * y == y * e;
    ModAddMultiple(1, e * k - x, phi);
    ModSmall(1, phi);
  }

  /** The private exponent inverts the public one modulo phi and does not exceed phi. */
  lemma PrivateExponentInverts(phi: nat)
    requires 2 <= phi <= MAX_INT64 && IsGcd(1, phi, PUBLIC_EXPONENT)
    ensures 0 < PrivateExponent(phi) <= phi
    ensures (PUBLIC_EXPONENT * PrivateExponent(phi)) % phi == 1
  {
    var y, d := ExtEuclidFrom(phi, PUBLIC_EXPONENT, 1, 0), PrivateExponent(phi);
    var x, g := ExtEuclidBezout(phi, PUBLIC_EXPONENT);
    GcdUnique(g, phi, PUBLIC_EXPONENT);
    InverseFromBezout(phi, PUBLIC_EXPONENT, x, y, d, (d - y) / phi);
    ModSmall(0, phi);
  }

  // ----- encryption of byte strings ---------------------------------------

  function Encrypt(message: seq<Byte>, key: Key): (r: seq<nat>)
    requires 0 < key.modulus < TWO_64
    ensures |r| == |message|
  {
    seq(|message|, i requires 0 <= i < |message| => ModExp(message[i], key.exponent, key.modulus))
  }

  /** Each decrypted number is truncated to a byte. */
  function Decrypt(cipher: seq<nat>, key: Key): (r: seq<Byte>)
    requires 0 < key.modulus < TWO_64
    ensures |r| == |cipher|
  {
    seq(|cipher|, i requires 0 <= i < |cipher| => ModExp(cipher[i], key.exponent, key.modulus) % 256)
  }

  method RsaEncrypt(message: array<Byte>, key: Key) returns (encrypted: array<nat>)
    requires 0 < key.modulus < TWO_64
    ensures fresh(encrypted) && encrypted[..] == Encrypt(message[..], key)
  {
    encrypted := new nat[message.Length];
    for i := 0 to message.Length
      invariant encrypted[..i] == Encrypt(message[..], key)[..i]
    {
      encrypted[i] := ModExp(message[i], key.exponent, key.modulus);
      assert encrypted[..i + 1] == encrypted[..i] + [encrypted[i]];
    }
  }

  /** The size counts bytes, eight for every number; any other size is refused. */
  method RsaDecrypt(message: array<nat>, messageSize: nat, key: Key) returns (decrypted: array?<Byte>)
    requires 0 < key.modulus < TWO_64
    requires messageSize <= 8 * message.Length
    ensures decrypted == null <==> messageSize % 8 != 0
    ensures decrypted != null ==> decrypted[..] == Decrypt(message[..messageSize / 8], key)
  {
    if messageSize % 8 != 0 {
      return null;
    }
    var n := messageSize / 8;
    decrypted := new Byte[n];
    var temp := new Byte[messageSize];
    for i := 0 to n
      invariant temp[..i] == Decrypt(message[..n], key)[..i]
    {
      temp[i] := ModExp(message[i], key.exponent, key.modulus) % 256;
      assert temp[..i + 1] == temp[..i] + [temp[i]];
    }
    for i := 0 to n
      invariant decrypted[..i] == temp[..i] && temp[..n] == Decrypt(message[..n], key)
    {
      decrypted[i] := temp[i];
    }
  }

  // ----- the round trip ---------------------------------------------------

  lemma PowerReturnsModPrime(p: nat, x: nat, n: nat, k: nat)
    requires Prime(p) && n == k * (p - 1) + 1
    ensures Divides(p, Pow(x, n) - x)
  {
    FermatPeriod(p, x, k);
    CongruentIff(Pow(x, n), x, p);
  }

  lemma Regroup(k: nat, y: nat, z: nat)
    ensures k * (y * z) == (k * z) * y == (k * y) * z
  {
  }

  lemma CongruentModProduct(p: nat, q: nat, a: int, b: int)
    requires Prime(p) && Prime(q) && p != q
    requires Divides(p, a - b) && Divides(q, a - b)
    ensures p * q > 0 && a % (p * q) == b % (p * q)
  {
    MulMonotone(1, 1, p, q);
    PrimesDivideTogether(p, q, a - b);
    CongruentIff(a, b, p * q);
  }

  lemma PowerReturns(p: nat, q: nat, phi: nat, x: nat, n: nat, k: nat)
    requires Prime(p) && Prime(q) && p != q
    requires phi == (p - 1) * (q - 1) && n == k * phi + 1
    ensures p * q > 0 && Pow(x, n) % (p * q) == x % (p * q)
  {
    assert Divides(p, Pow(x, n) - x) by {
      Regroup(k, p - 1, q - 1);
      PowerReturnsModPrime(p, x, n, k * (q - 1));
    }
    assert Divides(q, Pow(x, n) - x) by {
      Regroup(k, p - 1, q - 1);
      PowerReturnsModPrime(q, x, n, k * (p - 1));
    }
    CongruentModProduct(p, q, Pow(x, n), x);
  }

  lemma EncryptThenDecrypt(m: nat, x: nat, e: nat, d: nat)
    requires 1 < m <= TWO_32
    ensures ModExp(ModExp(x, e, m), d, m) == Pow(x, e * d) % m
  {
    ModExpExact(x, e, m);
    ModExpExact(Pow(x, e) % m, d, m);
    PowMod(Pow(x, e), d, m);
    PowMul(x, e, d);
  }

  /** Below 33 bits every number comes back reduced by the modulus. */
  lemma NumberRoundTrip(p: nat, q: nat, m: nat, phi: nat, x: nat)
    requires Prime(p) && Prime(q) && Usable(p, q)
    requires 1 < m <= TWO_32 && m == p * q && phi == (p - 1) * (q - 1)
    ensures phi > 0 && ModExp(ModExp(x, PUBLIC_EXPONENT, m), PrivateExponent(phi), m) == x % m
  {
    assert 2 <= phi <= MAX_INT64 by { UsableFactors(p, q); }
    PrivateExponentInverts(phi);
    var n := PUBLIC_EXPONENT * PrivateExponent(phi);
    assert Pow(x, n) % m == x % m by {
      var k := n / phi;
      assert n == k * phi + 1;
      PowerReturns(p, q, phi, x, n, k);
    }
    EncryptThenDecrypt(m, x, PUBLIC_EXPONENT, PrivateExponent(phi));
  }

  ghost predicate EveryMessageReturns(keys: KeyPair)
    requires 0 < keys.pub.modulus < TWO_64 && 0 < keys.priv.modulus < TWO_64
  {
    forall message: seq<Byte> :: Decrypt(Encrypt(message, keys.pub), keys.priv) == message
  }

  /** With keys generated from two primes, decryption undoes encryption on every byte string
      exactly when the modulus exceeds 255 and fits 32 bits. */
  lemma RoundTripExactly(p: nat, q: nat)
    requires Prime(p) && Prime(q) && Usable(p, q) && p * q <= MAX_INT64
    ensures p >= 2 && q >= 2 && (p - 1) * (q - 1) > 0 && p * q > 0
    ensures EveryMessageReturns(KeysFor(p, q)) <==> 255 < p * q <= TWO_32
  {
    UsableFactors(p, q);
    var k, m, phi := KeysFor(p, q), p * q, (p - 1) * (q - 1);
    PrivateExponentInverts(phi);
    if m > TWO_32 {
      ModExpOfTwoVanishes(m);
      ModExpOfZero(PrivateExponent(phi), m);
      assert Decrypt(Encrypt([2], k.pub), k.priv)[0] == 0;
      assert Decrypt(Encrypt([2], k.pub), k.priv) != [2];
    } else if m <= 255 {
      NumberRoundTrip(p, q, m, phi, m);
      DivModUnique(m, 1, 0, m);
      assert Decrypt(Encrypt([m], k.pub), k.priv)[0] == 0;
      assert Decrypt(Encrypt([m], k.pub), k.priv) != [m];
    } else {
      forall message: seq<Byte>
        ensures Decrypt(Encrypt(message, k.pub), k.priv) == message
      {
        MessageReturns(p, q, m, phi, message);
      }
    }
  }

  lemma MessageReturns(p: nat, q: nat, m: nat, phi: nat, message: seq<Byte>)
    requires Prime(p) && Prime(q) && Usable(p, q)
    requires 255 < m <= TWO_32 && m == p * q && phi == (p - 1) * (q - 1) && phi > 0
    ensures Decrypt(Encrypt(message, Key(m, PUBLIC_EXPONENT)), Key(m, PrivateExponent(phi))) == message
  {
    var decrypted := Decrypt(Encrypt(message, Key(m, PUBLIC_EXPONENT)), Key(m, PrivateExponent(phi)));
    forall i | 0 <= i < |message|
      ensures decrypted[i] == message[i]
    {
      NumberRoundTrip(p, q, m, phi, message[i]);
      ModSmall(message[i], m);
      ModSmall(message[i], 256);
    }
  }

  /** For which moduli modular exponentiation is exact, whatever base and exponent. */
  lemma ModExpExactExactly(m: nat)
    requires 0 < m < TWO_64
    ensures (forall b: nat, e: nat :: ModExp(b, e, m) == Pow(b, e) % m) <==> m > 1 && WrapIsIdle(m)
  {
    if m == 1 {
      assert ModExp(0, 0, m) != Pow(0, 0) % m;
    } else if WrapIsIdle(m) {
      forall b: nat, e: nat
        ensures ModExp(b, e, m) == Pow(b, e) % m
      {
        ModExpExact(b, e, m);
      }
    } else {
      ModSmall(TWO_32, m);
      assert Pow(TWO_32, 2) == TWO_32 * Pow(TWO_32, 1) == TWO_32 * (TWO_32 * Pow(TWO_32, 0)) == TWO_64;
      ModSmall(0, m);
      assert ModExp(TWO_32, 2, m) == 0;
    }
  }
}

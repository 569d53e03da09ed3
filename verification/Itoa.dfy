/** Integer printing by table lookup of digit pairs (utils/rapidjson/internal/itoa.h). */
module Itoa {
  import opened NumberTheory

  const KTEN8 := 1_0000_0000
  const KTEN16 := KTEN8 * KTEN8

  function Digit(d: nat): char
    requires d < 10
  {
    (d + '0' as int) as char
  }

  /** The shortest decimal numeral of n. */
  function Decimal(n: nat): (s: string)
    ensures s != ""
  {
    if n < 10 then [Digit(n)] else Decimal(n / 10) + [Digit(n % 10)]
  }

  /** The numeral of n cut or zero-filled to its last k digits. */
  function Padded(n: nat, k: nat): (s: string)
    ensures |s| == k
    decreases k
  {
    if k == 0 then "" else Padded(n / 10, k - 1) + [Digit(n % 10)]
  }

  function Pow10(k: nat): (p: nat)
    ensures p > 0
  {
    PowPositive(10, k);
    Pow(10, k)
  }

  /** The character at an index of the two-digit table "00", "01", ..., "99". */
  function Lut(i: nat): char
    requires i < 200
  {
    if i % 2 == 0 then Digit(i / 20) else Digit(i / 2 % 10)
  }

  lemma DropLastDigit(high: nat, low: nat, k: nat)
    requires k > 0
    ensures var n := high * Pow10(k) + low;
            n / 10 == high * Pow10(k - 1) + low / 10 && n % 10 == low % 10
  {
    var p := Pow10(k - 1);
    assert high * (10 * p) == 10 * (high * p);
  }

  /** Splitting a number into a high part and its last k digits splits its numeral. */
  lemma {:induction false} DecimalSplit(high: nat, low: nat, k: nat)
    requires high > 0 && low < Pow10(k)
    ensures Decimal(high * Pow10(k) + low) == Decimal(high) + Padded(low, k)
    decreases k
  {
    if k > 0 {
      var n := high * Pow10(k) + low;
      DropLastDigit(high, low, k);
      assert n >= 10 by { assert high * Pow10(k - 1) >= 1; }
      DecimalSplit(high, low / 10, k - 1);
      assert Decimal(high) + Padded(low, k) == (Decimal(high) + Padded(low / 10, k - 1)) + [Digit(low % 10)];
    }
  }

  lemma {:induction false} PaddedSplit(high: nat, low: nat, j: nat, k: nat)
    requires low < Pow10(k)
    ensures Padded(high * Pow10(k) + low, j + k) == Padded(high, j) + Padded(low, k)
    decreases k
  {
    if k > 0 {
      DropLastDigit(high, low, k);
      PaddedSplit(high, low / 10, j, k - 1);
      assert Padded(high, j) + Padded(low, k) == (Padded(high, j) + Padded(low / 10, k - 1)) + [Digit(low % 10)];
    } else {
      assert Padded(high, j) + Padded(low, 0) == Padded(high, j);
    }
  }

  /** A number of exactly k digits needs no filling. */
  lemma {:induction false} PaddedFull(n: nat, k: nat)
    requires k > 0 && n < Pow10(k) && (k > 1 ==> n >= Pow10(k - 1))
    ensures Padded(n, k) == Decimal(n)
    decreases k
  {
    if k == 1 {
      assert Padded(n, 1) == Padded(n / 10, 0) + [Digit(n % 10)] == [Digit(n)];
    } else {
      PaddedFull(n / 10, k - 1);
    }
  }

  lemma Powers()
    ensures Pow10(1) == 10 && Pow10(2) == 100 && Pow10(3) == 1000 && Pow10(4) == 10000
    ensures Pow10(5) == 100000 && Pow10(6) == 1000000 && Pow10(7) == 10000000 && Pow10(8) == KTEN8
  {
    assert Pow10(4) == 10 * Pow10(3) == 10 * (10 * Pow10(2)) == 10 * (10 * (10 * Pow10(1)));
    assert Pow10(8) == 10 * Pow10(7) == 10 * (10 * Pow10(6)) == 10 * (10 * (10 * Pow10(5)));
  }

  /** Two table lookups print two digits. */
  lemma PairAt(n: nat)
    requires n < 100
    ensures [Lut(2 * n), Lut(2 * n + 1)] == Padded(n, 2)
  {
    assert Padded(n, 2) == Padded(n / 10, 1) + [Digit(n % 10)];
    assert Padded(n / 10, 1) == Padded(n / 10 / 10, 0) + [Digit(n / 10 % 10)];
    assert 2 * n / 20 == n / 10 && (2 * n + 1) / 2 == n;
  }

  /** Four table lookups print four digits. */
  lemma QuadAt(n: nat)
    requires n < 10000
    ensures var d1, d2 := n / 100 * 2, n % 100 * 2;
            [Lut(d1), Lut(d1 + 1), Lut(d2), Lut(d2 + 1)] == Padded(n, 4)
  {
    Powers();
    PairAt(n / 100);
    PairAt(n % 100);
    PaddedSplit(n / 100, n % 100, 2, 2);
    assert n / 100 * Pow10(2) + n % 100 == n;
    assert [Lut(n / 100 * 2), Lut(n / 100 * 2 + 1), Lut(n % 100 * 2), Lut(n % 100 * 2 + 1)]
        == [Lut(n / 100 * 2), Lut(n / 100 * 2 + 1)] + [Lut(n % 100 * 2), Lut(n % 100 * 2 + 1)];
  }

  function Quad(n: nat): string
    requires n < 10000
  {
    var d1, d2 := n / 100 * 2, n % 100 * 2;
    [Lut(d1), Lut(d1 + 1), Lut(d2), Lut(d2 + 1)]
  }

  lemma ShortIsSuffix(value: nat)
    requires value < 10000
    ensures Decimal(value)
         == Padded(value, 4)[(if value >= 1000 then 0 else if value >= 100 then 1 else if value >= 10 then 2 else 3)..]
  {
    Powers();
    var k := if value >= 1000 then 4 else if value >= 100 then 3 else if value >= 10 then 2 else 1;
    PaddedFull(value, k);
    PaddedSplit(0, value, 4 - k, k);
    assert Padded(value, 4)[4 - k..] == Padded(value, k);
  }

  /** The first group of digits, without leading zeros. The tests look at the whole value,
      of which the group is what remains above unit. */
  method PutGroup(group: nat, value: nat, unit: nat, os: string) returns (r: string)
    requires unit > 0 && group == value / unit && group < 10000
    ensures r == os + Decimal(group)
  {
    hide Decimal, Padded;
    var d1, d2 := group / 100 * 2, group % 100 * 2;
    r := os;
    if value >= 1000 * unit {
      r := r + [Lut(d1)];
    }
    if value >= 100 * unit {
      r := r + [Lut(d1 + 1)];
    }
    if value >= 10 * unit {
      r := r + [Lut(d2)];
    }
    r := r + [Lut(d2 + 1)];
    ThresholdOfGroup(group, value, unit);
    QuadAt(group);
    ShortIsSuffix(group);
    var skipped := if group >= 1000 then 0 else if group >= 100 then 1 else if group >= 10 then 2 else 3;
    assert r == os + Quad(group)[skipped..];
  }

  lemma ThresholdOfGroup(group: nat, value: nat, unit: nat)
    requires unit > 0 && group == value / unit
    ensures value >= 1000 * unit <==> group >= 1000
    ensures value >= 100 * unit <==> group >= 100
    ensures value >= 10 * unit <==> group >= 10
  {
    Threshold(group, value, unit, 1000);
    Threshold(group, value, unit, 100);
    Threshold(group, value, unit, 10);
  }

  lemma Threshold(group: nat, value: nat, unit: nat, t: nat)
    requires unit > 0 && group == value / unit
    ensures value >= t * unit <==> group >= t
  {
    assert value == group * unit + value % unit;
    if group >= t {
      assert (group - t) * unit >= 0;
      assert (group - t) * unit == group * unit - t * unit;
    } else {
      assert (t - 1 - group) * unit >= 0;
      assert (t - 1 - group) * unit == t * unit - unit - group * unit;
    }
  }

  /** Eight digits as two groups of four. */
  lemma EightAt(n: nat)
    requires n < KTEN8
    ensures Padded(n, 8) == Quad(n / 10000) + Quad(n % 10000)
  {
    hide Lut, Digit, Decimal;
    Powers();
    QuadAt(n / 10000);
    QuadAt(n % 10000);
    PaddedSplit(n / 10000, n % 10000, 4, 4);
    assert n / 10000 * 10000 + n % 10000 == n;
  }

  /** A number below 10^8 splits into its first group and four more digits. */
  lemma DecimalOfGroups(n: nat)
    requires 10000 <= n < KTEN8
    ensures Decimal(n) == Decimal(n / 10000) + Quad(n % 10000)
  {
    hide Lut, Digit;
    Powers();
    QuadAt(n % 10000);
    DecimalSplit(n / 10000, n % 10000, 4);
    assert n / 10000 * 10000 + n % 10000 == n;
  }

  lemma DecimalAboveEight(high: nat, low: nat)
    requires high > 0 && low < KTEN8
    ensures Decimal(high * KTEN8 + low) == Decimal(high) + Quad(low / 10000) + Quad(low % 10000)
  {
    hide Lut, Digit, Quad, Padded, Pow10;
    Powers();
    EightAt(low);
    DecimalSplit(high, low, 8);
    assert Decimal(high) + (Quad(low / 10000) + Quad(low % 10000))
        == Decimal(high) + Quad(low / 10000) + Quad(low % 10000);
  }

  method U32toa(number: nat, buffer: string) returns (r: string)
    requires number < 0x1_0000_0000
    ensures r == buffer + Decimal(number)
  {
    hide Decimal, Quad, Padded, Pow10, Lut;
    var value := number;
    if value < 10000 {
      r := PutGroup(value, value, 1, buffer);
    } else if value < KTEN8 {
      var b, c := value / 10000, value % 10000;
      r := PutGroup(b, value, 10000, buffer);
      r := r + Quad(c);
      DecimalOfGroups(value);
    } else {
      var a := value / KTEN8;
      value := value % KTEN8;
      if a >= 10 {
        var i := 2 * a;
        r := buffer + [Lut(i), Lut(i + 1)];
        TwoDigits(a);
      } else {
        r := buffer + [Digit(a)];
        OneDigit(a);
      }
      assert r == buffer + Decimal(a);
      var b, c := value / 10000, value % 10000;
      r := r + Quad(b);
      r := r + Quad(c);
      DecimalAboveEight(a, value);
    }
  }

  lemma TwoDigits(a: nat)
    requires 10 <= a < 100
    ensures [Lut(2 * a), Lut(2 * a + 1)] == Decimal(a)
  {
    Powers();
    PairAt(a);
    PaddedFull(a, 2);
  }

  method I32toa(value: int, buffer: string) returns (r: string)
    requires -0x8000_0000 <= value < 0x8000_0000
    ensures r == buffer + Integer(value)
  {
    r := buffer;
    if value < 0 {
      r := r + "-";
      r := U32toa(-value, r);
    } else {
      r := U32toa(value, r);
    }
  }

  function Integer(n: int): string
  {
    if n < 0 then "-" + Decimal(-n) else Decimal(n)
  }

  /** The leading one to four digits of a number of more than sixteen. */
  method PutHead(a: nat, buffer: string) returns (r: string)
    requires 0 < a < 10000
    ensures r == buffer + Decimal(a)
  {
    hide Decimal, Padded, Pow10, Lut, Digit;
    if a < 10 {
      r := buffer + [Digit(a)];
      OneDigit(a);
    } else if a < 100 {
      var i := a * 2;
      r := buffer + [Lut(i), Lut(i + 1)];
      TwoDigits(a);
    } else if a < 1000 {
      var i := a % 100 * 2;
      r := buffer + [Digit(a / 100)] + [Lut(i), Lut(i + 1)];
      ThreeDigits(a);
    } else {
      var i, j := a / 100 * 2, a % 100 * 2;
      r := buffer + [Lut(i), Lut(i + 1)] + [Lut(j), Lut(j + 1)];
      FourDigits(a);
    }
  }

  lemma OneDigit(a: nat)
    requires a < 10
    ensures Decimal(a) == [Digit(a)]
  {
  }

  lemma ThreeDigits(a: nat)
    requires 100 <= a < 1000
    ensures [Digit(a / 100)] + [Lut(a % 100 * 2), Lut(a % 100 * 2 + 1)] == Decimal(a)
  {
    hide Lut;
    Powers();
    PairAt(a % 100);
    DecimalSplit(a / 100, a % 100, 2);
    assert a / 100 * 100 + a % 100 == a;
  }

  lemma FourDigits(a: nat)
    requires 1000 <= a < 10000
    ensures [Lut(a / 100 * 2), Lut(a / 100 * 2 + 1)] + [Lut(a % 100 * 2), Lut(a % 100 * 2 + 1)] == Decimal(a)
  {
    hide Lut;
    Powers();
    QuadAt(a);
    PaddedFull(a, 4);
  }

  method U64toa(number: nat, buffer: string) returns (r: string)
    requires number < 0x1_0000_0000_0000_0000
    ensures r == buffer + Decimal(number)
  {
    hide Decimal, Quad, Padded, Pow10, Lut;
    var value := number;
    if value < KTEN8 {
      if value < 10000 {
        r := PutGroup(value, value, 1, buffer);
      } else {
        var b, c := value / 10000, value % 10000;
        r := PutGroup(b, value, 10000, buffer);
        r := r + Quad(c);
        DecimalOfGroups(value);
      }
    } else if value < KTEN16 {
      var v0, v1 := value / KTEN8, value % KTEN8;
      r := PutUpToEight(v0, value, buffer);
      r := r + Quad(v1 / 10000);
      r := r + Quad(v1 % 10000);
      DecimalAboveEight(v0, v1);
    } else {
      var a := value / KTEN16;
      value := value % KTEN16;
      r := PutHead(a, buffer);
      var v0, v1 := value / KTEN8, value % KTEN8;
      r := r + Quad(v0 / 10000);
      r := r + Quad(v0 % 10000);
      r := r + Quad(v1 / 10000);
      r := r + Quad(v1 % 10000);
      DecimalAboveEight(a, v0);
      DecimalAboveEight(a * KTEN8 + v0, v1);
    }
  }

  /** The first eight digits of a number of nine to sixteen, without leading zeros. Below
      10^12 every test on the first four of them fails. */
  method PutUpToEight(v0: nat, value: nat, buffer: string) returns (r: string)
    requires KTEN8 <= value < KTEN16 && v0 == value / KTEN8
    ensures r == buffer + Decimal(v0)
  {
    hide Decimal, Quad, Padded, Pow10, Lut;
    var b0, c0 := v0 / 10000, v0 % 10000;
    if value >= KTEN8 * 10000 {
      r := PutGroup(b0, value, KTEN8 * 10000, buffer);
      r := r + Quad(c0);
      DecimalOfGroups(v0);
    } else {
      r := PutGroup(c0, value, KTEN8, buffer);
    }
  }

  method I64toa(value: int, buffer: string) returns (r: string)
    requires -0x8000_0000_0000_0000 <= value < 0x8000_0000_0000_0000
    ensures r == buffer + Integer(value)
  {
    r := buffer;
    if value < 0 {
      r := r + "-";
      r := U64toa(-value, r);
    } else {
      r := U64toa(value, r);
    }
  }
}

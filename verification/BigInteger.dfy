/** Numbers of up to 416 limbs, changed in place (utils/rapidjson/internal/biginteger.h).
    The limb functions say what each loop leaves in the array; the contracts say what
    number that is. */
module BigInteger {
  import opened NumberTheory
  import opened Limbs
  import opened JsonText
  import opened JsonScalars
  import Itoa

  const CAPACITY := 416

  /** Every exponent stays symbolic, so that no power is ever unfolded limb by limb. */
  ghost predicate FitsIn(n: int, limbs: nat) {
    n < Pow(BASE, limbs)
  }

  class BigInteger {
    const digits: array<Limb>
    var count: nat

    ghost predicate Valid()
      reads this, digits
    {
      digits.Length == CAPACITY && 1 <= count <= CAPACITY && Normal(digits[..count])
    }

    ghost function Number(): nat
      reads this, digits
      requires count <= digits.Length
    {
      Value(digits[..count])
    }

    constructor FromUint64(u: Limb)
      ensures Valid() && fresh(digits) && Number() == u
    {
      digits := new Limb[CAPACITY];
      count := 1;
      new;
      digits[0] := u;
      assert digits[..1] == [u];
      ValueOne(u);
    }

    /** Any string of digits that leaves the array room when the last chunk is made way for,
        taken 19 digits at a time. */
    constructor FromDecimals(decimals: string)
      requires decimals != "" && AllDigits(decimals) && LastChunkFits(decimals)
      ensures Valid() && fresh(digits) && Number() == Fold(0, decimals)
    {
      digits := new Limb[CAPACITY];
      count := 1;
      new;
      hide Normal, Value, Pow, Fold, FitsIn;
      digits[0] := 0;
      assert digits[..1] == [0];
      ValueOne(0);
      NormalOne(0);
      var i, length := 0, |decimals|;
      FoldEmpty(0);
      assert decimals[..0] == "";
      while length >= 19
        invariant 0 <= i && 0 <= length && i + length == |decimals|
        invariant i % 19 == 0
        invariant Valid() && Number() == Fold(0, decimals[..i])
      {
        EachChunkFits(decimals, i);
        FoldConcat(0, decimals[..i], decimals[i..i + 19]);
        assert decimals[..i] + decimals[i..i + 19] == decimals[..i + 19];
        AppendDecimal64(decimals[i..i + 19]);
        length := length - 19;
        i := i + 19;
      }
      if length > 0 {
        EachChunkFits(decimals, i);
        FoldConcat(0, decimals[..i], decimals[i..]);
        assert decimals[..i] + decimals[i..] == decimals;
        AppendDecimal64(decimals[i..]);
      } else {
        assert decimals[..i] == decimals;
      }
    }

    method Assign(u: Limb)
      requires Valid()
      modifies this`count, digits
      ensures Valid() && Number() == u
    {
      digits[0] := u;
      count := 1;
      assert digits[..1] == [u];
      ValueOne(u);
      NormalOne(u);
    }

    method PushBack(digit: Limb)
      requires digits.Length == CAPACITY && count < CAPACITY
      modifies this`count, digits
      ensures count == old(count) + 1 && digits[..count] == old(digits[..count]) + [digit]
    {
      digits[count] := digit;
      count := count + 1;
      assert digits[..count] == digits[..count - 1] + [digit];
    }

    predicate IsZero()
      reads this, digits
      requires digits.Length == CAPACITY
    {
      count == 1 && digits[0] == 0
    }

    predicate IsOne()
      reads this, digits
      requires digits.Length == CAPACITY
    {
      count == 1 && digits[0] == 1
    }

    // ----- addition -------------------------------------------------------

    /** Adds u to the lowest limb and carries as far as limbs wrap. */
    method AddLimb(u: Limb)
      requires Valid() && |AddLimbs(digits[..count], u)| <= CAPACITY
      modifies this`count, digits
      ensures 1 <= count <= CAPACITY && digits[..count] == AddLimbs(old(digits[..count]), u)
    {
      hide AddLimbs, Normal, Wrap, Carrying;
      ghost var s, n := digits[..count], count;
      var backup := digits[0];
      digits[0] := Wrap(digits[0] as int + u);
      ghost var carry: Limb := u;
      var i := 0;
      assert digits[..n] == s[0 := Wrap(s[0] + u)];
      CarryStarts(s, u);
      while i < count - 1
        invariant 0 <= i < n && count == n == |s|
        invariant backup == s[i] && Carrying(s, digits[..n], i, carry, u)
      {
        if digits[i] >= backup {
          CarryEnds(s, digits[..n], i, carry, u);
          return;
        }
        ghost var t := digits[..n];
        CarryGoesOn(s, t, i, carry, u);
        backup := digits[i + 1];
        assert t[i + 1] == backup;
        digits[i + 1] := Wrap(backup as int + 1);
        assert digits[..n] == t[i + 1 := Wrap(s[i + 1] as int + 1)];
        carry := 1;
        i := i + 1;
      }
      CarryEnds(s, digits[..n], i, carry, u);
      if digits[count - 1] < backup {
        PushBack(1);
      }
    }

    method Add(u: Limb)
      requires Valid() && FitsIn(Number() + u, digits.Length)
      modifies this`count, digits
      ensures Valid() && Number() == old(Number()) + u
    {
      hide AddLimbs, Normal, Pow, Value;
      AddNormal(digits[..count], u);
      AddValue(digits[..count], u);
      CountBound(AddLimbs(digits[..count], u), digits.Length);
      AddLimb(u);
    }

    // ----- multiplication -------------------------------------------------

    method MultiplyLimbs(u: Limb)
      requires digits.Length == CAPACITY && count <= CAPACITY && |MulLimbs(digits[..count], u, 0)| <= CAPACITY
      modifies this`count, digits
      ensures count <= CAPACITY && digits[..count] == MulLimbs(old(digits[..count]), u, 0)
    {
      hide MulLimbs;
      ghost var s, n := digits[..count], count;
      var k: Limb := 0;
      assert s[0..] == s;
      for i := 0 to count
        invariant count == n == |s|
        invariant digits[i..n] == s[i..]
        invariant digits[..i] + MulLimbs(s[i..], u, k) == MulLimbs(s, u, 0)
      {
        MulStep(s, i, u, k);
        assert digits[i] == s[i];
        var low, high := MulAdd64(digits[i], u, k);
        DivModUnique(s[i] * u + k, high, low, BASE);
        ghost var done := digits[..i];
        digits[i] := low;
        k := high;
        assert digits[..i + 1] == done + [low];
      }
      assert s[n..] == [];
      MulOfNothing(u, k);
      if k > 0 {
        PushBack(k);
      } else {
        assert digits[..n] + [] == digits[..n];
      }
    }

    /** The same limbs when the factor has 32 bits, with half the products. */
    method MultiplyLimbs32(u: Limb)
      requires digits.Length == CAPACITY && count <= CAPACITY && |MulLimbs(digits[..count], u, 0)| <= CAPACITY
      requires u < TWO_32
      modifies this`count, digits
      ensures count <= CAPACITY && digits[..count] == MulLimbs(old(digits[..count]), u, 0)
    {
      hide MulLimbs;
      ghost var s, n := digits[..count], count;
      var k: Limb := 0;
      assert s[0..] == s;
      for i := 0 to count
        invariant count == n == |s| && k < TWO_32
        invariant digits[i..n] == s[i..]
        invariant digits[..i] + MulLimbs(s[i..], u, k) == MulLimbs(s, u, 0)
      {
        MulStep(s, i, u, k);
        assert digits[i] == s[i];
        var low, high := MulAdd32(digits[i], u, k);
        DivModUnique(s[i] * u + k, high, low, BASE);
        ghost var done := digits[..i];
        digits[i] := low;
        k := high;
        assert digits[..i + 1] == done + [low];
      }
      assert s[n..] == [];
      MulOfNothing(u, k);
      if k > 0 {
        PushBack(k);
      } else {
        assert digits[..n] + [] == digits[..n];
      }
    }

    method Multiply(u: Limb)
      requires Valid() && FitsIn(Number() * u, digits.Length)
      modifies this`count, digits
      ensures Valid() && Number() == old(Number()) * u
    {
      hide Normal, Value, MulLimbs, Pow;
      ghost var s := digits[..count];
      if u == 0 {
        Assign(0);
      } else if u == 1 {
      } else if IsOne() {
        ValueOne(1);
        assert s == [1];
        Assign(u);
      } else {
        ProductLimbs(s, u, digits.Length);
        MultiplyLimbs(u);
      }
    }

    method Multiply32(u: Limb)
      requires u < TWO_32
      requires Valid() && FitsIn(Number() * u, digits.Length)
      modifies this`count, digits
      ensures Valid() && Number() == old(Number()) * u
    {
      hide Normal, Value, MulLimbs, Pow;
      ghost var s := digits[..count];
      if u == 0 {
        Assign(0);
      } else if u == 1 {
      } else if IsOne() {
        ValueOne(1);
        assert s == [1];
        Assign(u);
      } else {
        ProductLimbs(s, u, digits.Length);
        MultiplyLimbs32(u);
      }
    }

    /** Multiplies by 5^27 and 5^13 while they go, then by what is left. */
    method MultiplyPow5(exp: nat)
      requires Valid() && FitsIn(Number() * Pow(5, exp), digits.Length)
      modifies this`count, digits
      ensures Valid() && Number() == old(Number()) * Pow(5, exp)
    {
      hide Normal, Value, Pow, FitsIn;
      PowZero(5);
      ghost var n := Number();
      if exp == 0 {
        return;
      }
      var e := exp;
      while e >= 27
        invariant 0 <= e <= exp
        invariant Valid() && Number() * Pow(5, e) == n * Pow(5, exp)
      {
        PowersOfFive();
        TakePower(Number(), 27, e, digits.Length);
        Multiply(0x6765C793_FA10079D);
        e := e - 27;
      }
      while e >= 13
        invariant 0 <= e <= exp
        invariant Valid() && Number() * Pow(5, e) == n * Pow(5, exp)
      {
        PowersOfFive();
        TakePower(Number(), 13, e, digits.Length);
        Multiply32(1220703125);
        e := e - 13;
      }
      if e > 0 {
        TableOfFives(e);
        TakePower(Number(), e, e, digits.Length);
        Multiply32(POWERS_OF_FIVE[e - 1]);
      }
    }

    // ----- shift ----------------------------------------------------------

    /** Moves the limbs up by offset places, the ranges may overlap. */
    method MoveUp(offset: nat) returns (ghost written: set<nat>)
      requires digits.Length == CAPACITY && count + offset <= CAPACITY
      modifies this`count, digits
      ensures written == Range(offset, old(count) + offset)
      ensures count == old(count) + offset && digits[offset..count] == old(digits[..count])
    {
      ghost var s := digits[..count];
      forall j | 0 <= j < count {
        digits[j + offset] := digits[j];
      }
      assert digits[offset..count + offset] == s;
      count := count + offset;
      written := Range(offset, count);
    }

    /** Shifts by inter bits and offset limbs at once, from the top limb down. */
    method ShiftUp(offset: nat, inter: nat) returns (ghost written: set<nat>)
      requires Valid() && count + offset < CAPACITY && 0 < inter < 64
      modifies this`count, digits
      ensures written == {old(count)} + Range(offset, old(count) + offset + 1)
      ensures Pow(2, inter) > 0 && Pow(2, 64 - inter) > 0 && Pow(2, inter) * Pow(2, 64 - inter) == BASE
      ensures var t := ShiftLimbs(old(digits[..count]), Pow(2, inter), Pow(2, 64 - inter), 0);
              var n := old(count);
              && count == n + offset + (if t[n] != 0 then 1 else 0)
              && digits[offset..count] == if t[n] != 0 then t else t[..n]
    {
      hide ShiftLimbs, Normal, Pow, Range;
      var p, q := Pow(2, inter), Pow(2, 64 - inter);
      HalvesOfBase(inter);
      PowPositive(2, inter);
      PowPositive(2, 64 - inter);
      ghost var s, n := digits[..count], count;
      ghost var t := ShiftLimbs(s, p, q, 0);
      digits[count] := 0;
      written := {count};
      RangeOfNone(written, n + offset + 1);
      var i := count;
      while i > 0
        invariant 0 <= i <= n == count
        invariant written == {n} + Range(i + offset + 1, n + offset + 1)
        invariant forall j :: 0 <= j <= i && j < n ==> digits[j] == s[j]
        invariant i == n ==> digits[n] == 0
        invariant forall j :: i < j <= n ==> digits[j + offset] == t[j]
      {
        ShiftLimbAt(s, p, q, 0, i);
        ShiftedTop(digits[i], p, i == n);
        var limb := digits[i] * p % BASE + digits[i - 1] / q;
        digits[i + offset] := limb;
        written := written + {i + offset};
        RangeExtends({n}, i + offset, n + offset + 1);
        i := i - 1;
      }
      ShiftLimbAt(s, p, q, 0, 0);
      digits[offset] := digits[0] * p % BASE;
      written := written + {offset};
      RangeExtends({n}, offset, n + offset + 1);
      count := count + offset;
      assert forall j :: 0 <= j <= n ==> digits[j + offset] == t[j];
      assert digits[offset..offset + n] == t[..n];
      if digits[count] != 0 {
        count := count + 1;
        assert digits[offset..count] == t;
      }
    }

    method ShiftLeft(shift: nat) returns (ghost written: set<nat>)
      requires Valid()
      requires Number() > 0 ==> count + shift / 64 + (if shift % 64 == 0 then 0 else 1) <= CAPACITY
      modifies this`count, digits
      ensures written == if old(Number()) == 0 then {} else WrittenByShift(old(count), shift)
      ensures Valid() && Number() == old(Number()) * Pow(2, shift)
    {
      hide Normal, Value, Pow, ShiftLimbs;
      PowZero(2);
      ZeroWhenZero(digits[..count]);
      assert IsZero() <==> digits[..count] == [0];
      written := {};
      if IsZero() || shift == 0 {
        return;
      }
      var offset, inter := shift / 64, shift % 64;
      ghost var s := digits[..count];
      ghost var r := s;
      if inter == 0 {
        written := MoveUp(offset);
      } else {
        written := ShiftUp(offset, inter);
        ShiftNormal(s, Pow(2, inter), Pow(2, 64 - inter));
        r := digits[offset..count];
      }
      assert digits[offset..count] == r && Normal(r) && Value(r) == Value(s) * Pow(2, inter);
      forall j | 0 <= j < offset {
        digits[j] := 0;
      }
      written := written + Range(0, offset);
      assert digits[..count] == Zeros(offset) + r;
      ShiftWholeLimbs(s, r, offset, inter);
    }

    // ----- decimal digits -------------------------------------------------

    /** Makes room for the digits of a chunk and adds the chunk. */
    method AppendDecimal64(chunk: string)
      requires AllDigits(chunk) && 1 <= |chunk| <= 19
      requires Valid() && ChunkFits(Number(), |chunk|)
      modifies this`count, digits
      ensures Valid() && Number() == old(Number()) * Pow(10, |chunk|) + Fold(0, chunk)
    {
      hide Normal, Value, Pow, Fold, FitsIn;
      FoldBelow(chunk);
      NineteenDigits(|chunk|);
      var u := ParseUint64(chunk);
      ZeroWhenZero(digits[..count]);
      assert IsZero() <==> digits[..count] == [0];
      if IsZero() {
        Assign(u);
      } else {
        var exp := |chunk|;
        ghost var n := Number();
        StepsFit(n, exp, u);
        MultiplyPow5(exp);
        CountBelow(digits[..count], CAPACITY - 1);
        ghost var written := ShiftLeft(exp);
        TenIsFiveTimesTwo(n, exp);
        Add(u);
      }
    }

    // ----- comparison -----------------------------------------------------

    /** Negative, zero or positive, as this number is below, equal to or above the other. */
    method Compare(rhs: BigInteger) returns (order: int)
      requires Valid() && rhs.Valid()
      ensures order == if Number() < rhs.Number() then -1 else if Number() == rhs.Number() then 0 else 1
      ensures order == 0 <==> digits[..count] == rhs.digits[..rhs.count]
    {
      hide Normal, Value;
      ghost var s, t := digits[..count], rhs.digits[..rhs.count];
      if count != rhs.count {
        if count < rhs.count {
          LongerIsLarger(s, t);
        } else {
          LongerIsLarger(t, s);
        }
        return if count < rhs.count then -1 else 1;
      }
      var i := count;
      while i > 0
        invariant 0 <= i <= count
        invariant s[i..] == t[i..]
      {
        i := i - 1;
        if digits[i] != rhs.digits[i] {
          assert s == s[..i] + [s[i]] + s[i + 1..] && t == t[..i] + [t[i]] + s[i + 1..];
          if digits[i] < rhs.digits[i] {
            HighestDifference(s[..i], t[..i], s[i], t[i], s[i + 1..]);
          } else {
            HighestDifference(t[..i], s[..i], t[i], s[i], s[i + 1..]);
          }
          return if digits[i] < rhs.digits[i] then -1 else 1;
        }
        assert s[i..] == [s[i]] + s[i + 1..] && t[i..] == [t[i]] + t[i + 1..];
      }
      assert s[0..] == s && t[0..] == t;
      return 0;
    }
  }

  // ----- what the methods rest on -----------------------------------------

  lemma NormalOne(u: Limb)
    ensures Normal([u])
  {
  }

  lemma PowZero(b: int)
    ensures Pow(b, 0) == 1
  {
  }

  lemma {:induction false} MulCount(s: seq<Limb>, u: Limb, k: Limb)
    ensures |MulLimbs(s, u, k)| >= |s|
    decreases |s|
  {
    if s != [] {
      CarryBound(s[0], u, k);
      MulCount(s[1..], u, (s[0] * u + k) / BASE);
    }
  }

  lemma MulOfNothing(u: Limb, k: Limb)
    ensures MulLimbs([], u, k) == if k == 0 then [] else [k]
  {
  }

  lemma ProductLimbs(s: seq<Limb>, u: Limb, limbs: nat)
    requires Normal(s) && u > 0 && limbs >= 1 && FitsIn(Value(s) * u, limbs)
    ensures var r := MulLimbs(s, u, 0);
            1 <= |r| <= limbs && Normal(r) && Value(r) == Value(s) * u
  {
    hide Pow, Value, MulLimbs;
    MulNormal(s, u, 0);
    MulValue(s, u, 0);
    MulCount(s, u, 0);
    CountBound(MulLimbs(s, u, 0), limbs);
  }

  lemma ZeroWhenZero(s: seq<Limb>)
    requires Normal(s)
    ensures Value(s) == 0 <==> s == [0]
  {
    hide Pow;
    if |s| > 1 {
      NormalTail(s);
    } else {
      ValueOne(s[0]);
      assert s == [s[0]];
    }
  }

  lemma CountBelow(s: seq<Limb>, limit: nat)
    requires Normal(s) && Value(s) > 0 && FitsIn(Value(s), limit)
    ensures |s| <= limit
  {
    hide Value, Normal;
    if limit > 0 {
      CountBound(s, limit);
    }
  }

  // ----- powers of five ---------------------------------------------------

  const POWERS_OF_FIVE: seq<Limb> := [5, 25, 125, 625, 3125, 15625, 78125, 390625, 1953125, 9765625, 48828125, 244140625]

  lemma TableOfFives(e: nat)
    requires 1 <= e <= 12
    ensures POWERS_OF_FIVE[e - 1] == Pow(5, e) < TWO_32
    decreases e
  {
    if e == 1 {
      assert Pow(5, 1) == 5 * Pow(5, 0);
    } else {
      TableOfFives(e - 1);
    }
  }

  lemma PowersOfFive()
    ensures Pow(5, 13) == 1220703125 && Pow(5, 27) == 0x6765C793_FA10079D
  {
    TableOfFives(12);
    assert Pow(5, 13) == 5 * Pow(5, 12);
    PowAdd(5, 13, 13);
    PowAdd(5, 1, 26);
    assert Pow(5, 1) == 5 * Pow(5, 0);
  }

  /** Taking part of the power off leaves a product that fits when the whole does. */
  lemma TakePower(n: nat, part: nat, e: nat, limbs: nat)
    requires part <= e && FitsIn(n * Pow(5, e), limbs)
    ensures Pow(5, part) > 0 && Pow(5, e - part) > 0
    ensures 0 <= n * Pow(5, part) && FitsIn(n * Pow(5, part), limbs)
    ensures (n * Pow(5, part)) * Pow(5, e - part) == n * Pow(5, e)
    ensures part == e ==> Pow(5, e - part) == 1
  {
    PowAdd(5, part, e - part);
    PowPositive(5, part);
    PowPositive(5, e - part);
    MulMonotone(n * Pow(5, part), 1, n * Pow(5, part), Pow(5, e - part));
    assert (n * Pow(5, part)) * Pow(5, e - part) == n * (Pow(5, part) * Pow(5, e - part));
  }

  // ----- shifts -----------------------------------------------------------

  lemma HalvesOfBase(inter: nat)
    requires inter <= 64
    ensures Pow(2, inter) * Pow(2, 64 - inter) == BASE
  {
    PowAdd(2, inter, 64 - inter);
    TwoTo64();
  }

  lemma ShiftedTop(a: Limb, p: nat, top: bool)
    requires top ==> a == 0
    ensures a * p >= 0 && (top ==> a * p % BASE == 0)
  {
  }

  /** Zero limbs below multiply by 2^64 each. */
  lemma ShiftWholeLimbs(s: seq<Limb>, r: seq<Limb>, offset: nat, inter: nat)
    requires Normal(r) && Value(s) > 0 && Value(r) == Value(s) * Pow(2, inter)
    ensures Normal(Zeros(offset) + r) && Value(Zeros(offset) + r) == Value(s) * Pow(2, 64 * offset + inter)
  {
    hide Value;
    ZerosValue(offset, r);
    TwoTo64();
    PowMul(2, 64, offset);
    PowAdd(2, 64 * offset, inter);
    PowPositive(2, inter);
    MulMonotone(1, 1, Value(s), Pow(2, inter));
    assert r != [0] by { ValueOne(0); }
    assert Pow(BASE, offset) * (Value(s) * Pow(2, inter)) == Value(s) * (Pow(BASE, offset) * Pow(2, inter));
  }

  // ----- decimal digits ---------------------------------------------------

  lemma FoldEmpty(value: nat)
    ensures Fold(value, "") == value
  {
  }

  lemma {:induction false} FoldFrom(value: nat, s: string)
    requires AllDigits(s)
    ensures Fold(value, s) == value * Pow(10, |s|) + Fold(0, s)
    decreases |s|
  {
    if s != "" {
      FoldFrom(value * 10 + DigitValue(s[0]), s[1..]);
      FoldFrom(DigitValue(s[0]), s[1..]);
      var w := Pow(10, |s| - 1);
      assert (value * 10 + DigitValue(s[0])) * w == value * (10 * w) + DigitValue(s[0]) * w;
    }
  }

  lemma {:induction false} FoldTwice(value: nat, a: string, b: string)
    requires AllDigits(a) && AllDigits(b)
    ensures AllDigits(a + b) && Fold(value, a + b) == Fold(Fold(value, a), b)
    decreases |a|
  {
    if a == "" {
      assert a + b == b;
    } else {
      assert (a + b)[1..] == a[1..] + b;
      FoldTwice(value * 10 + DigitValue(a[0]), a[1..], b);
    }
  }

  lemma FoldConcat(value: nat, a: string, b: string)
    requires AllDigits(a) && AllDigits(b)
    ensures AllDigits(a + b) && Fold(value, a + b) == Fold(value, a) * Pow(10, |b|) + Fold(0, b)
  {
    FoldTwice(value, a, b);
    FoldFrom(Fold(value, a), b);
  }

  lemma {:induction false} FoldBelow(s: string)
    requires AllDigits(s)
    ensures Fold(0, s) < Pow(10, |s|)
    decreases |s|
  {
    if s != "" {
      FoldBelow(s[1..]);
      FoldFrom(DigitValue(s[0]), s[1..]);
      MulMonotone(DigitValue(s[0]), Pow(10, |s| - 1), 9, Pow(10, |s| - 1));
    }
  }

  lemma NineteenDigits(n: nat)
    requires n <= 19
    ensures 0 < Pow(10, n) < BASE
  {
    PowIncreases(10, n, 19);
    assert Pow(10, 4) == 10000;
    PowAdd(10, 4, 4);
    PowAdd(10, 8, 8);
    assert Pow(10, 3) == 1000;
    PowAdd(10, 16, 3);
  }

  method ParseUint64(s: string) returns (r: Limb)
    requires AllDigits(s) && |s| <= 19
    ensures r == Fold(0, s)
  {
    hide Fold, Pow;
    r := 0;
    FoldEmpty(0);
    assert s[..0] == "";
    for p := 0 to |s|
      invariant r == Fold(0, s[..p])
    {
      assert s[..p] + [s[p]] == s[..p + 1];
      FoldLast(0, s[..p], s[p]);
      FoldBelow(s[..p + 1]);
      NineteenDigits(p + 1);
      r := r * 10 + DigitValue(s[p]);
    }
    assert s[..|s|] == s;
  }

  lemma {:induction false} TenPower(e: nat)
    ensures Pow(10, e) == Pow(5, e) * Pow(2, e)
  {
    if e > 0 {
      TenPower(e - 1);
      assert (5 * Pow(5, e - 1)) * (2 * Pow(2, e - 1)) == 10 * (Pow(5, e - 1) * Pow(2, e - 1));
    }
  }

  lemma TenIsFiveTimesTwo(n: nat, e: nat)
    ensures (n * Pow(5, e)) * Pow(2, e) == n * Pow(10, e)
  {
    TenPower(e);
    assert (n * Pow(5, e)) * Pow(2, e) == n * (Pow(5, e) * Pow(2, e));
  }

  lemma RoomBehind(x: nat, p: nat, room: nat, u: Limb)
    requires x < room && p <= 0x8_0000 && room >= BASE
    ensures 0 <= x * p && x * p + u < BASE * room
  {
    MulMonotone(x, p, room, 0x8_0000);
  }

  lemma TwoTo19()
    ensures Pow(2, 19) == 0x8_0000
  {
    assert Pow(2, 9) == 0x200;
    PowAdd(2, 9, 10);
  }

  /** When a chunk fits, so do all numbers on the way to the result of appending it. */
  lemma StepsFit(n: nat, e: nat, u: Limb)
    requires n > 0 && e <= 19 && ChunkFits(n, e)
    ensures 0 < n * Pow(5, e) && FitsIn(n * Pow(5, e), CAPACITY - 1) && FitsIn(n * Pow(5, e), CAPACITY)
    ensures 0 <= n * Pow(10, e) && FitsIn(n * Pow(10, e) + u, CAPACITY)
  {
    hide Pow;
    PowPositive(5, e);
    MulMonotone(1, 1, n, Pow(5, e));
    PowIncreases(BASE, CAPACITY - 1, CAPACITY);
    TenIsFiveTimesTwo(n, e);
    PowIncreases(2, e, 19);
    TwoTo19();
    PowIncreases(BASE, 1, CAPACITY - 1);
    PowOneMore(BASE, 0);
    PowOneMore(BASE, CAPACITY - 1);
    PowZero(BASE);
    RoomBehind(n * Pow(5, e), Pow(2, e), Pow(BASE, CAPACITY - 1), u);
  }

  lemma PowOneMore(b: nat, e: nat)
    ensures Pow(b, e + 1) == b * Pow(b, e)
  {
  }

  // ----- what fits ----------------------------------------------------------

  /** The places the shift of a number of that many limbs writes. */
  ghost function WrittenByShift(count: nat, shift: nat): set<nat>
  {
    var offset := shift / 64;
    if shift == 0 then {}
    else if shift % 64 == 0 then Range(offset, count + offset) + Range(0, offset)
    else {count} + Range(offset, count + offset + 1) + Range(0, offset)
  }

  ghost function Range(from: nat, to: nat): set<nat>
  {
    set k: nat | k < to && From(from, k)
  }

  predicate From(from: nat, k: nat)
  {
    from <= k
  }

  lemma RangeOfNone(s: set<nat>, at: nat)
    ensures s + Range(at, at) == s
  {
  }

  lemma RangeExtends(s: set<nat>, from: nat, to: nat)
    requires from < to
    ensures s + Range(from + 1, to) + {from} == s + Range(from, to)
  {
  }

  /** The shift stays inside the array exactly when count and offset leave a limb more than the
      assertion of the source asks for, unless it moves whole limbs. */
  lemma ShiftStaysInsideExactly(count: nat, shift: nat)
    requires count >= 1 && shift > 0
    ensures (forall k <- WrittenByShift(count, shift) :: k < CAPACITY) <==>
            (if shift % 64 == 0 then count + shift / 64 <= CAPACITY else count + shift / 64 < CAPACITY)
  {
    var top := count + shift / 64;
    assert shift % 64 == 0 ==> top - 1 in WrittenByShift(count, shift);
    assert shift % 64 != 0 ==> top in WrittenByShift(count, shift);
  }

  /** A full number shifted by some bits passes that assertion and is written past the array. */
  lemma AssertedButOutside(shift: nat)
    requires 0 < shift < 64
    ensures CAPACITY + shift / 64 <= CAPACITY && CAPACITY in WrittenByShift(CAPACITY, shift)
  {
  }

  /** Appending k digits to n leaves the limb spare that the shift writes. */
  ghost predicate ChunkFits(n: nat, k: nat)
  {
    n == 0 || (0 <= n * Pow(5, k) && FitsIn(n * Pow(5, k), CAPACITY - 1))
  }

  function LastChunk(length: nat): (m: nat)
    requires length > 0
    ensures m % 19 == 0 && m < length <= m + 19
  {
    (length - 1) / 19 * 19
  }

  ghost predicate LastChunkFits(decimals: string)
    requires decimals != "" && AllDigits(decimals)
  {
    var m := LastChunk(|decimals|);
    ChunkFits(Fold(0, decimals[..m]), |decimals| - m)
  }

  lemma EarlierFits(decimals: string, i: nat, m: nat)
    requires AllDigits(decimals) && i + 19 <= m <= |decimals|
    requires Fold(0, decimals[..m]) <= Pow(BASE, CAPACITY - 1)
    ensures ChunkFits(Fold(0, decimals[..i]), 19)
  {
    hide Fold, Pow;
    var n := Fold(0, decimals[..i]);
    assert decimals[..m] == decimals[..i] + decimals[i..m];
    FoldConcat(0, decimals[..i], decimals[i..m]);
    FoldBelow(decimals[i..m]);
    PowIncreases(10, 19, m - i);
    MulMonotone(n, Pow(10, 19), n, Pow(10, m - i));
    FiveBelowTen();
    if n > 0 {
      StrictlyMore(n, Pow(5, 19), Pow(10, 19));
    }
  }

  lemma StrictlyMore(n: nat, a: nat, b: nat)
    requires n > 0 && a < b
    ensures 0 <= n * a < n * b
  {
    assert n * b == n * a + n * (b - a);
    MulMonotone(1, 1, n, b - a);
  }

  lemma FiveBelowTen()
    ensures 0 < Pow(5, 19) < Pow(10, 19)
  {
    TenPower(19);
    TwoTo19();
    PowPositive(5, 19);
  }

  /** When the last chunk fits, those before it do. */
  lemma EachChunkFits(decimals: string, i: nat)
    requires decimals != "" && AllDigits(decimals) && LastChunkFits(decimals)
    requires i % 19 == 0 && i < |decimals|
    ensures ChunkFits(Fold(0, decimals[..i]), if |decimals| - i < 19 then |decimals| - i else 19)
  {
    hide Fold, Pow;
    var m := LastChunk(|decimals|);
    if i != m {
      var n, k := Fold(0, decimals[..m]), |decimals| - m;
      PowPositive(5, k);
      PowPositive(BASE, CAPACITY - 1);
      MulMonotone(n, 1, n, Pow(5, k));
      EarlierFits(decimals, i, m);
    }
  }

  /** What building ends with: the number, an assertion when a 417th limb is pushed, or a write
      past the array. */
  datatype Outcome = Built(n: nat) | Asserted | Overrun

  ghost function Appended(n: nat, chunk: string): Outcome
    requires AllDigits(chunk)
  {
    var k := |chunk|;
    if n == 0 then Built(Fold(0, chunk))
    else
      var product := n * Pow(5, k);
      if product < 0 || !FitsIn(product, CAPACITY) then Asserted
      else if exists j :: j in WrittenByShift(|LimbsOf(product)|, k) && j >= CAPACITY then Overrun
      else Built(Fold(n, chunk))
  }

  ghost function Building(decimals: string, i: nat, n: nat): Outcome
    requires AllDigits(decimals) && i <= |decimals|
    decreases |decimals| - i
  {
    if i == |decimals| then Built(n)
    else
      var next := if |decimals| - i < 19 then |decimals| else i + 19;
      match Appended(n, decimals[i..next])
      case Built(m) => Building(decimals, next, m)
      case Asserted => Asserted
      case Overrun => Overrun
  }

  /** Appending goes well exactly when the chunk fits. */
  lemma AppendedExactly(n: nat, chunk: string)
    requires AllDigits(chunk) && 1 <= |chunk| <= 19
    ensures ChunkFits(n, |chunk|) ==> Appended(n, chunk) == Built(Fold(n, chunk))
    ensures !ChunkFits(n, |chunk|) ==> 0 <= n * Pow(5, |chunk|)
    ensures !ChunkFits(n, |chunk|) ==>
            Appended(n, chunk) == if FitsIn(n * Pow(5, |chunk|), CAPACITY) then Overrun else Asserted
  {
    hide Fold, Pow, WrittenByShift;
    if n > 0 {
      var k := |chunk|;
      var product := n * Pow(5, k);
      PowPositive(5, k);
      MulMonotone(1, 1, n, Pow(5, k));
      PowIncreases(BASE, CAPACITY - 1, CAPACITY);
      LimbsOfIsNormal(product);
      CountExactly(LimbsOf(product), CAPACITY - 1);
      ShiftStaysInsideExactly(|LimbsOf(product)|, k);
    }
  }

  lemma {:induction false} BuildingExactlyFrom(decimals: string, i: nat)
    requires decimals != "" && AllDigits(decimals) && i < |decimals| && i % 19 == 0
    ensures var r := Building(decimals, i, Fold(0, decimals[..i]));
            && (LastChunkFits(decimals) ==> r == Built(Fold(0, decimals)))
            && (!LastChunkFits(decimals) ==> !r.Built?)
    decreases |decimals| - i
  {
    hide Fold, Pow, Appended, ChunkFits;
    var n := Fold(0, decimals[..i]);
    var next := if |decimals| - i < 19 then |decimals| else i + 19;
    var chunk := decimals[i..next];
    AppendedExactly(n, chunk);
    assert decimals[..i] + chunk == decimals[..next];
    FoldTwice(0, decimals[..i], chunk);
    if LastChunkFits(decimals) {
      EachChunkFits(decimals, i);
    }
    if next < |decimals| {
      BuildingExactlyFrom(decimals, next);
    } else {
      assert decimals[..next] == decimals;
      assert i == LastChunk(|decimals|);
    }
  }

  /** Building from any string of digits goes well exactly when its last chunk fits. */
  lemma BuildingExactly(decimals: string)
    requires decimals != "" && AllDigits(decimals)
    ensures Building(decimals, 0, 0).Built? <==> LastChunkFits(decimals)
    ensures LastChunkFits(decimals) ==> Building(decimals, 0, 0) == Built(Fold(0, decimals))
  {
    hide Building;
    assert decimals[..0] == "";
    FoldEmpty(0);
    BuildingExactlyFrom(decimals, 0);
  }

  /** Leading zeros, the digits of 2^(64 * 415) and one more zero pass all assertions and are
      written past the array. */
  lemma BuildingOverruns()
    ensures var n := Pow(BASE, CAPACITY - 1);
            && n > 0
            && AllDigits(TooMany(n)) && Building(TooMany(n), 0, 0) == Overrun
  {
    hide Pow, Building, Fold;
    var n := Pow(BASE, CAPACITY - 1);
    PowPositive(BASE, CAPACITY - 1);
    var s := TooMany(n);
    var m := |s| - 1;
    TooManyFolds(n);
    FoldEmpty(0);
    assert s[..0] == "";
    BuildingReaches(s, 0, m);
    assert s[m..] == "0";
    PowOneMore(5, 0);
    PowZero(5);
    PowOneMore(BASE, CAPACITY - 1);
    AppendedExactly(n, "0");
    LastChunkBuilds(s, m, n);
  }

  /** The numeral of n, filled up with zeros to whole chunks, and one more digit. */
  function TooMany(n: nat): string
  {
    Nulls(18 - (|Itoa.Decimal(n)| - 1) % 19) + Itoa.Decimal(n) + "0"
  }

  function Nulls(k: nat): (s: string)
    ensures |s| == k
  {
    if k == 0 then "" else "0" + Nulls(k - 1)
  }

  lemma {:induction false} NullsFold(k: nat)
    ensures AllDigits(Nulls(k)) && Fold(0, Nulls(k)) == 0
  {
    if k == 0 {
    } else {
      NullsFold(k - 1);
      assert Nulls(k)[1..] == Nulls(k - 1);
    }
  }

  lemma TooManyFolds(n: nat)
    ensures var s := TooMany(n);
            && |s| >= 1 && (|s| - 1) % 19 == 0 && AllDigits(s) && Fold(0, s[..|s| - 1]) == n && s[|s| - 1..] == "0"
  {
    hide Fold;
    var digits := Itoa.Decimal(n);
    var zeros := Nulls(18 - (|digits| - 1) % 19);
    NullsFold(|zeros|);
    NumeralFolds(n);
    FoldTwice(0, zeros, digits);
    assert TooMany(n) == (zeros + digits) + "0";
    assert TooMany(n)[..|zeros + digits|] == zeros + digits;
  }

  lemma {:induction false} BuildingReaches(decimals: string, i: nat, m: nat)
    requires AllDigits(decimals) && i % 19 == 0 && m % 19 == 0 && i <= m <= |decimals|
    requires Fold(0, decimals[..m]) <= Pow(BASE, CAPACITY - 1)
    ensures Building(decimals, i, Fold(0, decimals[..i])) == Building(decimals, m, Fold(0, decimals[..m]))
    decreases m - i
  {
    hide Fold, Pow, Appended, ChunkFits;
    if i < m {
      var chunk := decimals[i..i + 19];
      EarlierFits(decimals, i, m);
      AppendedExactly(Fold(0, decimals[..i]), chunk);
      assert decimals[..i] + chunk == decimals[..i + 19];
      FoldTwice(0, decimals[..i], chunk);
      BuildingReaches(decimals, i + 19, m);
    }
  }

  lemma LastChunkBuilds(decimals: string, m: nat, n: nat)
    requires AllDigits(decimals) && m + 1 == |decimals| && decimals[m..] == "0" && !Appended(n, "0").Built?
    ensures Building(decimals, m, n) == Appended(n, "0")
  {
    hide Appended;
    assert decimals[m..m + 1] == decimals[m..];
  }

  lemma {:induction false} PowOfLarger(a: nat, b: nat, e: nat)
    requires a <= b
    ensures 0 <= Pow(a, e) <= Pow(b, e)
  {
    if e > 0 {
      PowOfLarger(a, b, e - 1);
      MulMonotone(a, Pow(a, e - 1), b, Pow(b, e - 1));
    }
  }

  /** Strings of up to 6640 digits fit, and so do the 768 that the number parser keeps. */
  lemma ShortStringsFit(decimals: string)
    requires decimals != "" && AllDigits(decimals) && |decimals| <= 16 * (CAPACITY - 1)
    ensures LastChunkFits(decimals)
  {
    hide Fold, Pow;
    var m := LastChunk(|decimals|);
    var n, k := Fold(0, decimals[..m]), |decimals| - m;
    assert decimals == decimals[..m] + decimals[m..];
    FoldConcat(0, decimals[..m], decimals[m..]);
    FoldBelow(decimals);
    PowPositive(5, k);
    PowOfLarger(5, 10, k);
    MulMonotone(n, Pow(5, k), n, Pow(10, k));
    PowIncreases(10, |decimals|, 16 * (CAPACITY - 1));
    PowOfLarger(10, 16, 16 * (CAPACITY - 1));
    PowMul(16, 16, CAPACITY - 1);
    SixteenTo16();
  }

  lemma SixteenTo16()
    ensures Pow(16, 16) == BASE
  {
    assert Pow(16, 4) == 0x1_0000;
    PowMul(16, 4, 4);
    assert Pow(0x1_0000, 4) == BASE;
  }

  // ----- the 128-bit product ----------------------------------------------

  lemma SchoolProduct(a0: nat, a1: nat, b0: nat, b1: nat)
    ensures (a1 * TWO_32 + a0) * (b1 * TWO_32 + b0)
         == a0 * b0 + TWO_32 * (a0 * b1 + a1 * b0) + BASE * (a1 * b1)
  {
    var b := b1 * TWO_32 + b0;
    assert (a1 * TWO_32 + a0) * b == TWO_32 * (a1 * b) + a0 * b;
    assert a1 * b == TWO_32 * (a1 * b1) + a1 * b0;
    assert a0 * b == TWO_32 * (a0 * b1) + a0 * b0;
  }

  lemma ProductBound(a: Limb, b: Limb)
    ensures a * b <= (BASE - 1) * (BASE - 1)
  {
    MulMonotone(a, b, BASE - 1, BASE - 1);
  }

  /** Where the partial products end up. The middle column m + x2 wraps at most once; its
      carry and its upper half join the high limb, which stays a limb. */
  lemma Columns(a: Limb, b: Limb, x0: nat, ad: nat, bc: nat, ac: nat)
    requires var a0, a1, b0, b1 := a % TWO_32, a / TWO_32, b % TWO_32, b / TWO_32;
             x0 == a0 * b0 && ad == a0 * b1 && bc == a1 * b0 && ac == a1 * b1
    ensures var m := ad + x0 / TWO_32;
            var x1 := (m + bc) % BASE;
            var hi := ac + (if x1 < bc then TWO_32 else 0) + x1 / TWO_32;
            var lo := (x1 % TWO_32) * TWO_32 + x0 % TWO_32;
            && m < BASE && bc < BASE && lo < BASE && hi < BASE && hi * BASE + lo == a * b
  {
    var a0, a1, b0, b1 := a % TWO_32, a / TWO_32, b % TWO_32, b / TWO_32;
    HalfProduct(a0, b0);
    HalfProduct(a0, b1);
    HalfProduct(a1, b0);
    SchoolProduct(a0, a1, b0, b1);
    var m := ad + x0 / TWO_32;
    var x1 := (m + bc) % BASE;
    assert m + bc == x1 + (if x1 < bc then BASE else 0);
    var hi := ac + (if x1 < bc then TWO_32 else 0) + x1 / TWO_32;
    var lo := (x1 % TWO_32) * TWO_32 + x0 % TWO_32;
    assert hi * BASE + lo == x0 + TWO_32 * (ad + bc) + BASE * ac;
    ProductBound(a, b);
  }

  lemma ShiftedHalf(x: Limb)
    ensures (x * TWO_32) % BASE == (x % TWO_32) * TWO_32
  {
    var q, r := x / TWO_32, x % TWO_32;
    assert x * TWO_32 == q * BASE + r * TWO_32;
    DivModUnique(x * TWO_32, q, r * TWO_32, BASE);
  }

  lemma Fits(x: nat)
    requires x < BASE
    ensures x % BASE == x
  {
  }

  /** The portable 128-bit product from 32-bit halves. */
  method Multiply64(a: Limb, b: Limb) returns (lo: Limb, hi: Limb)
    ensures hi * BASE + lo == a * b
  {
    var a0, a1, b0, b1 := a % TWO_32, a / TWO_32, b % TWO_32, b / TWO_32;
    var x0, x1, x2, x3 := a0 * b0, a0 * b1, a1 * b0, a1 * b1;
    Columns(a, b, x0, x1, x2, x3);
    lo, hi := AddColumns(x0, x1, x2, x3);
  }

  /** Adds the four partial products with 64-bit sums that wrap. */
  method AddColumns(x0: nat, ad: nat, x2: nat, ac: nat) returns (lo: Limb, hi: Limb)
    requires var m := ad + x0 / TWO_32;
             var x1 := (m + x2) % BASE;
             && m < BASE && x2 < BASE && (x1 % TWO_32) * TWO_32 + x0 % TWO_32 < BASE
             && ac + (if x1 < x2 then TWO_32 else 0) + x1 / TWO_32 < BASE
    ensures var x1 := (ad + x0 / TWO_32 + x2) % BASE;
            && hi == ac + (if x1 < x2 then TWO_32 else 0) + x1 / TWO_32
            && lo == (x1 % TWO_32) * TWO_32 + x0 % TWO_32
  {
    var x1, x3 := ad, ac;
    Fits(x1 + x0 / TWO_32);
    x1 := (x1 + x0 / TWO_32) % BASE;
    x1 := (x1 + x2) % BASE;
    if x1 < x2 {
      Fits(x3 + TWO_32);
      x3 := (x3 + TWO_32) % BASE;
    }
    ShiftedHalf(x1);
    lo := ((x1 * TWO_32) % BASE + x0 % TWO_32) % BASE;
    hi := (x3 + x1 / TWO_32) % BASE;
  }

  method MulAdd64(a: Limb, b: Limb, k: Limb) returns (low: Limb, high: Limb)
    ensures high * BASE + low == a * b + k
  {
    low, high := Multiply64(a, b);
    ProductBound(a, b);
    low := (low + k) % BASE;
    if low < k {
      high := (high + 1) % BASE;
    }
  }

  /** One limb times a 32-bit factor: no sum of the two half products wraps. */
  method MulAdd32(digit: Limb, u: nat, k: nat) returns (low: Limb, high: nat)
    requires u < TWO_32 && k < TWO_32
    ensures high < TWO_32 && high * BASE + low == digit * u + k
  {
    var c, d := digit / TWO_32, digit % TWO_32;
    HalfProduct(u, c);
    HalfProduct(u, d);
    var uc: Limb, ud: Limb := u * c, u * d;
    var p0: Limb := ud + k;
    var p1: Limb := uc + p0 / TWO_32;
    ShiftedHalf(p1);
    low := p0 % TWO_32 + (p1 * TWO_32) % BASE;
    high := p1 / TWO_32;
    assert (c * TWO_32 + d) * u == uc * TWO_32 + ud;
  }
}

/** Laws of 64-bit words. They stand apart from the functions they are about. */
module BitLaws {
  import opened BitWords

  lemma SumComm(a: bv64, b: bv64)
    ensures Sum(a, b) == Sum(b, a)
  {
  }

  lemma SumIs(a: bv64, b: bv64)
    ensures Sum(a, b) == a ^ b
  {
  }

  lemma XorAssoc(a: bv64, b: bv64, c: bv64, ab: bv64, bc: bv64)
    requires ab == a ^ b && bc == b ^ c
    ensures ab ^ c == a ^ bc
  {
  }

  lemma SumAssoc(a: bv64, b: bv64, c: bv64)
    ensures Sum(Sum(a, b), c) == Sum(a, Sum(b, c))
  {
    hide Sum;
    SumIs(a, b);
    SumIs(b, c);
    SumIs(Sum(a, b), c);
    SumIs(a, Sum(b, c));
    XorAssoc(a, b, c, Sum(a, b), Sum(b, c));
  }

  lemma SumZero(a: bv64)
    ensures Sum(a, 0) == a && Sum(0, a) == a && Sum(a, a) == 0
  {
  }

  lemma SumCancels(a: bv64, b: bv64)
    requires Sum(a, b) == 0
    ensures a == b
  {
  }

  lemma SumPairs(a: bv64, b: bv64, c: bv64, d: bv64)
    ensures Sum(Sum(a, b), Sum(c, d)) == Sum(Sum(a, c), Sum(b, d))
  {
    hide Sum;
    SumAssoc(a, b, Sum(c, d));
    SumAssoc(b, c, d);
    SumComm(b, c);
    SumAssoc(c, b, d);
    SumAssoc(a, c, Sum(b, d));
  }

  lemma Turned55Adds(a: bv64, b: bv64)
    ensures Turned55(Sum(a, b)) == Sum(Turned55(a), Turned55(b))
  {
  }

  lemma Turned36Adds(a: bv64, b: bv64)
    ensures Turned36(Sum(a, b)) == Sum(Turned36(a), Turned36(b))
  {
  }

  lemma LeftAdds(a: bv64, b: bv64)
    ensures Left(Sum(a, b)) == Sum(Left(a), Left(b))
  {
  }

  lemma OnlyZeroTurnsTo55(x: bv64)
    requires Turned55(x) == 0
    ensures x == 0
  {
  }

  lemma OnlyZeroTurnsTo36(x: bv64)
    requires Turned36(x) == 0
    ensures x == 0
  {
  }

  lemma ZeroStays()
    ensures Left(0) == 0 && Turned55(0) == 0 && Turned36(0) == 0 && Half(0) == 0 && Half(1) == 0
  {
  }

  lemma XorNested(a: bv64, b: bv64, c: bv64, d: bv64, cd: bv64, bcd: bv64)
    requires cd == c ^ d && bcd == b ^ cd
    ensures a ^ b ^ c ^ d == a ^ bcd
  {
  }

  lemma JoinedIsXor(a: bv64, b: bv64, c: bv64, d: bv64)
    ensures Joined(a, b, c, d) == a ^ b ^ c ^ d
  {
  }

  lemma JoinedIs(a: bv64, b: bv64, c: bv64, d: bv64)
    ensures Joined(a, b, c, d) == Sum(a, Sum(b, Sum(c, d)))
  {
    hide Sum, Joined;
    SumIs(c, d);
    SumIs(b, Sum(c, d));
    SumIs(a, Sum(b, Sum(c, d)));
    JoinedIsXor(a, b, c, d);
    XorNested(a, b, c, d, Sum(c, d), Sum(b, Sum(c, d)));
  }

  lemma FourIs(w: bv64, a: bv64, b: bv64, c: bv64, d: bv64)
    ensures Four(w, a, b, c, d)
         == Joined(PickedWord(w, a), PickedWord(w >> 1, b), PickedWord(w >> 2, c), PickedWord(w >> 3, d))
  {
  }

  lemma HalvesAre(w: bv64)
    ensures Half(w) == w >> 1 && Half(Half(w)) == w >> 2 && Half(Half(Half(w))) == w >> 3
    ensures Half(Half(Half(Half(w)))) == By4(w)
  {
  }

  lemma FoursAre(w: bv64)
    ensures By4(w) == w >> 4 && By4(By4(w)) == w >> 8 && By4(By4(By4(w))) == w >> 12
    ensures By4(By4(By4(By4(w)))) == By16(w)
  {
  }

  lemma SixteenIs(w: bv64,
                  a: bv64, b: bv64, c: bv64, d: bv64, e: bv64, f: bv64, g: bv64, h: bv64,
                  i: bv64, j: bv64, k: bv64, l: bv64, m: bv64, n: bv64, o: bv64, p: bv64)
    ensures Sixteen(w, a, b, c, d, e, f, g, h, i, j, k, l, m, n, o, p)
         == Joined(Four(w, a, b, c, d), Four(By4(w), e, f, g, h), Four(By4(By4(w)), i, j, k, l),
                   Four(By4(By4(By4(w))), m, n, o, p))
  {
    FoursAre(w);
  }

  lemma SixteensAre(w: bv64)
    ensures By16(w) == w >> 16 && By16(By16(w)) == w >> 32 && By16(By16(By16(w))) == w >> 48
  {
  }

  lemma PartsXor(a: bv64, m: bv64, n: bv64, both: bv64)
    requires m & n == 0 && m | n == both
    ensures (a & m) ^ (a & n) == a & both
  {
  }

  lemma PartsSum(a: bv64, m: bv64, n: bv64, both: bv64)
    requires m & n == 0 && m | n == both
    ensures Sum(Part(a, m), Part(a, n)) == Part(a, both)
  {
    PartsXor(a, m, n, both);
  }

  lemma OneBit(a: bv64, unit: bv64)
    requires unit & (unit - 1) == 0
    ensures Part(a, unit) == 0 || Part(a, unit) == unit
  {
  }

  lemma WholeWord(a: bv64)
    ensures Part(a, 0xffffffffffffffff) == a
  {
  }
}

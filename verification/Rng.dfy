/** The two pseudo-random generators (include/rng.hpp): the 64-bit one never repeats an
    output within its period, and one jump of the 128-bit one is 2^64 of its steps. */
module Rng {
  import JumpAhead
  import opened BitWords
  import opened NumberTheory
  import opened Words
  import opened Xoroshiro

  type Word = n: int | 0 <= n < 0x1_0000_0000_0000_0000

  // ----- the 64-bit generator ---------------------------------------------

  const INCREMENT: Word := 0x9E3779B97F4A7C15
  const FACTOR1: Word := 0xBF58476D1CE4E5B9
  const FACTOR2: Word := 0x94D049BB133111EB

  function Plus(a: Word, b: Word): Word
  {
    (a as int + b) % WORD
  }

  function Times(a: Word, b: Word): Word
  {
    MulMonotone(0, 0, a, b);
    (a * b) % WORD
  }

  /** A word added without carry to itself shifted down. */
  function Folded(x: Word, k: nat): Word
  {
    FoldedFits(x, k);
    Xor(x, ShiftRight(x, k))
  }

  lemma FoldedFits(x: Word, k: nat)
    ensures Xor(x, ShiftRight(x, k)) < WORD
  {
    WordIsPower();
    ShiftIsSmaller(x, k);
    XorBelow(x, ShiftRight(x, k), 64);
  }

  lemma ShiftIsSmaller(x: nat, k: nat)
    ensures ShiftRight(x, k) <= x
    ensures k > 0 && x > 0 ==> ShiftRight(x, k) < x
  {
    PowPositive(2, k);
    var p := Pow(2, k);
    var q := ShiftRight(x, k);
    assert x == q * p + x % p;
    MulMonotone(q, 1, q, p);
    if k > 0 {
      MulMonotone(q, 2, q, p);
    }
  }

  /** What the generator returns for a state. */
  function Mix(state: Word): Word
  {
    Folded(Times(Folded(Times(Folded(state, 30), FACTOR1), 27), FACTOR2), 31)
  }

  /** If two words fold to the same, their difference is its own shift, so it is zero. */
  lemma FoldIsOneToOne(x: Word, y: Word, k: nat)
    requires k > 0 && Folded(x, k) == Folded(y, k)
    ensures x == y
  {
    hide Xor, ShiftRight;
    var d := Xor(x, y);
    XorPairs(x, ShiftRight(x, k), y, ShiftRight(y, k));
    XorSelf(Folded(x, k));
    RightAdds(x, y, k);
    XorCancels(d, ShiftRight(d, k));
    ShiftIsSmaller(d, k);
    XorCancels(x, y);
  }

  /** An odd factor is undone by its inverse modulo 2^64. */
  lemma FactorIsOneToOne(x: Word, y: Word, factor: Word, inverse: Word)
    requires 0 <= factor * inverse && factor * inverse % WORD == 1 && Times(x, factor) == Times(y, factor)
    ensures x == y
  {
    FactorUndone(x, factor, inverse);
    FactorUndone(y, factor, inverse);
  }

  lemma FactorUndone(x: Word, factor: Word, inverse: Word)
    requires 0 <= factor * inverse && factor * inverse % WORD == 1
    ensures Times(Times(x, factor), inverse) == x
  {
    ModMulLeft(x * factor, inverse, WORD);
    assert (x * factor) * inverse == (factor * inverse) * x;
    ModMulLeft(factor * inverse, x, WORD);
    DivModUnique(x, 0, x, WORD);
  }

  lemma Inverses()
    ensures FACTOR1 * 0x96de1b173f119089 % WORD == 1 && FACTOR2 * 0x319642b2d24d8ec3 % WORD == 1
    ensures INCREMENT * 0xf1de83e19937733d % WORD == 1
  {
  }

  lemma MixIsOneToOne(x: Word, y: Word)
    requires Mix(x) == Mix(y)
    ensures x == y
  {
    hide Folded, Times;
    Inverses();
    var a, b := Folded(x, 30), Folded(y, 30);
    var c, d := Folded(Times(a, FACTOR1), 27), Folded(Times(b, FACTOR1), 27);
    FoldIsOneToOne(Times(c, FACTOR2), Times(d, FACTOR2), 31);
    FactorIsOneToOne(c, d, FACTOR2, 0x319642b2d24d8ec3);
    FoldIsOneToOne(Times(a, FACTOR1), Times(b, FACTOR1), 27);
    FactorIsOneToOne(a, b, FACTOR1, 0x96de1b173f119089);
    FoldIsOneToOne(x, y, 30);
  }

  function StateAfter(seed: Word, n: nat): Word
  {
    if n == 0 then seed else Plus(StateAfter(seed, n - 1), INCREMENT)
  }

  lemma {:induction false} StateIsProgression(seed: Word, n: nat)
    ensures 0 <= n * INCREMENT && StateAfter(seed, n) == (seed + n * INCREMENT) % WORD
    decreases n
  {
    if n == 0 {
      DivModUnique(seed, 0, seed, WORD);
    } else {
      StateIsProgression(seed, n - 1);
      ModAdd(seed + (n - 1) * INCREMENT, INCREMENT, WORD);
    }
  }

  /** Any 2^64 outputs in a row are pairwise different. */
  lemma OutputsDiffer(seed: Word, i: nat, j: nat)
    requires i < j < i + WORD
    ensures Mix(StateAfter(seed, i)) != Mix(StateAfter(seed, j))
  {
    hide Mix, StateAfter;
    if Mix(StateAfter(seed, i)) == Mix(StateAfter(seed, j)) {
      MixIsOneToOne(StateAfter(seed, i), StateAfter(seed, j));
      StateIsProgression(seed, i);
      StateIsProgression(seed, j);
      StepsApart(seed, i, j);
    }
  }

  /** The increment is odd, so fewer than 2^64 of them never add up to nothing. */
  lemma StepsApart(seed: Word, i: nat, j: nat)
    requires i < j < i + WORD
    ensures (seed + i * INCREMENT) % WORD != (seed + j * INCREMENT) % WORD
  {
    var d := j - i;
    CongruentIff(seed + j * INCREMENT, seed + i * INCREMENT, WORD);
    assert seed + j * INCREMENT - (seed + i * INCREMENT) == d * INCREMENT;
    Inverses();
    FactorUndone(d, INCREMENT, 0xf1de83e19937733d);
    assert Times(0, 0xf1de83e19937733d) == 0;
  }

  class Rng64 {
    var state: Word

    constructor (seed: Word)
      ensures state == seed
    {
      state := seed;
    }

    method Next() returns (z: Word)
      modifies this
      ensures state == Plus(old(state), INCREMENT) && z == Mix(state)
    {
      hide Folded, Times, Plus;
      state := Plus(state, INCREMENT);
      z := state;
      z := Times(Folded(z, 30), FACTOR1);
      z := Times(Folded(z, 27), FACTOR2);
      return Folded(z, 31);
    }
  }

  // ----- the 128-bit generator --------------------------------------------

  /** The word without its last b bits. */
  function Shifted(w: bv64, b: nat): bv64
  {
    if b == 0 then w else Half(Shifted(w, b - 1))
  }

  predicate BitAt(w: bv64, b: nat)
  {
    Shifted(w, b) & 1 == 1
  }

  /** What is left of a sum after b bits, and after one more. */
  lemma SumGoesOn(w: bv64, b: nat, acc: Pair, s: Pair)
    requires b < 64
    ensures var rest := WordSum(Shifted(w, b), 64 - b, 1, s);
            PairSum(acc, rest) == PairSum(if BitAt(w, b) then PairSum(acc, s) else acc,
                                          WordSum(Shifted(w, b + 1), 64 - (b + 1), 1, Step(s)))
  {
    hide PairSum, Step, Steps, Half;
    FewSteps(s);
    PairSumAssoc(acc, s, WordSum(Shifted(w, b + 1), 63 - b, 1, Step(s)));
    PairSumLaws(WordSum(Shifted(w, b + 1), 63 - b, 1, Step(s)), s);
  }

  lemma SumEnds(w: bv64, acc: Pair, s: Pair)
    ensures PairSum(acc, WordSum(w, 0, 1, s)) == acc
  {
    PairSumLaws(acc, acc);
  }

  function Output(a: bv64, b: bv64): bv64
  {
    a + b
  }

  class Rng128 {
    var state: Pair

    constructor (s0: bv64, s1: bv64)
      ensures state == Pair(s0, s1)
    {
      state := Pair(s0, s1);
    }

    /** Seeds both words from the 64-bit generator. */
    constructor FromSeed(seed: Word)
      ensures state == Pair(Mix(StateAfter(seed, 1)) as bv64, Mix(StateAfter(seed, 2)) as bv64)
    {
      hide Mix, Plus;
      var seeder := new Rng64(seed);
      var s0 := seeder.Next();
      var s1 := seeder.Next();
      state := Pair(s0 as bv64, s1 as bv64);
      new;
      TwoStates(seed);
    }

    method Next() returns (value: bv64)
      modifies this
      ensures state == Step(old(state)) && value == Output(old(state).s0, old(state).s1)
    {
      hide Sum, Turned55, Turned36, Left, Output;
      var s0 := state.s0;
      var s1 := state.s1;
      value := Output(s0, s1);
      s1 := Sum(s1, s0);
      state := Pair(Sum(Sum(Turned55(s0), s1), Left(s1)), state.s1);
      state := Pair(state.s0, Turned36(s1));
    }

    /** Sums up the steps that the mask selects, which are as far ahead as 2^64 steps. */
    method Jump()
      modifies this
      ensures state == Jumped(old(state)) && state == Steps(old(state), JumpAhead.PERIOD)
    {
      hide Step, Steps, PairSum, WordSum, BitAt, Sum;
      ghost var start := state;
      var masks := [JUMP.low, JUMP.high];
      var s0: bv64, s1: bv64 := 0, 0;
      NothingSummed(start);
      for i := 0 to 2
        invariant Pair(s0, s1) == WordsSummed(start, i) && state == Steps(start, 64 * i)
      {
        ghost var base, from := Pair(s0, s1), state;
        WholeWordLeft(masks[i]);
        StepsGoOn(from, 0);
        for b := 0 to 64
          invariant PairSum(Pair(s0, s1), WordSum(Shifted(masks[i], b), 64 - b, 1, state))
                 == PairSum(base, WordSum(masks[i], 64, 1, from))
          invariant state == Steps(from, b)
        {
          SumGoesOn(masks[i], b, Pair(s0, s1), state);
          StepsGoOn(from, b);
          if BitAt(masks[i], b) {
            SumOfPairs(s0, s1, state);
            s0 := Sum(s0, state.s0);
            s1 := Sum(s1, state.s1);
          }
          var value := Next();
        }
        SumEnds(Shifted(masks[i], 64), Pair(s0, s1), state);
        StepsAdd(start, 64 * i, 64);
        OneWordMore(start, i);
      }
      state := Pair(s0, s1);
      JumpAhead.JumpIsSteps(start);
    }
  }

  /** The sum after the first words of the mask. */
  function WordsSummed(s: Pair, i: nat): Pair
  {
    if i == 0 then ZERO
    else if i == 1 then WordSum(JUMP.low, 64, 1, s)
    else Jumped(s)
  }

  lemma NothingSummed(s: Pair)
    ensures WordsSummed(s, 0) == ZERO && Steps(s, 0) == s
  {
  }

  lemma OneWordMore(s: Pair, i: nat)
    requires i < 2
    ensures PairSum(WordsSummed(s, i), WordSum(if i == 0 then JUMP.low else JUMP.high, 64, 1, Steps(s, 64 * i)))
         == WordsSummed(s, i + 1)
  {
    hide PairSum, WordSum, Steps;
    FewSteps(s);
    PairSumLaws(WordSum(JUMP.low, 64, 1, s), s);
  }

  lemma WholeWordLeft(w: bv64)
    ensures Shifted(w, 0) == w
  {
  }

  lemma StepsGoOn(s: Pair, b: nat)
    ensures Steps(s, 0) == s && Steps(s, b + 1) == Step(Steps(s, b))
  {
    hide Step;
  }

  lemma SumOfPairs(s0: bv64, s1: bv64, t: Pair)
    ensures PairSum(Pair(s0, s1), t) == Pair(Sum(s0, t.s0), Sum(s1, t.s1))
  {
    hide Sum;
  }

  lemma TwoStates(seed: Word)
    ensures StateAfter(seed, 1) == Plus(seed, INCREMENT)
    ensures StateAfter(seed, 2) == Plus(Plus(seed, INCREMENT), INCREMENT)
  {
    hide Plus;
    assert StateAfter(seed, 0) == seed;
  }
}

/** The state of the 128-bit generator (include/rng.hpp): its step is linear over exclusive or
    and one to one, and so is every sum of steps that a mask selects. */
module Xoroshiro {
  import opened BitLaws
  import opened BitWords

  datatype Pair = Pair(s0: bv64, s1: bv64)

  const ZERO := Pair(0, 0)

  /** The next state of the generator. */
  function Step(s: Pair): Pair
  {
    var t := Sum(s.s1, s.s0);
    Pair(Sum(Sum(Turned55(s.s0), t), Left(t)), Turned36(t))
  }

  function PairSum(s: Pair, t: Pair): Pair
  {
    Pair(Sum(s.s0, t.s0), Sum(s.s1, t.s1))
  }

  // ----- sums of states --------------------------------------------------

  lemma PairSumLaws(s: Pair, t: Pair)
    ensures PairSum(s, s) == ZERO && PairSum(s, ZERO) == s && PairSum(ZERO, s) == s && PairSum(s, t) == PairSum(t, s)
    ensures PairSum(s, t) == ZERO ==> s == t
  {
    hide Sum;
    SumZero(s.s0);
    SumZero(s.s1);
    SumComm(s.s0, t.s0);
    SumComm(s.s1, t.s1);
    if PairSum(s, t) == ZERO {
      SumCancels(s.s0, t.s0);
      SumCancels(s.s1, t.s1);
    }
  }

  lemma PairSumAssoc(s: Pair, t: Pair, u: Pair)
    ensures PairSum(PairSum(s, t), u) == PairSum(s, PairSum(t, u))
  {
    hide Sum;
    SumAssoc(s.s0, t.s0, u.s0);
    SumAssoc(s.s1, t.s1, u.s1);
  }

  lemma PairSumRegroups(s: Pair, t: Pair, u: Pair, v: Pair)
    ensures PairSum(PairSum(s, t), PairSum(u, v)) == PairSum(PairSum(s, u), PairSum(t, v))
  {
    hide Sum;
    SumPairs(s.s0, t.s0, u.s0, v.s0);
    SumPairs(s.s1, t.s1, u.s1, v.s1);
  }

  // ----- one step ---------------------------------------------------------

  /** A step of a sum is the sum of the steps. */
  lemma StepIsLinear(s: Pair, t: Pair)
    ensures Step(PairSum(s, t)) == PairSum(Step(s), Step(t))
  {
    hide Sum, Turned55, Turned36, Left;
    var a, b := Sum(s.s1, s.s0), Sum(t.s1, t.s0);
    SumPairs(s.s1, t.s1, s.s0, t.s0);
    Turned55Adds(s.s0, t.s0);
    LeftAdds(a, b);
    Turned36Adds(a, b);
    SumPairs(Turned55(s.s0), Turned55(t.s0), a, b);
    SumPairs(Sum(Turned55(s.s0), a), Sum(Turned55(t.s0), b), Left(a), Left(b));
  }

  /** Only the zero state steps to zero. */
  lemma StepOfNonzero(s: Pair)
    requires Step(s) == ZERO
    ensures s == ZERO
  {
    hide Sum, Turned55, Turned36, Left;
    OnlyZeroTurnsTo36(Sum(s.s1, s.s0));
    ZeroStays();
    SumZero(Turned55(s.s0));
    OnlyZeroTurnsTo55(s.s0);
    SumCancels(s.s1, s.s0);
  }

  lemma StepOfZero()
    ensures Step(ZERO) == ZERO
  {
    hide Sum, Turned55, Turned36, Left;
    ZeroStays();
    SumZero(0);
  }

  /** Different states never step to the same state. */
  lemma StepIsOneToOne(s: Pair, t: Pair)
    requires Step(s) == Step(t)
    ensures s == t
  {
    hide Step, PairSum;
    StepIsLinear(s, t);
    PairSumLaws(Step(s), Step(t));
    StepOfNonzero(PairSum(s, t));
    PairSumLaws(s, t);
  }

  // ----- many steps -------------------------------------------------------

  function Steps(s: Pair, n: nat): Pair
  {
    if n == 0 then s else Step(Steps(s, n - 1))
  }

  lemma {:induction false} StepsAdd(s: Pair, m: nat, n: nat)
    ensures Steps(Steps(s, m), n) == Steps(s, m + n)
    decreases n
  {
    hide Step;
    if n > 0 {
      StepsAdd(s, m, n - 1);
    }
  }

  lemma {:induction false} StepFirst(s: Pair, n: nat)
    ensures Steps(Step(s), n) == Step(Steps(s, n))
    decreases n
  {
    hide Step;
    if n > 0 {
      StepFirst(s, n - 1);
    }
  }

  lemma {:induction false} StepsAreLinear(s: Pair, t: Pair, n: nat)
    ensures Steps(PairSum(s, t), n) == PairSum(Steps(s, n), Steps(t, n))
    decreases n
  {
    hide Step, PairSum;
    if n > 0 {
      StepsAreLinear(s, t, n - 1);
      StepIsLinear(Steps(s, n - 1), Steps(t, n - 1));
    }
  }

  lemma {:induction false} StepsOfZero(n: nat)
    ensures Steps(ZERO, n) == ZERO
    decreases n
  {
    hide Step;
    if n > 0 {
      StepsOfZero(n - 1);
      StepOfZero();
    }
  }

  lemma FewSteps(s: Pair)
    ensures Steps(s, 0) == s && Steps(s, 1) == Step(s) && Steps(s, 2) == Step(Step(s))
  {
    hide Step;
    assert Steps(s, 1) == Step(Steps(s, 0));
  }

  // ----- sums of steps ----------------------------------------------------

  function Picked(w: bv64, s: Pair): Pair
  {
    if w & 1 == 1 then s else ZERO
  }

  /** The sum of the states that the last n bits of a word select among every d-th step. */
  function WordSum(w: bv64, n: nat, d: nat, s: Pair): Pair
    decreases n
  {
    if n == 0 then ZERO else PairSum(Picked(w, s), WordSum(Half(w), n - 1, d, Steps(s, d)))
  }

  /** 128 bits, the lower ones first. */
  datatype Mask = Mask(low: bv64, high: bv64)

  function MaskSum(m: Mask, d: nat, s: Pair): Pair
  {
    PairSum(WordSum(m.low, 64, d, s), WordSum(m.high, 64, d, Steps(s, 64 * d)))
  }

  const JUMP := Mask(0xbeac0467eba5facb, 0xd86b048b86aa9922)

  function Jumped(s: Pair): Pair
  {
    MaskSum(JUMP, 1, s)
  }

  lemma PickedLaws(w: bv64, s: Pair, t: Pair)
    ensures Picked(w, PairSum(s, t)) == PairSum(Picked(w, s), Picked(w, t))
    ensures Step(Picked(w, s)) == Picked(w, Step(s)) && Picked(w, ZERO) == ZERO && Picked(w, Picked(w, s)) == Picked(w, s)
  {
    hide Step, PairSum;
    StepOfZero();
    PairSumLaws(ZERO, ZERO);
  }

  lemma {:induction false} WordSumIsLinear(w: bv64, n: nat, d: nat, s: Pair, t: Pair)
    ensures WordSum(w, n, d, PairSum(s, t)) == PairSum(WordSum(w, n, d, s), WordSum(w, n, d, t))
    decreases n
  {
    hide Steps, PairSum, Picked;
    if n == 0 {
      PairSumLaws(ZERO, ZERO);
    } else {
      var u, v := WordSum(Half(w), n - 1, d, Steps(s, d)), WordSum(Half(w), n - 1, d, Steps(t, d));
      PickedLaws(w, s, t);
      StepsAreLinear(s, t, d);
      WordSumIsLinear(Half(w), n - 1, d, Steps(s, d), Steps(t, d));
      PairSumRegroups(Picked(w, s), Picked(w, t), u, v);
    }
  }

  lemma {:induction false} WordSumOfStep(w: bv64, n: nat, d: nat, s: Pair)
    ensures WordSum(w, n, d, Step(s)) == Step(WordSum(w, n, d, s))
    decreases n
  {
    hide Step, Steps, PairSum, Picked;
    if n == 0 {
      StepOfZero();
    } else {
      StepFirst(s, d);
      WordSumOfStep(Half(w), n - 1, d, Steps(s, d));
      PickedLaws(w, s, s);
      StepIsLinear(Picked(w, s), WordSum(Half(w), n - 1, d, Steps(s, d)));
    }
  }

  lemma {:induction false} WordSumOfSteps(w: bv64, n: nat, d: nat, s: Pair, k: nat)
    ensures WordSum(w, n, d, Steps(s, k)) == Steps(WordSum(w, n, d, s), k)
    decreases k
  {
    hide Step, WordSum;
    if k > 0 {
      WordSumOfSteps(w, n, d, s, k - 1);
      WordSumOfStep(w, n, d, Steps(s, k - 1));
    }
  }

  lemma {:induction false} WordSumOfZero(w: bv64, n: nat, d: nat)
    ensures WordSum(w, n, d, ZERO) == ZERO
    decreases n
  {
    hide Steps, PairSum;
    if n > 0 {
      StepsOfZero(d);
      WordSumOfZero(Half(w), n - 1, d);
      PairSumLaws(ZERO, ZERO);
    }
  }

  lemma WordSumOfPicked(w: bv64, n: nat, d: nat, v: bv64, s: Pair)
    ensures WordSum(w, n, d, Picked(v, s)) == Picked(v, WordSum(w, n, d, s))
  {
    hide WordSum;
    WordSumOfZero(w, n, d);
  }

  lemma MaskSumIsLinear(m: Mask, s: Pair, t: Pair)
    ensures MaskSum(m, 1, PairSum(s, t)) == PairSum(MaskSum(m, 1, s), MaskSum(m, 1, t))
  {
    hide WordSum, PairSum, Steps;
    StepsAreLinear(s, t, 64);
    WordSumIsLinear(m.low, 64, 1, s, t);
    WordSumIsLinear(m.high, 64, 1, Steps(s, 64), Steps(t, 64));
    PairSumRegroups(WordSum(m.low, 64, 1, s), WordSum(m.low, 64, 1, t),
                    WordSum(m.high, 64, 1, Steps(s, 64)), WordSum(m.high, 64, 1, Steps(t, 64)));
  }

  /** A sum of steps commutes with any number of steps. */
  lemma MaskSumOfSteps(m: Mask, s: Pair, k: nat)
    ensures MaskSum(m, 1, Steps(s, k)) == Steps(MaskSum(m, 1, s), k)
  {
    hide WordSum, PairSum, Steps;
    WordSumOfSteps(m.low, 64, 1, s, k);
    WordSumOfSteps(m.high, 64, 1, Steps(s, 64), k);
    StepsAdd(s, 64, k);
    StepsAdd(s, k, 64);
    StepsAreLinear(WordSum(m.low, 64, 1, s), WordSum(m.high, 64, 1, Steps(s, 64)), k);
  }

  /** Jumping commutes with any number of steps. */
  lemma JumpCommutes(s: Pair, n: nat)
    ensures Jumped(Steps(s, n)) == Steps(Jumped(s), n)
  {
    hide MaskSum;
    MaskSumOfSteps(JUMP, s, n);
  }

  // ----- squares ----------------------------------------------------------

  /** A sum of steps applied twice: the mixed terms come in pairs and cancel. */
  lemma {:induction false} WordSquare(w: bv64, n: nat, s: Pair)
    ensures WordSum(w, n, 1, WordSum(w, n, 1, s)) == WordSum(w, n, 2, s)
    decreases n
  {
    hide Step, Steps, PairSum, Picked;
    if n > 0 {
      var v, m := Half(w), n - 1;
      FewSteps(s);
      var p, r := Picked(w, s), WordSum(v, m, 1, Step(s));
      WordSumIsLinear(w, n, 1, p, r);
      // what was picked, and the sum over the rest of it
      FewSteps(p);
      PickedLaws(w, s, s);
      WordSumOfPicked(v, m, 1, w, Step(s));
      // the rest, picked once more, and its own square
      FewSteps(r);
      WordSumOfStep(v, m, 1, Step(s));
      WordSquare(v, m, Step(Step(s)));
      MixedCancel(p, Picked(w, r), WordSum(v, m, 1, Step(r)));
    }
  }

  lemma MixedCancel(p: Pair, r: Pair, q: Pair)
    ensures PairSum(PairSum(p, r), PairSum(r, q)) == PairSum(p, q)
  {
    hide PairSum;
    PairSumAssoc(p, r, PairSum(r, q));
    PairSumAssoc(r, r, q);
    PairSumLaws(r, r);
    PairSumLaws(q, q);
  }

  lemma {:induction false} WordSumsCommute(w: bv64, n: nat, v: bv64, s: Pair)
    ensures WordSum(w, n, 1, WordSum(v, 64, 1, s)) == WordSum(v, 64, 1, WordSum(w, n, 1, s))
    decreases n
  {
    hide Step, Steps, PairSum, Picked;
    if n == 0 {
      WordSumOfZero(v, 64, 1);
    } else {
      FewSteps(s);
      FewSteps(WordSum(v, 64, 1, s));
      WordSumsCommute(Half(w), n - 1, v, Step(s));
      WordSumOfStep(v, 64, 1, s);
      WordSumOfPicked(v, 64, 1, w, s);
      WordSumIsLinear(v, 64, 1, Picked(w, s), WordSum(Half(w), n - 1, 1, Step(s)));
    }
  }

  /** A mask applied twice selects every other step. */
  lemma MaskSquare(m: Mask, s: Pair)
    ensures MaskSum(m, 1, MaskSum(m, 1, s)) == MaskSum(m, 2, s)
  {
    hide WordSum, PairSum, Steps;
    var low, high := WordSum(m.low, 64, 1, s), WordSum(m.high, 64, 1, Steps(s, 64));
    WordSumIsLinear(m.low, 64, 1, low, high);
    StepsAreLinear(low, high, 64);
    WordSumIsLinear(m.high, 64, 1, Steps(low, 64), Steps(high, 64));
    WordSumOfSteps(m.low, 64, 1, s, 64);
    WordSumsCommute(m.low, 64, m.high, Steps(s, 64));
    WordSumOfSteps(m.high, 64, 1, Steps(s, 64), 64);
    StepsAdd(s, 64, 64);
    WordSquare(m.low, 64, s);
    WordSquare(m.high, 64, Steps(s, 128));
    MixedCancel(WordSum(m.low, 64, 2, s), WordSum(m.low, 64, 1, high), WordSum(m.high, 64, 2, Steps(s, 128)));
  }

  lemma WordSumsOfSteps(w: bv64, v: bv64, j: nat, k: nat, s: Pair)
    ensures WordSum(w, 64, 1, Steps(WordSum(v, 64, 1, Steps(s, j)), k))
         == WordSum(v, 64, 1, Steps(WordSum(w, 64, 1, Steps(s, k)), j))
  {
    hide WordSum, Steps;
    WordSumOfSteps(v, 64, 1, Steps(s, j), k);
    WordSumOfSteps(w, 64, 1, Steps(s, k), j);
    WordSumsCommute(w, 64, v, Steps(Steps(s, j), k));
    StepsAdd(s, j, k);
    StepsAdd(s, k, j);
  }

  /** Two masks commute. */
  lemma MaskSumsCommute(m: Mask, q: Mask, s: Pair)
    ensures MaskSum(m, 1, MaskSum(q, 1, s)) == MaskSum(q, 1, MaskSum(m, 1, s))
  {
    hide WordSum, PairSum, Steps;
    var a, b := WordSum(m.low, 64, 1, s), WordSum(m.high, 64, 1, Steps(s, 64));
    var c, e := WordSum(q.low, 64, 1, s), WordSum(q.high, 64, 1, Steps(s, 64));
    TwoByTwo(m, c, e);
    TwoByTwo(q, a, b);
    WordSumsCommute(m.low, 64, q.low, s);
    MixedWords(m, q, s);
    PairSumRegroups(WordSum(m.low, 64, 1, c), WordSum(m.low, 64, 1, e),
                    WordSum(m.high, 64, 1, Steps(c, 64)), WordSum(m.high, 64, 1, Steps(e, 64)));
  }

  lemma TwoByTwo(m: Mask, c: Pair, e: Pair)
    ensures MaskSum(m, 1, PairSum(c, e))
         == PairSum(PairSum(WordSum(m.low, 64, 1, c), WordSum(m.low, 64, 1, e)),
                    PairSum(WordSum(m.high, 64, 1, Steps(c, 64)), WordSum(m.high, 64, 1, Steps(e, 64))))
  {
    hide WordSum, PairSum, Steps;
    WordSumIsLinear(m.low, 64, 1, c, e);
    StepsAreLinear(c, e, 64);
    WordSumIsLinear(m.high, 64, 1, Steps(c, 64), Steps(e, 64));
  }

  lemma MixedWords(m: Mask, q: Mask, s: Pair)
    ensures WordSum(m.low, 64, 1, WordSum(q.high, 64, 1, Steps(s, 64)))
         == WordSum(q.high, 64, 1, Steps(WordSum(m.low, 64, 1, s), 64))
    ensures WordSum(m.high, 64, 1, Steps(WordSum(q.low, 64, 1, s), 64))
         == WordSum(q.low, 64, 1, WordSum(m.high, 64, 1, Steps(s, 64)))
    ensures WordSum(m.high, 64, 1, Steps(WordSum(q.high, 64, 1, Steps(s, 64)), 64))
         == WordSum(q.high, 64, 1, Steps(WordSum(m.high, 64, 1, Steps(s, 64)), 64))
  {
    hide WordSum, Steps;
    WordSumsCommute(m.low, 64, q.high, Steps(s, 64));
    WordSumOfSteps(m.low, 64, 1, s, 64);
    WordSumsCommute(q.low, 64, m.high, Steps(s, 64));
    WordSumOfSteps(q.low, 64, 1, s, 64);
    WordSumsOfSteps(m.high, q.high, 64, 64, s);
  }
}

/** The claim of include/rng.hpp that one jump is 2^64 steps. Sums over the orbit of one state
    are read off tables; 64 squarings lead from one step to the mask of the jump, and the
    sums reach every state. */
module JumpAhead {
  import opened BitLaws
  import opened BitWords
  import opened Xoroshiro

  /** The state whose orbit is followed. */
  const SEED := Pair(1, 0)

  // ----- reading sums off a table -----------------------------------------

  function JoinedPairs(a: Pair, b: Pair, c: Pair, d: Pair): Pair
  {
    Pair(Joined(a.s0, b.s0, c.s0, d.s0), Joined(a.s1, b.s1, c.s1, d.s1))
  }

  lemma PickedIs(w: bv64, s: Pair)
    ensures Picked(w, s) == Pair(PickedWord(w, s.s0), PickedWord(w, s.s1))
  {
  }

  lemma JoinedPairsIs(a: Pair, b: Pair, c: Pair, d: Pair)
    ensures JoinedPairs(a, b, c, d) == PairSum(a, PairSum(b, PairSum(c, d)))
  {
    hide Joined, Sum;
    JoinedIs(a.s0, b.s0, c.s0, d.s0);
    JoinedIs(a.s1, b.s1, c.s1, d.s1);
  }

  /** Four sums in front of a rest. */
  lemma JoinedBefore(a: Pair, b: Pair, c: Pair, d: Pair, rest: Pair)
    ensures PairSum(a, PairSum(b, PairSum(c, PairSum(d, rest)))) == PairSum(JoinedPairs(a, b, c, d), rest)
  {
    hide PairSum, JoinedPairs;
    JoinedPairsIs(a, b, c, d);
    PairSumAssoc(c, d, rest);
    PairSumAssoc(b, PairSum(c, d), rest);
    PairSumAssoc(a, PairSum(b, PairSum(c, d)), rest);
  }

  function FourPairs(w: bv64, a: Pair, b: Pair, c: Pair, d: Pair): Pair
  {
    Pair(Four(w, a.s0, b.s0, c.s0, d.s0), Four(w, a.s1, b.s1, c.s1, d.s1))
  }

  lemma FourPairsIs(w: bv64, a: Pair, b: Pair, c: Pair, d: Pair)
    ensures FourPairs(w, a, b, c, d)
         == JoinedPairs(Picked(w, a), Picked(Half(w), b), Picked(Half(Half(w)), c), Picked(Half(Half(Half(w))), d))
  {
    hide Four, Joined, Picked, PickedWord, Half;
    HalvesAre(w);
    FourIs(w, a.s0, b.s0, c.s0, d.s0);
    FourIs(w, a.s1, b.s1, c.s1, d.s1);
    PickedIs(w, a);
    PickedIs(Half(w), b);
    PickedIs(Half(Half(w)), c);
    PickedIs(Half(Half(Half(w))), d);
  }

  lemma OneMore(w: bv64, n: nat, d: nat, a: Pair)
    ensures WordSum(w, n + 1, d, a) == PairSum(Picked(w, a), WordSum(Half(w), n, d, Steps(a, d)))
  {
  }

  lemma FourSteps(w: bv64, n: nat, d: nat, a: Pair, b: Pair, c: Pair, e: Pair)
    requires Steps(a, d) == b && Steps(b, d) == c && Steps(c, d) == e
    ensures WordSum(w, n + 4, d, a) == PairSum(FourPairs(w, a, b, c, e), WordSum(By4(w), n, d, Steps(e, d)))
  {
    hide WordSum, Steps, PairSum, FourPairs, JoinedPairs, Picked, Half, By4;
    var x, y, z := Half(w), Half(Half(w)), Half(Half(Half(w)));
    HalvesAre(w);
    OneMore(w, n + 3, d, a);
    OneMore(x, n + 2, d, b);
    OneMore(y, n + 1, d, c);
    OneMore(z, n, d, e);
    FourPairsIs(w, a, b, c, e);
    JoinedBefore(Picked(w, a), Picked(x, b), Picked(y, c), Picked(z, e), WordSum(By4(w), n, d, Steps(e, d)));
  }

  /** One step or two. */
  function Leap(d: nat, s: Pair): Pair
  {
    if d == 2 then Step(Step(s)) else Step(s)
  }

  lemma LeapIs(d: nat, s: Pair)
    requires 1 <= d <= 2
    ensures Leap(d, s) == Steps(s, d)
  {
    hide Step;
    FewSteps(s);
  }

  /** Four states in a row, and the one behind them. */
  predicate Row(d: nat, a: Pair, b: Pair, c: Pair, e: Pair, next: Pair)
  {
    1 <= d <= 2 && Leap(d, a) == b && Leap(d, b) == c && Leap(d, c) == e && Leap(d, e) == next
  }

  /** Four terms of a sum are read off the states in a row. */
  lemma RowSum(w: bv64, n: nat, d: nat, a: Pair, b: Pair, c: Pair, e: Pair, next: Pair)
    requires Row(d, a, b, c, e, next)
    ensures WordSum(w, n + 4, d, a) == PairSum(FourPairs(w, a, b, c, e), WordSum(By4(w), n, d, next))
    ensures Steps(a, 4 * d) == next
  {
    hide WordSum, Steps, PairSum, FourPairs, Leap, By4;
    LeapIs(d, a);
    LeapIs(d, b);
    LeapIs(d, c);
    LeapIs(d, e);
    FourSteps(w, n, d, a, b, c, e);
    FourInARow(d, a, b, c, e, next);
  }

  lemma FourInARow(d: nat, a: Pair, b: Pair, c: Pair, e: Pair, next: Pair)
    requires Steps(a, d) == b && Steps(b, d) == c && Steps(c, d) == e && Steps(e, d) == next
    ensures Steps(a, 4 * d) == next
  {
    hide Steps;
    StepsAdd(a, d, d);
    StepsAdd(a, 2 * d, d);
    StepsAdd(a, 3 * d, d);
  }

  function SixteenPairs(w: bv64,
                        a: Pair, b: Pair, c: Pair, d: Pair, e: Pair, f: Pair, g: Pair, h: Pair,
                        i: Pair, j: Pair, k: Pair, l: Pair, m: Pair, n: Pair, o: Pair, p: Pair): Pair
  {
    Pair(Sixteen(w, a.s0, b.s0, c.s0, d.s0, e.s0, f.s0, g.s0, h.s0, i.s0, j.s0, k.s0, l.s0, m.s0, n.s0, o.s0, p.s0),
         Sixteen(w, a.s1, b.s1, c.s1, d.s1, e.s1, f.s1, g.s1, h.s1, i.s1, j.s1, k.s1, l.s1, m.s1, n.s1, o.s1, p.s1))
  }

  lemma SixteenPairsIs(w: bv64,
                       a: Pair, b: Pair, c: Pair, d: Pair, e: Pair, f: Pair, g: Pair, h: Pair,
                       i: Pair, j: Pair, k: Pair, l: Pair, m: Pair, n: Pair, o: Pair, p: Pair)
    ensures SixteenPairs(w, a, b, c, d, e, f, g, h, i, j, k, l, m, n, o, p)
         == JoinedPairs(FourPairs(w, a, b, c, d), FourPairs(By4(w), e, f, g, h), FourPairs(By4(By4(w)), i, j, k, l),
                  FourPairs(By4(By4(By4(w))), m, n, o, p))
  {
    hide Sixteen, Four, Joined, By4;
    SixteenIs(w, a.s0, b.s0, c.s0, d.s0, e.s0, f.s0, g.s0, h.s0, i.s0, j.s0, k.s0, l.s0, m.s0, n.s0, o.s0, p.s0);
    SixteenIs(w, a.s1, b.s1, c.s1, d.s1, e.s1, f.s1, g.s1, h.s1, i.s1, j.s1, k.s1, l.s1, m.s1, n.s1, o.s1, p.s1);
  }

  lemma FourRows(d: nat, a: Pair, e: Pair, i: Pair, m: Pair, next: Pair)
    requires Steps(a, 4 * d) == e && Steps(e, 4 * d) == i && Steps(i, 4 * d) == m && Steps(m, 4 * d) == next
    ensures Steps(a, 16 * d) == next
  {
    hide Steps;
    StepsAdd(a, 4 * d, 4 * d);
    StepsAdd(i, 4 * d, 4 * d);
    StepsAdd(a, 8 * d, 8 * d);
  }

  /** Sixteen terms of a sum are read off four rows. */
  lemma FourRowsSum(w: bv64, count: nat, stride: nat,
                    a: Pair, b: Pair, c: Pair, d: Pair, e: Pair, f: Pair, g: Pair, h: Pair,
                    i: Pair, j: Pair, k: Pair, l: Pair, m: Pair, n: Pair, o: Pair, p: Pair, next: Pair)
    requires Row(stride, a, b, c, d, e) && Row(stride, e, f, g, h, i)
    requires Row(stride, i, j, k, l, m) && Row(stride, m, n, o, p, next)
    ensures WordSum(w, count + 16, stride, a)
         == PairSum(SixteenPairs(w, a, b, c, d, e, f, g, h, i, j, k, l, m, n, o, p), WordSum(By16(w), count, stride, next))
    ensures Steps(a, 16 * stride) == next
  {
    hide WordSum, Steps, PairSum, JoinedPairs, FourPairs, SixteenPairs, Row, By4, By16;
    var x, y, z := By4(w), By4(By4(w)), By4(By4(By4(w)));
    FoursAre(w);
    SixteenPairsIs(w, a, b, c, d, e, f, g, h, i, j, k, l, m, n, o, p);
    RowSum(w, count + 12, stride, a, b, c, d, e);
    RowSum(x, count + 8, stride, e, f, g, h, i);
    RowSum(y, count + 4, stride, i, j, k, l, m);
    RowSum(z, count, stride, m, n, o, p, next);
    JoinedBefore(FourPairs(w, a, b, c, d), FourPairs(x, e, f, g, h), FourPairs(y, i, j, k, l), FourPairs(z, m, n, o, p),
                WordSum(By16(w), count, stride, next));
    FourRows(stride, a, e, i, m, next);
  }

  // ----- the orbit --------------------------------------------------------

  /** The sum over the steps 0, 1, ..., 15. */
  function Orbit0(w: bv64): Pair
  {
    Pair(Sixteen(w, 0x1, 0x80000000004001, 0x4401010000021, 0x80442010404121,
                    0x58c120310046100, 0x81c8000259094031, 0x111c55701485c420, 0x4edcd11b404c87e6,
                    0xdd019050150f6a5, 0x9619c5b2510e4b23, 0x4e526d8f531cfa88, 0x3251c4f353817751,
                    0xa97bc4b61092023c, 0xd5bc84b0d53ba813, 0x1e44bdf0d9d67932, 0xb3fb2c9ac5100b33),
         Sixteen(w, 0x0, 0x1000000000, 0x4001008000100, 0x8000121000040001,
                    0x444120808056301, 0x801020101c8000b1, 0x589408001d820124, 0x907c50449885d700,
                    0x8c950e6dea0815fd, 0xb58e35881451768e, 0x55f3dad2397f03a4, 0xa63f92c1ba1b75d6,
                    0x99a0287946e5632e, 0x677611230dbeccf5, 0x88564e6b2ca9593d, 0x57f200f9612f39bf))
  }

  lemma Orbit0Is(w: bv64, n: nat)
    ensures WordSum(w, n + 16, 1, Pair(0x1, 0x0)) ==
            PairSum(Orbit0(w), WordSum(By16(w), n, 1, Pair(0x36c838fa25feba89, 0x43f328ce4092c63a)))
    ensures Steps(Pair(0x1, 0x0), 16) == Pair(0x36c838fa25feba89, 0x43f328ce4092c63a)
  {
    hide WordSum, Steps, PairSum, Sixteen, By16;
    FourRowsSum(w, n, 1,
                Pair(0x1, 0x0), Pair(0x80000000004001, 0x1000000000),
                Pair(0x4401010000021, 0x4001008000100), Pair(0x80442010404121, 0x8000121000040001),
                Pair(0x58c120310046100, 0x444120808056301), Pair(0x81c8000259094031, 0x801020101c8000b1),
                Pair(0x111c55701485c420, 0x589408001d820124), Pair(0x4edcd11b404c87e6, 0x907c50449885d700),
                Pair(0xdd019050150f6a5, 0x8c950e6dea0815fd), Pair(0x9619c5b2510e4b23, 0xb58e35881451768e),
                Pair(0x4e526d8f531cfa88, 0x55f3dad2397f03a4), Pair(0x3251c4f353817751, 0xa63f92c1ba1b75d6),
                Pair(0xa97bc4b61092023c, 0x99a0287946e5632e), Pair(0xd5bc84b0d53ba813, 0x677611230dbeccf5),
                Pair(0x1e44bdf0d9d67932, 0x88564e6b2ca9593d), Pair(0xb3fb2c9ac5100b33, 0x57f200f9612f39bf),
                Pair(0x36c838fa25feba89, 0x43f328ce4092c63a));
  }

  /** The sum over the steps 16, 17, ..., 31. */
  function Orbit16(w: bv64): Pair
  {
    Pair(Sixteen(w, 0x36c838fa25feba89, 0xf5ad6d73075243ee, 0xfd8165ca3d4ae989, 0x2c9bad0acd8d28b8,
                    0x12f541a184931a2c, 0x4bcbdbe17cea8fbe, 0xa09bff23f3915873, 0x5473db5fcf95ddb7,
                    0x9fcfda01cd2691f7, 0xbe9664412fe3ec65, 0xe50de8afa1f56469, 0xbdff160bd215f716,
                    0xaf71522d3ae068a5, 0x59b8dd2e74ae9c89, 0x9620dcbf240f7c3, 0x3c3d6949f6a43889),
         Sixteen(w, 0x43f328ce4092c63a, 0x56c7cb3753b10346, 0x4e340a8a36aa6445, 0xbe08dccb3b56f400,
                    0x6dbdcb8929371c1f, 0xda406337f488a28a, 0x8622d34918bb8d68, 0xb2ad51b26b92c6ae,
                    0x4071b19e6de8aeda, 0xce3f2ddfbe6b9fa, 0x405559fb275969cd, 0x6ac0da4a558b1548,
                    0x79ee25ed73fcc418, 0x91cacbdd69f77c04, 0xd59e08dc87216f31, 0x56198f2dcfc05177))
  }

  lemma Orbit16Is(w: bv64, n: nat)
    ensures WordSum(w, n + 16, 1, Pair(0x36c838fa25feba89, 0x43f328ce4092c63a)) ==
            PairSum(Orbit16(w), WordSum(By16(w), n, 1, Pair(0x1723f68987e0bbe2, 0x96469fe6a24e6643)))
    ensures Steps(Pair(0x36c838fa25feba89, 0x43f328ce4092c63a), 16) == Pair(0x1723f68987e0bbe2, 0x96469fe6a24e6643)
  {
    hide WordSum, Steps, PairSum, Sixteen, By16;
    FourRowsSum(w, n, 1,
                Pair(0x36c838fa25feba89, 0x43f328ce4092c63a), Pair(0xf5ad6d73075243ee, 0x56c7cb3753b10346),
                Pair(0xfd8165ca3d4ae989, 0x4e340a8a36aa6445), Pair(0x2c9bad0acd8d28b8, 0xbe08dccb3b56f400),
                Pair(0x12f541a184931a2c, 0x6dbdcb8929371c1f), Pair(0x4bcbdbe17cea8fbe, 0xda406337f488a28a),
                Pair(0xa09bff23f3915873, 0x8622d34918bb8d68), Pair(0x5473db5fcf95ddb7, 0xb2ad51b26b92c6ae),
                Pair(0x9fcfda01cd2691f7, 0x4071b19e6de8aeda), Pair(0xbe9664412fe3ec65, 0xce3f2ddfbe6b9fa),
                Pair(0xe50de8afa1f56469, 0x405559fb275969cd), Pair(0xbdff160bd215f716, 0x6ac0da4a558b1548),
                Pair(0xaf71522d3ae068a5, 0x79ee25ed73fcc418), Pair(0x59b8dd2e74ae9c89, 0x91cacbdd69f77c04),
                Pair(0x9620dcbf240f7c3, 0xd59e08dc87216f31), Pair(0x3c3d6949f6a43889, 0x56198f2dcfc05177),
                Pair(0x1723f68987e0bbe2, 0x96469fe6a24e6643));
  }

  /** The sum over the steps 32, 33, ..., 47. */
  function Orbit32(w: bv64): Pair
  {
    Pair(Sixteen(w, 0x1723f68987e0bbe2, 0x2a3531ffd6056dfc, 0xb434016bc17b79b8, 0x813298b108e47a78,
                    0xcb10fba198761089, 0xbe3a073eb99e6420, 0xba8e7d4512326545, 0x51e9877d84fc27d2,
                    0xbe4eea6e0086fac7, 0x8341349fff56aea7, 0x18c8932e12e1f7dd, 0x3687e6b488cd490,
                    0xacabb2d9964d2aaa, 0x2bdce4edfa8cc130, 0xee8c8a9b5496aaa3, 0xbb60911cda024a08),
         Sixteen(w, 0x96469fe6a24e6643, 0x5aedda18165696f2, 0x53fb0e70d8ebe7c, 0xcf5c7c4b10bb18cc,
                    0x85f62b44e6ee4fa1, 0xe985f284ee6d0e57, 0x7f36a7757bff5ba5, 0x9cd3ee0c5b8da306,
                    0xf7184d4cd3a6971d, 0x3206dda4956a722d, 0xa3cdc8ab147e93b6, 0x69f646bbb055b850,
                    0x8d96cc06a9e38d0f, 0xfaea7a5213d7edf3, 0x95b2cc3d1369ebfe, 0x7ff415d7b3e46a64))
  }

  lemma Orbit32Is(w: bv64, n: nat)
    ensures WordSum(w, n + 16, 1, Pair(0x1723f68987e0bbe2, 0x96469fe6a24e6643)) ==
            PairSum(Orbit32(w), WordSum(By16(w), n, 1, Pair(0xe1fbeefa6f902149, 0x9e6206cc49484cb6)))
    ensures Steps(Pair(0x1723f68987e0bbe2, 0x96469fe6a24e6643), 16) == Pair(0xe1fbeefa6f902149, 0x9e6206cc49484cb6)
  {
    hide WordSum, Steps, PairSum, Sixteen, By16;
    FourRowsSum(w, n, 1,
                Pair(0x1723f68987e0bbe2, 0x96469fe6a24e6643), Pair(0x2a3531ffd6056dfc, 0x5aedda18165696f2),
                Pair(0xb434016bc17b79b8, 0x53fb0e70d8ebe7c), Pair(0x813298b108e47a78, 0xcf5c7c4b10bb18cc),
                Pair(0xcb10fba198761089, 0x85f62b44e6ee4fa1), Pair(0xbe3a073eb99e6420, 0xe985f284ee6d0e57),
                Pair(0xba8e7d4512326545, 0x7f36a7757bff5ba5), Pair(0x51e9877d84fc27d2, 0x9cd3ee0c5b8da306),
                Pair(0xbe4eea6e0086fac7, 0xf7184d4cd3a6971d), Pair(0x8341349fff56aea7, 0x3206dda4956a722d),
                Pair(0x18c8932e12e1f7dd, 0xa3cdc8ab147e93b6), Pair(0x3687e6b488cd490, 0x69f646bbb055b850),
                Pair(0xacabb2d9964d2aaa, 0x8d96cc06a9e38d0f), Pair(0x2bdce4edfa8cc130, 0xfaea7a5213d7edf3),
                Pair(0xee8c8a9b5496aaa3, 0x95b2cc3d1369ebfe), Pair(0xbb60911cda024a08, 0x7ff415d7b3e46a64),
                Pair(0xe1fbeefa6f902149, 0x9e6206cc49484cb6));
  }

  /** The sum over the steps 48, 49, ..., 63. */
  function Orbit48(w: bv64): Pair
  {
    Pair(Sixteen(w, 0xe1fbeefa6f902149, 0xa1649c77409065ef, 0xabd2df8d3b0deebf, 0x493d237446195043,
                    0x28092bd2c6a629f4, 0x50bba5ae3f63399f, 0x167f0bbe8ce16934, 0xf17477ce949f4816,
                    0x5a6fce34162414c0, 0xdf28f3af186858e8, 0xb1988b8729822b2b, 0xe643378e3fadf2ee,
                    0x9f4013d9bdb61bb7, 0xeae6a0a354b60374, 0x7e3682dd97516b04, 0x330dca24e764f084),
         Sixteen(w, 0x9e6206cc49484cb6, 0x6d86dff7f99e8362, 0x90ee68dcce24380b, 0x529d6b43b3cb751f,
                    0x5d2255c1ba04837f, 0xca2aa8b752b7e137, 0xdd4d8a89a910d196, 0x5f1b8a2cb3281372,
                    0x7b75b64ae6ffde22, 0xdbcae2211a787ef, 0x9cfdf07d2945d8d0, 0xc7f3fb2d657bfa0,
                    0x9fa4d4eea3c083ce, 0xe76987900e4c7371, 0xafa70050d8f27335, 0xfa31831d191828d4))
  }

  lemma Orbit48Is(w: bv64, n: nat)
    ensures WordSum(w, n + 16, 1, Pair(0xe1fbeefa6f902149, 0x9e6206cc49484cb6)) ==
            PairSum(Orbit48(w), WordSum(By16(w), n, 1, Pair(0x996bb043da1b6a28, 0xe7cd850c93c4939f)))
    ensures Steps(Pair(0xe1fbeefa6f902149, 0x9e6206cc49484cb6), 16) == Pair(0x996bb043da1b6a28, 0xe7cd850c93c4939f)
  {
    hide WordSum, Steps, PairSum, Sixteen, By16;
    FourRowsSum(w, n, 1,
                Pair(0xe1fbeefa6f902149, 0x9e6206cc49484cb6), Pair(0xa1649c77409065ef, 0x6d86dff7f99e8362),
                Pair(0xabd2df8d3b0deebf, 0x90ee68dcce24380b), Pair(0x493d237446195043, 0x529d6b43b3cb751f),
                Pair(0x28092bd2c6a629f4, 0x5d2255c1ba04837f), Pair(0x50bba5ae3f63399f, 0xca2aa8b752b7e137),
                Pair(0x167f0bbe8ce16934, 0xdd4d8a89a910d196), Pair(0xf17477ce949f4816, 0x5f1b8a2cb3281372),
                Pair(0x5a6fce34162414c0, 0x7b75b64ae6ffde22), Pair(0xdf28f3af186858e8, 0xdbcae2211a787ef),
                Pair(0xb1988b8729822b2b, 0x9cfdf07d2945d8d0), Pair(0xe643378e3fadf2ee, 0xc7f3fb2d657bfa0),
                Pair(0x9f4013d9bdb61bb7, 0x9fa4d4eea3c083ce), Pair(0xeae6a0a354b60374, 0xe76987900e4c7371),
                Pair(0x7e3682dd97516b04, 0xafa70050d8f27335), Pair(0x330dca24e764f084, 0xfa31831d191828d4),
                Pair(0x996bb043da1b6a28, 0xe7cd850c93c4939f));
  }

  /** The sum over the steps 64, 65, ..., 79. */
  function Orbit64(w: bv64): Pair
  {
    Pair(Sixteen(w, 0x996bb043da1b6a28, 0xe7b952e0965f3402, 0xc950ca31144acf6c, 0xda7c13a3d2ab37c,
                    0x19e6d67bb0ddb34e, 0xd746975d9fd6153e, 0xcd1c9bb4b0f00e80, 0x486901904e7be403,
                    0x4b9205eeffa4e8a2, 0xe3f0cf019190a76a, 0xbb7995915d2a1ac, 0x6a43fdeafd556683,
                    0xc97769ca95e966f8, 0x661c906ca5391f19, 0xc989c95b732f5477, 0xd7e460d058276fe6),
         Sixteen(w, 0xe7cd850c93c4939f, 0x9dff9b77ea6354f4, 0xc3c60f67a46c9977, 0x26561b0a96c556b,
                    0x446e6170fc2a08a9, 0xcf7bbe75d88b70b4, 0x75d658a183d29284, 0x3229c04b8cac3153,
                    0x2d7d5507a40c1dbc, 0xba8f51e66ef50e95, 0xf65a9ff597f9ee7f, 0x22b4fd3fded06ac8,
                    0x3850c4b48f700d52, 0xa996baaf127ad7e1, 0x743c8f8cf8a2ac3b, 0xb8df84cbdb546d78))
  }

  lemma Orbit64Is(w: bv64, n: nat)
    ensures WordSum(w, n + 16, 1, Pair(0x996bb043da1b6a28, 0xe7cd850c93c4939f)) ==
            PairSum(Orbit64(w), WordSum(By16(w), n, 1, Pair(0x6556f6f72bf89129, 0x373029e6f3be41b8)))
    ensures Steps(Pair(0x996bb043da1b6a28, 0xe7cd850c93c4939f), 16) == Pair(0x6556f6f72bf89129, 0x373029e6f3be41b8)
  {
    hide WordSum, Steps, PairSum, Sixteen, By16;
    FourRowsSum(w, n, 1,
                Pair(0x996bb043da1b6a28, 0xe7cd850c93c4939f), Pair(0xe7b952e0965f3402, 0x9dff9b77ea6354f4),
                Pair(0xc950ca31144acf6c, 0xc3c60f67a46c9977), Pair(0xda7c13a3d2ab37c, 0x26561b0a96c556b),
                Pair(0x19e6d67bb0ddb34e, 0x446e6170fc2a08a9), Pair(0xd746975d9fd6153e, 0xcf7bbe75d88b70b4),
                Pair(0xcd1c9bb4b0f00e80, 0x75d658a183d29284), Pair(0x486901904e7be403, 0x3229c04b8cac3153),
                Pair(0x4b9205eeffa4e8a2, 0x2d7d5507a40c1dbc), Pair(0xe3f0cf019190a76a, 0xba8f51e66ef50e95),
                Pair(0xbb7995915d2a1ac, 0xf65a9ff597f9ee7f), Pair(0x6a43fdeafd556683, 0x22b4fd3fded06ac8),
                Pair(0xc97769ca95e966f8, 0x3850c4b48f700d52), Pair(0x661c906ca5391f19, 0xa996baaf127ad7e1),
                Pair(0xc989c95b732f5477, 0x743c8f8cf8a2ac3b), Pair(0xd7e460d058276fe6, 0xb8df84cbdb546d78),
                Pair(0x6556f6f72bf89129, 0x373029e6f3be41b8));
  }

  /** The sum over the steps 80, 81, ..., 95. */
  function Orbit80(w: bv64): Pair
  {
    Pair(Sixteen(w, 0x6556f6f72bf89129, 0x7110027b17f76cd9, 0xdb1e0f09ab606672, 0xf0be36d4c4120a2,
                    0x2f9d364fd4a9745d, 0x6c6f513947ff47f1, 0x41c772aa2529116b, 0xb0637492a3751d2b,
                    0x9ee6fee5f1570527, 0x32f8c90ff10a84ed, 0x49033f73c4b2c600, 0xb25dba733574a07c,
                    0x2bf60ab80362afa0, 0xd6ced354ae7966b4, 0x1ffeaf433031c118, 0x9e4cfd9cb8b34f61),
         Sixteen(w, 0x373029e6f3be41b8, 0x846d0915266df11d, 0x19a9dc4f57d0b6e3, 0xcb0d091c2b7d346f,
                    0x73c14cdc406ea716, 0x4c7d34b5c5c7a939, 0x238eec82012658c8, 0x40f49a362499e282,
                    0x7ecffa9f097eea48, 0x829ef6fe029047af, 0x39ac342b0663ff1f, 0x2d1391f70af0b58c,
                    0xf8415f09f4e2b843, 0x78017e3d3b755b1f, 0x50c3dabaecfad699, 0xccb17814f3d75f9d))
  }

  lemma Orbit80Is(w: bv64, n: nat)
    ensures WordSum(w, n + 16, 1, Pair(0x6556f6f72bf89129, 0x373029e6f3be41b8)) ==
            PairSum(Orbit80(w), WordSum(By16(w), n, 1, Pair(0x8350b12f8107495b, 0xb6410fc52fd85884)))
    ensures Steps(Pair(0x6556f6f72bf89129, 0x373029e6f3be41b8), 16) == Pair(0x8350b12f8107495b, 0xb6410fc52fd85884)
  {
    hide WordSum, Steps, PairSum, Sixteen, By16;
    FourRowsSum(w, n, 1,
                Pair(0x6556f6f72bf89129, 0x373029e6f3be41b8), Pair(0x7110027b17f76cd9, 0x846d0915266df11d),
                Pair(0xdb1e0f09ab606672, 0x19a9dc4f57d0b6e3), Pair(0xf0be36d4c4120a2, 0xcb0d091c2b7d346f),
                Pair(0x2f9d364fd4a9745d, 0x73c14cdc406ea716), Pair(0x6c6f513947ff47f1, 0x4c7d34b5c5c7a939),
                Pair(0x41c772aa2529116b, 0x238eec82012658c8), Pair(0xb0637492a3751d2b, 0x40f49a362499e282),
                Pair(0x9ee6fee5f1570527, 0x7ecffa9f097eea48), Pair(0x32f8c90ff10a84ed, 0x829ef6fe029047af),
                Pair(0x49033f73c4b2c600, 0x39ac342b0663ff1f), Pair(0xb25dba733574a07c, 0x2d1391f70af0b58c),
                Pair(0x2bf60ab80362afa0, 0xf8415f09f4e2b843), Pair(0xd6ced354ae7966b4, 0x78017e3d3b755b1f),
                Pair(0x1ffeaf433031c118, 0x50c3dabaecfad699), Pair(0x9e4cfd9cb8b34f61, 0xccb17814f3d75f9d),
                Pair(0x8350b12f8107495b, 0xb6410fc52fd85884));
  }

  /** The sum over the steps 96, 97, ..., 111. */
  function Orbit96(w: bv64): Pair
  {
    Pair(Sixteen(w, 0x8350b12f8107495b, 0xf76abd05fd68527b, 0xcf5dbeb4c1b948f8, 0xe8e8877ae3871b36,
                    0xcc3e1361d0c9e2ed, 0xe583cd2f6c3ca3ba, 0x6f4eb8fe5392b9e, 0xdbe7e3c9d04eae6f,
                    0x6f38af6ad174fef3, 0x6499b215d6f542e8, 0x45f043905e46ea8f, 0x586d52a330eafff7,
                    0x7b355e512275dd32, 0x8b44905b743ecfa0, 0xb5eb289dcdfc7873, 0x42728d30c7eecd1c),
         Sixteen(w, 0xb6410fc52fd85884, 0xedf11df3511beeaa, 0xc73bcd11a9ba0f6a, 0x8034792086673a56,
                    0x5e0216068dcfe5a6, 0xd06074b923c05675, 0xffcf5cf35e3b9964, 0xb02b2faf93bb77cb,
                    0x3f5d9a46bcccc664, 0xdb838975065352c6, 0xa6102ebf1a3b60d, 0xfe55c824f91417ba,
                    0x9fee84da6389a87c, 0x1fc754ee4dbda8b4, 0x98367149483c4b53, 0x5c033202ddd59d48))
  }

  lemma Orbit96Is(w: bv64, n: nat)
    ensures WordSum(w, n + 16, 1, Pair(0x8350b12f8107495b, 0xb6410fc52fd85884)) ==
            PairSum(Orbit96(w), WordSum(By16(w), n, 1, Pair(0xff9c00fa564da732, 0xa3b50541e71bf321)))
    ensures Steps(Pair(0x8350b12f8107495b, 0xb6410fc52fd85884), 16) == Pair(0xff9c00fa564da732, 0xa3b50541e71bf321)
  {
    hide WordSum, Steps, PairSum, Sixteen, By16;
    FourRowsSum(w, n, 1,
                Pair(0x8350b12f8107495b, 0xb6410fc52fd85884), Pair(0xf76abd05fd68527b, 0xedf11df3511beeaa),
                Pair(0xcf5dbeb4c1b948f8, 0xc73bcd11a9ba0f6a), Pair(0xe8e8877ae3871b36, 0x8034792086673a56),
                Pair(0xcc3e1361d0c9e2ed, 0x5e0216068dcfe5a6), Pair(0xe583cd2f6c3ca3ba, 0xd06074b923c05675),
                Pair(0x6f4eb8fe5392b9e, 0xffcf5cf35e3b9964), Pair(0xdbe7e3c9d04eae6f, 0xb02b2faf93bb77cb),
                Pair(0x6f38af6ad174fef3, 0x3f5d9a46bcccc664), Pair(0x6499b215d6f542e8, 0xdb838975065352c6),
                Pair(0x45f043905e46ea8f, 0xa6102ebf1a3b60d), Pair(0x586d52a330eafff7, 0xfe55c824f91417ba),
                Pair(0x7b355e512275dd32, 0x9fee84da6389a87c), Pair(0x8b44905b743ecfa0, 0x1fc754ee4dbda8b4),
                Pair(0xb5eb289dcdfc7873, 0x98367149483c4b53), Pair(0x42728d30c7eecd1c, 0x5c033202ddd59d48),
                Pair(0xff9c00fa564da732, 0xa3b50541e71bf321));
  }

  /** The sum over the steps 112, 113, ..., 127. */
  function Orbit112(w: bv64): Pair
  {
    Pair(Sixteen(w, 0xff9c00fa564da732, 0x843827ee5979b2c0, 0xa8a99c32169b95a2, 0x5819f96644075d1,
                    0x5e551f24ff5aad5b, 0xf2bb1916ab0e227d, 0x9d1fa98c5987f612, 0x531444335c40cfae,
                    0x33f00c84d3a9f455, 0xba369146a14d36ee, 0x5b770e044550aafc, 0x86db6205af6c4200,
                    0x8af7ea9032567365, 0xca8924384dde6d0c, 0x59944f6a4e7e6fc2, 0x8ee8213f9fb966e6),
         Sixteen(w, 0xa3b50541e71bf321, 0x15654135c2905bbb, 0xbe9e97b915d66db9, 0x34df81b16370b8b0,
                    0x730cd61315e1e270, 0xabb4f2b2d59c937e, 0xe92b103590feba47, 0x9794c557434b9b9c,
                    0xf0b5432c48081641, 0xba1e214c3454fa89, 0x519cc670028b00a9, 0x7dbaa550aebc8744,
                    0x1d0c544fb61c7550, 0x44a063597fbbedf8, 0x26580f48e2947613, 0xcea19d17fcc4022a))
  }

  lemma Orbit112Is(w: bv64, n: nat)
    ensures WordSum(w, n + 16, 1, Pair(0xff9c00fa564da732, 0xa3b50541e71bf321)) ==
            PairSum(Orbit112(w), WordSum(By16(w), n, 1, Pair(0x5c04d0e7a581b87f, 0x37d64cc4049bc286)))
    ensures Steps(Pair(0xff9c00fa564da732, 0xa3b50541e71bf321), 16) == Pair(0x5c04d0e7a581b87f, 0x37d64cc4049bc286)
  {
    hide WordSum, Steps, PairSum, Sixteen, By16;
    FourRowsSum(w, n, 1,
                Pair(0xff9c00fa564da732, 0xa3b50541e71bf321), Pair(0x843827ee5979b2c0, 0x15654135c2905bbb),
                Pair(0xa8a99c32169b95a2, 0xbe9e97b915d66db9), Pair(0x5819f96644075d1, 0x34df81b16370b8b0),
                Pair(0x5e551f24ff5aad5b, 0x730cd61315e1e270), Pair(0xf2bb1916ab0e227d, 0xabb4f2b2d59c937e),
                Pair(0x9d1fa98c5987f612, 0xe92b103590feba47), Pair(0x531444335c40cfae, 0x9794c557434b9b9c),
                Pair(0x33f00c84d3a9f455, 0xf0b5432c48081641), Pair(0xba369146a14d36ee, 0xba1e214c3454fa89),
                Pair(0x5b770e044550aafc, 0x519cc670028b00a9), Pair(0x86db6205af6c4200, 0x7dbaa550aebc8744),
                Pair(0x8af7ea9032567365, 0x1d0c544fb61c7550), Pair(0xca8924384dde6d0c, 0x44a063597fbbedf8),
                Pair(0x59944f6a4e7e6fc2, 0x26580f48e2947613), Pair(0x8ee8213f9fb966e6, 0xcea19d17fcc4022a),
                Pair(0x5c04d0e7a581b87f, 0x37d64cc4049bc286));
  }

  /** The sum over the steps 0, 2, ..., 30. */
  function Even0(w: bv64): Pair
  {
    Pair(Sixteen(w, 0x1, 0x4401010000021, 0x58c120310046100, 0x111c55701485c420,
                    0xdd019050150f6a5, 0x4e526d8f531cfa88, 0xa97bc4b61092023c, 0x1e44bdf0d9d67932,
                    0x36c838fa25feba89, 0xfd8165ca3d4ae989, 0x12f541a184931a2c, 0xa09bff23f3915873,
                    0x9fcfda01cd2691f7, 0xe50de8afa1f56469, 0xaf71522d3ae068a5, 0x9620dcbf240f7c3),
         Sixteen(w, 0x0, 0x4001008000100, 0x444120808056301, 0x589408001d820124,
                    0x8c950e6dea0815fd, 0x55f3dad2397f03a4, 0x99a0287946e5632e, 0x88564e6b2ca9593d,
                    0x43f328ce4092c63a, 0x4e340a8a36aa6445, 0x6dbdcb8929371c1f, 0x8622d34918bb8d68,
                    0x4071b19e6de8aeda, 0x405559fb275969cd, 0x79ee25ed73fcc418, 0xd59e08dc87216f31))
  }

  lemma Even0Is(w: bv64, n: nat)
    ensures WordSum(w, n + 16, 2, Pair(0x1, 0x0)) ==
            PairSum(Even0(w), WordSum(By16(w), n, 2, Pair(0x1723f68987e0bbe2, 0x96469fe6a24e6643)))
    ensures Steps(Pair(0x1, 0x0), 32) == Pair(0x1723f68987e0bbe2, 0x96469fe6a24e6643)
  {
    hide WordSum, Steps, PairSum, Sixteen, By16;
    FourRowsSum(w, n, 2,
                Pair(0x1, 0x0), Pair(0x4401010000021, 0x4001008000100),
                Pair(0x58c120310046100, 0x444120808056301), Pair(0x111c55701485c420, 0x589408001d820124),
                Pair(0xdd019050150f6a5, 0x8c950e6dea0815fd), Pair(0x4e526d8f531cfa88, 0x55f3dad2397f03a4),
                Pair(0xa97bc4b61092023c, 0x99a0287946e5632e), Pair(0x1e44bdf0d9d67932, 0x88564e6b2ca9593d),
                Pair(0x36c838fa25feba89, 0x43f328ce4092c63a), Pair(0xfd8165ca3d4ae989, 0x4e340a8a36aa6445),
                Pair(0x12f541a184931a2c, 0x6dbdcb8929371c1f), Pair(0xa09bff23f3915873, 0x8622d34918bb8d68),
                Pair(0x9fcfda01cd2691f7, 0x4071b19e6de8aeda), Pair(0xe50de8afa1f56469, 0x405559fb275969cd),
                Pair(0xaf71522d3ae068a5, 0x79ee25ed73fcc418), Pair(0x9620dcbf240f7c3, 0xd59e08dc87216f31),
                Pair(0x1723f68987e0bbe2, 0x96469fe6a24e6643));
  }

  /** The sum over the steps 32, 34, ..., 62. */
  function Even32(w: bv64): Pair
  {
    Pair(Sixteen(w, 0x1723f68987e0bbe2, 0xb434016bc17b79b8, 0xcb10fba198761089, 0xba8e7d4512326545,
                    0xbe4eea6e0086fac7, 0x18c8932e12e1f7dd, 0xacabb2d9964d2aaa, 0xee8c8a9b5496aaa3,
                    0xe1fbeefa6f902149, 0xabd2df8d3b0deebf, 0x28092bd2c6a629f4, 0x167f0bbe8ce16934,
                    0x5a6fce34162414c0, 0xb1988b8729822b2b, 0x9f4013d9bdb61bb7, 0x7e3682dd97516b04),
         Sixteen(w, 0x96469fe6a24e6643, 0x53fb0e70d8ebe7c, 0x85f62b44e6ee4fa1, 0x7f36a7757bff5ba5,
                    0xf7184d4cd3a6971d, 0xa3cdc8ab147e93b6, 0x8d96cc06a9e38d0f, 0x95b2cc3d1369ebfe,
                    0x9e6206cc49484cb6, 0x90ee68dcce24380b, 0x5d2255c1ba04837f, 0xdd4d8a89a910d196,
                    0x7b75b64ae6ffde22, 0x9cfdf07d2945d8d0, 0x9fa4d4eea3c083ce, 0xafa70050d8f27335))
  }

  lemma Even32Is(w: bv64, n: nat)
    ensures WordSum(w, n + 16, 2, Pair(0x1723f68987e0bbe2, 0x96469fe6a24e6643)) ==
            PairSum(Even32(w), WordSum(By16(w), n, 2, Pair(0x996bb043da1b6a28, 0xe7cd850c93c4939f)))
    ensures Steps(Pair(0x1723f68987e0bbe2, 0x96469fe6a24e6643), 32) == Pair(0x996bb043da1b6a28, 0xe7cd850c93c4939f)
  {
    hide WordSum, Steps, PairSum, Sixteen, By16;
    FourRowsSum(w, n, 2,
                Pair(0x1723f68987e0bbe2, 0x96469fe6a24e6643), Pair(0xb434016bc17b79b8, 0x53fb0e70d8ebe7c),
                Pair(0xcb10fba198761089, 0x85f62b44e6ee4fa1), Pair(0xba8e7d4512326545, 0x7f36a7757bff5ba5),
                Pair(0xbe4eea6e0086fac7, 0xf7184d4cd3a6971d), Pair(0x18c8932e12e1f7dd, 0xa3cdc8ab147e93b6),
                Pair(0xacabb2d9964d2aaa, 0x8d96cc06a9e38d0f), Pair(0xee8c8a9b5496aaa3, 0x95b2cc3d1369ebfe),
                Pair(0xe1fbeefa6f902149, 0x9e6206cc49484cb6), Pair(0xabd2df8d3b0deebf, 0x90ee68dcce24380b),
                Pair(0x28092bd2c6a629f4, 0x5d2255c1ba04837f), Pair(0x167f0bbe8ce16934, 0xdd4d8a89a910d196),
                Pair(0x5a6fce34162414c0, 0x7b75b64ae6ffde22), Pair(0xb1988b8729822b2b, 0x9cfdf07d2945d8d0),
                Pair(0x9f4013d9bdb61bb7, 0x9fa4d4eea3c083ce), Pair(0x7e3682dd97516b04, 0xafa70050d8f27335),
                Pair(0x996bb043da1b6a28, 0xe7cd850c93c4939f));
  }

  /** The sum over the steps 64, 66, ..., 94. */
  function Even64(w: bv64): Pair
  {
    Pair(Sixteen(w, 0x996bb043da1b6a28, 0xc950ca31144acf6c, 0x19e6d67bb0ddb34e, 0xcd1c9bb4b0f00e80,
                    0x4b9205eeffa4e8a2, 0xbb7995915d2a1ac, 0xc97769ca95e966f8, 0xc989c95b732f5477,
                    0x6556f6f72bf89129, 0xdb1e0f09ab606672, 0x2f9d364fd4a9745d, 0x41c772aa2529116b,
                    0x9ee6fee5f1570527, 0x49033f73c4b2c600, 0x2bf60ab80362afa0, 0x1ffeaf433031c118),
         Sixteen(w, 0xe7cd850c93c4939f, 0xc3c60f67a46c9977, 0x446e6170fc2a08a9, 0x75d658a183d29284,
                    0x2d7d5507a40c1dbc, 0xf65a9ff597f9ee7f, 0x3850c4b48f700d52, 0x743c8f8cf8a2ac3b,
                    0x373029e6f3be41b8, 0x19a9dc4f57d0b6e3, 0x73c14cdc406ea716, 0x238eec82012658c8,
                    0x7ecffa9f097eea48, 0x39ac342b0663ff1f, 0xf8415f09f4e2b843, 0x50c3dabaecfad699))
  }

  lemma Even64Is(w: bv64, n: nat)
    ensures WordSum(w, n + 16, 2, Pair(0x996bb043da1b6a28, 0xe7cd850c93c4939f)) ==
            PairSum(Even64(w), WordSum(By16(w), n, 2, Pair(0x8350b12f8107495b, 0xb6410fc52fd85884)))
    ensures Steps(Pair(0x996bb043da1b6a28, 0xe7cd850c93c4939f), 32) == Pair(0x8350b12f8107495b, 0xb6410fc52fd85884)
  {
    hide WordSum, Steps, PairSum, Sixteen, By16;
    FourRowsSum(w, n, 2,
                Pair(0x996bb043da1b6a28, 0xe7cd850c93c4939f), Pair(0xc950ca31144acf6c, 0xc3c60f67a46c9977),
                Pair(0x19e6d67bb0ddb34e, 0x446e6170fc2a08a9), Pair(0xcd1c9bb4b0f00e80, 0x75d658a183d29284),
                Pair(0x4b9205eeffa4e8a2, 0x2d7d5507a40c1dbc), Pair(0xbb7995915d2a1ac, 0xf65a9ff597f9ee7f),
                Pair(0xc97769ca95e966f8, 0x3850c4b48f700d52), Pair(0xc989c95b732f5477, 0x743c8f8cf8a2ac3b),
                Pair(0x6556f6f72bf89129, 0x373029e6f3be41b8), Pair(0xdb1e0f09ab606672, 0x19a9dc4f57d0b6e3),
                Pair(0x2f9d364fd4a9745d, 0x73c14cdc406ea716), Pair(0x41c772aa2529116b, 0x238eec82012658c8),
                Pair(0x9ee6fee5f1570527, 0x7ecffa9f097eea48), Pair(0x49033f73c4b2c600, 0x39ac342b0663ff1f),
                Pair(0x2bf60ab80362afa0, 0xf8415f09f4e2b843), Pair(0x1ffeaf433031c118, 0x50c3dabaecfad699),
                Pair(0x8350b12f8107495b, 0xb6410fc52fd85884));
  }

  /** The sum over the steps 96, 98, ..., 126. */
  function Even96(w: bv64): Pair
  {
    Pair(Sixteen(w, 0x8350b12f8107495b, 0xcf5dbeb4c1b948f8, 0xcc3e1361d0c9e2ed, 0x6f4eb8fe5392b9e,
                    0x6f38af6ad174fef3, 0x45f043905e46ea8f, 0x7b355e512275dd32, 0xb5eb289dcdfc7873,
                    0xff9c00fa564da732, 0xa8a99c32169b95a2, 0x5e551f24ff5aad5b, 0x9d1fa98c5987f612,
                    0x33f00c84d3a9f455, 0x5b770e044550aafc, 0x8af7ea9032567365, 0x59944f6a4e7e6fc2),
         Sixteen(w, 0xb6410fc52fd85884, 0xc73bcd11a9ba0f6a, 0x5e0216068dcfe5a6, 0xffcf5cf35e3b9964,
                    0x3f5d9a46bcccc664, 0xa6102ebf1a3b60d, 0x9fee84da6389a87c, 0x98367149483c4b53,
                    0xa3b50541e71bf321, 0xbe9e97b915d66db9, 0x730cd61315e1e270, 0xe92b103590feba47,
                    0xf0b5432c48081641, 0x519cc670028b00a9, 0x1d0c544fb61c7550, 0x26580f48e2947613))
  }

  lemma Even96Is(w: bv64, n: nat)
    ensures WordSum(w, n + 16, 2, Pair(0x8350b12f8107495b, 0xb6410fc52fd85884)) ==
            PairSum(Even96(w), WordSum(By16(w), n, 2, Pair(0x5c04d0e7a581b87f, 0x37d64cc4049bc286)))
    ensures Steps(Pair(0x8350b12f8107495b, 0xb6410fc52fd85884), 32) == Pair(0x5c04d0e7a581b87f, 0x37d64cc4049bc286)
  {
    hide WordSum, Steps, PairSum, Sixteen, By16;
    FourRowsSum(w, n, 2,
                Pair(0x8350b12f8107495b, 0xb6410fc52fd85884), Pair(0xcf5dbeb4c1b948f8, 0xc73bcd11a9ba0f6a),
                Pair(0xcc3e1361d0c9e2ed, 0x5e0216068dcfe5a6), Pair(0x6f4eb8fe5392b9e, 0xffcf5cf35e3b9964),
                Pair(0x6f38af6ad174fef3, 0x3f5d9a46bcccc664), Pair(0x45f043905e46ea8f, 0xa6102ebf1a3b60d),
                Pair(0x7b355e512275dd32, 0x9fee84da6389a87c), Pair(0xb5eb289dcdfc7873, 0x98367149483c4b53),
                Pair(0xff9c00fa564da732, 0xa3b50541e71bf321), Pair(0xa8a99c32169b95a2, 0xbe9e97b915d66db9),
                Pair(0x5e551f24ff5aad5b, 0x730cd61315e1e270), Pair(0x9d1fa98c5987f612, 0xe92b103590feba47),
                Pair(0x33f00c84d3a9f455, 0xf0b5432c48081641), Pair(0x5b770e044550aafc, 0x519cc670028b00a9),
                Pair(0x8af7ea9032567365, 0x1d0c544fb61c7550), Pair(0x59944f6a4e7e6fc2, 0x26580f48e2947613),
                Pair(0x5c04d0e7a581b87f, 0x37d64cc4049bc286));
  }

  /** The sum over the steps 128, 130, ..., 158. */
  function Even128(w: bv64): Pair
  {
    Pair(Sixteen(w, 0x5c04d0e7a581b87f, 0x64c9ff739fec362, 0x3108f1ff84eb15f, 0x61c58c319ae5228f,
                    0x3c4c26f12af12612, 0x8c93c9eaf0fa4736, 0xe11a8374250bb5ff, 0xcbc5ddfa0f6aeaa1,
                    0xd44aaed44feabf, 0xd37a26630dad2f57, 0xdf6dd3a7f13198f1, 0x39ebfabb31f2e5c0,
                    0xe98e1ec8db13083f, 0xa59e78fd1b2143ca, 0x5d8ff27ab2092e37, 0xf003d9360a16c982),
         Sixteen(w, 0x37d64cc4049bc286, 0x15f381fe2d3d99bf, 0x219052d290bd0a70, 0x1c980a13549bd442,
                    0xed8a670bc8abbacb, 0x19dbbe46d0f12e22, 0xbb16ef51353a7035, 0xb970241bde9f9cd7,
                    0xa30dd1e437f08155, 0x3b678b1a17df72a5, 0xd52dcf48f8f89d83, 0xf6cd34ee9043f543,
                    0xa65ccab87be5bf84, 0x458b935ea5140f69, 0x2cea6399cfb012c9, 0x986a65ed52046931))
  }

  lemma Even128Is(w: bv64, n: nat)
    ensures WordSum(w, n + 16, 2, Pair(0x5c04d0e7a581b87f, 0x37d64cc4049bc286)) ==
            PairSum(Even128(w), WordSum(By16(w), n, 2, Pair(0xf4ef08d85d8dbbd7, 0xda0a662470d6005e)))
    ensures Steps(Pair(0x5c04d0e7a581b87f, 0x37d64cc4049bc286), 32) == Pair(0xf4ef08d85d8dbbd7, 0xda0a662470d6005e)
  {
    hide WordSum, Steps, PairSum, Sixteen, By16;
    FourRowsSum(w, n, 2,
                Pair(0x5c04d0e7a581b87f, 0x37d64cc4049bc286), Pair(0x64c9ff739fec362, 0x15f381fe2d3d99bf),
                Pair(0x3108f1ff84eb15f, 0x219052d290bd0a70), Pair(0x61c58c319ae5228f, 0x1c980a13549bd442),
                Pair(0x3c4c26f12af12612, 0xed8a670bc8abbacb), Pair(0x8c93c9eaf0fa4736, 0x19dbbe46d0f12e22),
                Pair(0xe11a8374250bb5ff, 0xbb16ef51353a7035), Pair(0xcbc5ddfa0f6aeaa1, 0xb970241bde9f9cd7),
                Pair(0xd44aaed44feabf, 0xa30dd1e437f08155), Pair(0xd37a26630dad2f57, 0x3b678b1a17df72a5),
                Pair(0xdf6dd3a7f13198f1, 0xd52dcf48f8f89d83), Pair(0x39ebfabb31f2e5c0, 0xf6cd34ee9043f543),
                Pair(0xe98e1ec8db13083f, 0xa65ccab87be5bf84), Pair(0xa59e78fd1b2143ca, 0x458b935ea5140f69),
                Pair(0x5d8ff27ab2092e37, 0x2cea6399cfb012c9), Pair(0xf003d9360a16c982, 0x986a65ed52046931),
                Pair(0xf4ef08d85d8dbbd7, 0xda0a662470d6005e));
  }

  /** The sum over the steps 160, 162, ..., 190. */
  function Even160(w: bv64): Pair
  {
    Pair(Sixteen(w, 0xf4ef08d85d8dbbd7, 0xbfbeac522339908, 0x8614032b5cdf848c, 0x53e36120f118a2da,
                    0x12036e1455459c67, 0x256a36aff4f769d3, 0x49156c973ade0e49, 0xb2c648a182121708,
                    0xdedf0c39a7420e46, 0x5507072f607b2a80, 0x1fde2955d430b189, 0xd62d621f3d31bc33,
                    0xa4c2c4b0316301b0, 0x1b726312695c7648, 0xab3894620c0ca7c5, 0x54f7a7f4beb3421f),
         Sixteen(w, 0xda0a662470d6005e, 0x1c1d2964b1baabc4, 0x3c711191b987677c, 0xe5ba79ced069ee6e,
                    0x7b54e078a5faa498, 0x1d2bcfeb2b63c02a, 0x60f060056c8e4292, 0xab2af92b61de029,
                    0xe48cd19451e3b0f1, 0xe2056f844c24f02, 0x81cc56584ee435f5, 0x66cfd6816b165f,
                    0xde5ee29e17872a37, 0xddf38e5c5077682d, 0xf9824bd0b6e3c691, 0x8119c2ca975f8067))
  }

  lemma Even160Is(w: bv64, n: nat)
    ensures WordSum(w, n + 16, 2, Pair(0xf4ef08d85d8dbbd7, 0xda0a662470d6005e)) ==
            PairSum(Even160(w), WordSum(By16(w), n, 2, Pair(0xdda0d9a304b49ef6, 0xdcbc83bddc7b31bb)))
    ensures Steps(Pair(0xf4ef08d85d8dbbd7, 0xda0a662470d6005e), 32) == Pair(0xdda0d9a304b49ef6, 0xdcbc83bddc7b31bb)
  {
    hide WordSum, Steps, PairSum, Sixteen, By16;
    FourRowsSum(w, n, 2,
                Pair(0xf4ef08d85d8dbbd7, 0xda0a662470d6005e), Pair(0xbfbeac522339908, 0x1c1d2964b1baabc4),
                Pair(0x8614032b5cdf848c, 0x3c711191b987677c), Pair(0x53e36120f118a2da, 0xe5ba79ced069ee6e),
                Pair(0x12036e1455459c67, 0x7b54e078a5faa498), Pair(0x256a36aff4f769d3, 0x1d2bcfeb2b63c02a),
                Pair(0x49156c973ade0e49, 0x60f060056c8e4292), Pair(0xb2c648a182121708, 0xab2af92b61de029),
                Pair(0xdedf0c39a7420e46, 0xe48cd19451e3b0f1), Pair(0x5507072f607b2a80, 0xe2056f844c24f02),
                Pair(0x1fde2955d430b189, 0x81cc56584ee435f5), Pair(0xd62d621f3d31bc33, 0x66cfd6816b165f),
                Pair(0xa4c2c4b0316301b0, 0xde5ee29e17872a37), Pair(0x1b726312695c7648, 0xddf38e5c5077682d),
                Pair(0xab3894620c0ca7c5, 0xf9824bd0b6e3c691), Pair(0x54f7a7f4beb3421f, 0x8119c2ca975f8067),
                Pair(0xdda0d9a304b49ef6, 0xdcbc83bddc7b31bb));
  }

  /** The sum over the steps 192, 194, ..., 222. */
  function Even192(w: bv64): Pair
  {
    Pair(Sixteen(w, 0xdda0d9a304b49ef6, 0x931dced916919bb5, 0x716f82b5cf1e7e7b, 0xae5a21453302ad00,
                    0x293c1f7010e35eae, 0x84fa9f1d4fbbcc68, 0xbb27400d06ecdd4e, 0x2bf540811e993308,
                    0x9e520d254f548d7, 0xff40d4f2befed217, 0xb6aeebb5359e1b2d, 0x926c53bcfb4f2678,
                    0x2634a61cab3ee49, 0x287047d3da5c8aaa, 0xc008b3ada5cd9b10, 0xd0fda6fabdc18e44),
         Sixteen(w, 0xdcbc83bddc7b31bb, 0x35b14efe00fc891f, 0x484d8163abde1f15, 0x45c5337c8693bc4b,
                    0xaab7386f65746f3e, 0x94931c8442b7d7d3, 0x3dd3fcd940c06248, 0x25842c6c57ce970,
                    0x724b29c5374a99c7, 0x4313ac2a992326f4, 0x68dc60814459f7ee, 0x7455089f61a0c0db,
                    0xeaf33092246e18fd, 0xa92007d3f72dbaf2, 0xd8e1e1f135776f79, 0x5e7776dcfb134ba7))
  }

  lemma Even192Is(w: bv64, n: nat)
    ensures WordSum(w, n + 16, 2, Pair(0xdda0d9a304b49ef6, 0xdcbc83bddc7b31bb)) ==
            PairSum(Even192(w), WordSum(By16(w), n, 2, Pair(0x3f954c70bb4c9d32, 0x259e74075c761796)))
    ensures Steps(Pair(0xdda0d9a304b49ef6, 0xdcbc83bddc7b31bb), 32) == Pair(0x3f954c70bb4c9d32, 0x259e74075c761796)
  {
    hide WordSum, Steps, PairSum, Sixteen, By16;
    FourRowsSum(w, n, 2,
                Pair(0xdda0d9a304b49ef6, 0xdcbc83bddc7b31bb), Pair(0x931dced916919bb5, 0x35b14efe00fc891f),
                Pair(0x716f82b5cf1e7e7b, 0x484d8163abde1f15), Pair(0xae5a21453302ad00, 0x45c5337c8693bc4b),
                Pair(0x293c1f7010e35eae, 0xaab7386f65746f3e), Pair(0x84fa9f1d4fbbcc68, 0x94931c8442b7d7d3),
                Pair(0xbb27400d06ecdd4e, 0x3dd3fcd940c06248), Pair(0x2bf540811e993308, 0x25842c6c57ce970),
                Pair(0x9e520d254f548d7, 0x724b29c5374a99c7), Pair(0xff40d4f2befed217, 0x4313ac2a992326f4),
                Pair(0xb6aeebb5359e1b2d, 0x68dc60814459f7ee), Pair(0x926c53bcfb4f2678, 0x7455089f61a0c0db),
                Pair(0x2634a61cab3ee49, 0xeaf33092246e18fd), Pair(0x287047d3da5c8aaa, 0xa92007d3f72dbaf2),
                Pair(0xc008b3ada5cd9b10, 0xd8e1e1f135776f79), Pair(0xd0fda6fabdc18e44, 0x5e7776dcfb134ba7),
                Pair(0x3f954c70bb4c9d32, 0x259e74075c761796));
  }

  /** The sum over the steps 224, 226, ..., 254. */
  function Even224(w: bv64): Pair
  {
    Pair(Sixteen(w, 0x3f954c70bb4c9d32, 0x23d0928438264c82, 0xd0cfe5530b970bf1, 0x7a4b3640d218097b,
                    0xb615d0eee358ed1e, 0xb93146f4bb469f63, 0xb28c3461afff57f8, 0x43da4e73632a9fda,
                    0x73885cc66badec3f, 0xf19a7dbfbab3ce5f, 0xa10976a1564c30c4, 0xc86be2d664b15857,
                    0xb10f3cb0fd590a25, 0x62256a48612df78, 0x65ba01e2aa480e30, 0xab9c9c60c6ee110c),
         Sixteen(w, 0x259e74075c761796, 0xd7dab943ea1a15ed, 0x6d936341c2fa1fec, 0x27feb4f2e11260f,
                    0x4f0f38f3258f0d11, 0x80b0da5a13893bfd, 0x3ac4d3b638ce7dda, 0x9e028f03ef6e6296,
                    0x72a7f0bc4eadb8b5, 0x1edc5dea58da9b44, 0xc90c9a26e3ec44f9, 0x85ada5e2b73c6827,
                    0x8c71b91cf3c41222, 0x70a2e42671c81e6c, 0xdd7e0549b8f0f187, 0x4051018a53e67e5))
  }

  lemma Even224Is(w: bv64, n: nat)
    ensures WordSum(w, n + 16, 2, Pair(0x3f954c70bb4c9d32, 0x259e74075c761796)) ==
            PairSum(Even224(w), WordSum(By16(w), n, 2, Pair(0xca667091b72f42c7, 0x791866777d53458b)))
    ensures Steps(Pair(0x3f954c70bb4c9d32, 0x259e74075c761796), 32) == Pair(0xca667091b72f42c7, 0x791866777d53458b)
  {
    hide WordSum, Steps, PairSum, Sixteen, By16;
    FourRowsSum(w, n, 2,
                Pair(0x3f954c70bb4c9d32, 0x259e74075c761796), Pair(0x23d0928438264c82, 0xd7dab943ea1a15ed),
                Pair(0xd0cfe5530b970bf1, 0x6d936341c2fa1fec), Pair(0x7a4b3640d218097b, 0x27feb4f2e11260f),
                Pair(0xb615d0eee358ed1e, 0x4f0f38f3258f0d11), Pair(0xb93146f4bb469f63, 0x80b0da5a13893bfd),
                Pair(0xb28c3461afff57f8, 0x3ac4d3b638ce7dda), Pair(0x43da4e73632a9fda, 0x9e028f03ef6e6296),
                Pair(0x73885cc66badec3f, 0x72a7f0bc4eadb8b5), Pair(0xf19a7dbfbab3ce5f, 0x1edc5dea58da9b44),
                Pair(0xa10976a1564c30c4, 0xc90c9a26e3ec44f9), Pair(0xc86be2d664b15857, 0x85ada5e2b73c6827),
                Pair(0xb10f3cb0fd590a25, 0x8c71b91cf3c41222), Pair(0x62256a48612df78, 0x70a2e42671c81e6c),
                Pair(0x65ba01e2aa480e30, 0xdd7e0549b8f0f187), Pair(0xab9c9c60c6ee110c, 0x4051018a53e67e5),
                Pair(0xca667091b72f42c7, 0x791866777d53458b));
  }

  function LowSum(w: bv64): Pair
  {
    JoinedPairs(Orbit0(w), Orbit16(w >> 16), Orbit32(w >> 32), Orbit48(w >> 48))
  }

  function HighSum(w: bv64): Pair
  {
    JoinedPairs(Orbit64(w), Orbit80(w >> 16), Orbit96(w >> 32), Orbit112(w >> 48))
  }

  function EvenLow(w: bv64): Pair
  {
    JoinedPairs(Even0(w), Even32(w >> 16), Even64(w >> 32), Even96(w >> 48))
  }

  function EvenHigh(w: bv64): Pair
  {
    JoinedPairs(Even128(w), Even160(w >> 16), Even192(w >> 32), Even224(w >> 48))
  }

  lemma LastRest(w: bv64, d: nat, a: Pair, b: Pair)
    ensures PairSum(a, WordSum(w, 0, d, b)) == a
  {
    PairSumLaws(a, a);
  }

  lemma LowSumIs(w: bv64)
    ensures LowSum(w) == WordSum(w, 64, 1, Pair(0x1, 0x0))
    ensures Steps(Pair(0x1, 0x0), 64) == Pair(0x996bb043da1b6a28, 0xe7cd850c93c4939f)
  {
    hide WordSum, Steps, PairSum, Joined, By16, Orbit0, Orbit16, Orbit32, Orbit48;
    var x, y, z := By16(w), By16(By16(w)), By16(By16(By16(w)));
    SixteensAre(w);
    Orbit0Is(w, 48);
    Orbit16Is(x, 32);
    Orbit32Is(y, 16);
    Orbit48Is(z, 0);
    JoinedBefore(Orbit0(w), Orbit16(x), Orbit32(y), Orbit48(z),
                WordSum(By16(z), 0, 1, Pair(0x996bb043da1b6a28, 0xe7cd850c93c4939f)));
    LastRest(By16(z), 1, LowSum(w), Pair(0x996bb043da1b6a28, 0xe7cd850c93c4939f));
    StepsAdd(Pair(0x1, 0x0), 16, 16);
    StepsAdd(Pair(0x1, 0x0), 32, 16);
    StepsAdd(Pair(0x1, 0x0), 48, 16);
  }

  lemma HighSumIs(w: bv64)
    ensures HighSum(w) == WordSum(w, 64, 1, Pair(0x996bb043da1b6a28, 0xe7cd850c93c4939f))
    ensures Steps(Pair(0x996bb043da1b6a28, 0xe7cd850c93c4939f), 64) == Pair(0x5c04d0e7a581b87f, 0x37d64cc4049bc286)
  {
    hide WordSum, Steps, PairSum, Joined, By16, Orbit64, Orbit80, Orbit96, Orbit112;
    var x, y, z := By16(w), By16(By16(w)), By16(By16(By16(w)));
    SixteensAre(w);
    Orbit64Is(w, 48);
    Orbit80Is(x, 32);
    Orbit96Is(y, 16);
    Orbit112Is(z, 0);
    JoinedBefore(Orbit64(w), Orbit80(x), Orbit96(y), Orbit112(z),
                WordSum(By16(z), 0, 1, Pair(0x5c04d0e7a581b87f, 0x37d64cc4049bc286)));
    LastRest(By16(z), 1, HighSum(w), Pair(0x5c04d0e7a581b87f, 0x37d64cc4049bc286));
    StepsAdd(Pair(0x996bb043da1b6a28, 0xe7cd850c93c4939f), 16, 16);
    StepsAdd(Pair(0x996bb043da1b6a28, 0xe7cd850c93c4939f), 32, 16);
    StepsAdd(Pair(0x996bb043da1b6a28, 0xe7cd850c93c4939f), 48, 16);
  }

  lemma EvenLowIs(w: bv64)
    ensures EvenLow(w) == WordSum(w, 64, 2, Pair(0x1, 0x0))
    ensures Steps(Pair(0x1, 0x0), 128) == Pair(0x5c04d0e7a581b87f, 0x37d64cc4049bc286)
  {
    hide WordSum, Steps, PairSum, Joined, By16, Even0, Even32, Even64, Even96;
    var x, y, z := By16(w), By16(By16(w)), By16(By16(By16(w)));
    SixteensAre(w);
    Even0Is(w, 48);
    Even32Is(x, 32);
    Even64Is(y, 16);
    Even96Is(z, 0);
    JoinedBefore(Even0(w), Even32(x), Even64(y), Even96(z),
                WordSum(By16(z), 0, 2, Pair(0x5c04d0e7a581b87f, 0x37d64cc4049bc286)));
    LastRest(By16(z), 2, EvenLow(w), Pair(0x5c04d0e7a581b87f, 0x37d64cc4049bc286));
    StepsAdd(Pair(0x1, 0x0), 32, 32);
    StepsAdd(Pair(0x1, 0x0), 64, 32);
    StepsAdd(Pair(0x1, 0x0), 96, 32);
  }

  lemma EvenHighIs(w: bv64)
    ensures EvenHigh(w) == WordSum(w, 64, 2, Pair(0x5c04d0e7a581b87f, 0x37d64cc4049bc286))
    ensures Steps(Pair(0x5c04d0e7a581b87f, 0x37d64cc4049bc286), 128) == Pair(0xca667091b72f42c7, 0x791866777d53458b)
  {
    hide WordSum, Steps, PairSum, Joined, By16, Even128, Even160, Even192, Even224;
    var x, y, z := By16(w), By16(By16(w)), By16(By16(By16(w)));
    SixteensAre(w);
    Even128Is(w, 48);
    Even160Is(x, 32);
    Even192Is(y, 16);
    Even224Is(z, 0);
    JoinedBefore(Even128(w), Even160(x), Even192(y), Even224(z),
                WordSum(By16(z), 0, 2, Pair(0xca667091b72f42c7, 0x791866777d53458b)));
    LastRest(By16(z), 2, EvenHigh(w), Pair(0xca667091b72f42c7, 0x791866777d53458b));
    StepsAdd(Pair(0x5c04d0e7a581b87f, 0x37d64cc4049bc286), 32, 32);
    StepsAdd(Pair(0x5c04d0e7a581b87f, 0x37d64cc4049bc286), 64, 32);
    StepsAdd(Pair(0x5c04d0e7a581b87f, 0x37d64cc4049bc286), 96, 32);
  }

  function TableSum(low: bv64, high: bv64): Pair
  {
    PairSum(LowSum(low), HighSum(high))
  }

  function EvenTableSum(low: bv64, high: bv64): Pair
  {
    PairSum(EvenLow(low), EvenHigh(high))
  }

  /** What the tables give is the sum over the orbit. */
  lemma TablesAreSums(m: Mask)
    ensures TableSum(m.low, m.high) == MaskSum(m, 1, SEED)
    ensures EvenTableSum(m.low, m.high) == MaskSum(m, 2, SEED)
  {
    hide WordSum, Steps, PairSum, LowSum, HighSum, EvenLow, EvenHigh;
    LowSumIs(m.low);
    HighSumIs(m.high);
    EvenLowIs(m.low);
    EvenHighIs(m.high);
  }

  // ----- 64 squarings -----------------------------------------------------

  /** If n steps of the seed are the sum over one mask, then twice as many are the sum over the
      mask that its even steps give. */
  lemma Doubled(q: Mask, r: Mask, n: nat)
    requires Steps(SEED, n) == MaskSum(q, 1, SEED) && EvenTableSum(q.low, q.high) == TableSum(r.low, r.high)
    ensures Steps(SEED, n + n) == MaskSum(r, 1, SEED)
  {
    hide MaskSum, Steps, EvenTableSum, TableSum;
    StepsAdd(SEED, n, n);
    MaskSumOfSteps(q, SEED, n);
    MaskSquare(q, SEED);
    TablesAreSums(q);
    TablesAreSums(r);
  }

  lemma Square6()
    ensures EvenTableSum(0x0, 0x1) == TableSum(0x5fd66762f0e1c001, 0x653ced7f29f88a)
  {
  }

  lemma Square7()
    ensures EvenTableSum(0x5fd66762f0e1c001, 0x653ced7f29f88a) == TableSum(0xafb2fae445f1749d, 0xa5ee7b9c7b9ada5d)
  {
  }

  lemma Square8()
    ensures EvenTableSum(0xafb2fae445f1749d, 0xa5ee7b9c7b9ada5d) == TableSum(0x6802dbe099ee01bb, 0x827846355bfbbb3b)
  {
  }

  lemma Square9()
    ensures EvenTableSum(0x6802dbe099ee01bb, 0x827846355bfbbb3b) == TableSum(0xd731c5eb2847c87a, 0x63c37d001a6750c5)
  {
  }

  lemma Square10()
    ensures EvenTableSum(0xd731c5eb2847c87a, 0x63c37d001a6750c5) == TableSum(0xa8f25f75cdf4ec73, 0xb65b85bdcaf7d3e4)
  {
  }

  lemma Square11()
    ensures EvenTableSum(0xa8f25f75cdf4ec73, 0xb65b85bdcaf7d3e4) == TableSum(0x773b99d154f5a4a1, 0x94df13fe9a4a3dcf)
  {
  }

  lemma Square12()
    ensures EvenTableSum(0x773b99d154f5a4a1, 0x94df13fe9a4a3dcf) == TableSum(0xd2f80f7bad266228, 0xf3ad7057d1027c0f)
  {
  }

  lemma Square13()
    ensures EvenTableSum(0xd2f80f7bad266228, 0xf3ad7057d1027c0f) == TableSum(0x9320401c0770a84a, 0xe14e6f6a0668f1a0)
  {
  }

  lemma Square14()
    ensures EvenTableSum(0x9320401c0770a84a, 0xe14e6f6a0668f1a0) == TableSum(0x321163bec4990ad2, 0xb3bbe81dc0abe24b)
  {
  }

  lemma Square15()
    ensures EvenTableSum(0x321163bec4990ad2, 0xb3bbe81dc0abe24b) == TableSum(0x1e7aadfc624d3a05, 0x2dcb073daf1ce660)
  {
  }

  lemma Square16()
    ensures EvenTableSum(0x1e7aadfc624d3a05, 0x2dcb073daf1ce660) == TableSum(0x1c7f4743bdc5b041, 0x177e09afd576d141)
  {
  }

  lemma Square17()
    ensures EvenTableSum(0x1c7f4743bdc5b041, 0x177e09afd576d141) == TableSum(0x4bd6f4c6e57da45f, 0xaf607d0edf04c704)
  {
  }

  lemma Square18()
    ensures EvenTableSum(0x4bd6f4c6e57da45f, 0xaf607d0edf04c704) == TableSum(0x4a4e597376e296ed, 0x54cca5231f8a4649)
  {
  }

  lemma Square19()
    ensures EvenTableSum(0x4a4e597376e296ed, 0x54cca5231f8a4649) == TableSum(0x9b4ede39c85dd32c, 0x2aef7f2e0d57c9e6)
  {
  }

  lemma Square20()
    ensures EvenTableSum(0x9b4ede39c85dd32c, 0x2aef7f2e0d57c9e6) == TableSum(0xf9220a21ae13d2a7, 0xbc203d8418274bcd)
  {
  }

  lemma Square21()
    ensures EvenTableSum(0xf9220a21ae13d2a7, 0xbc203d8418274bcd) == TableSum(0x269edc3c5357cd6f, 0x9b12f0a3c4fcb527)
  {
  }

  lemma Square22()
    ensures EvenTableSum(0x269edc3c5357cd6f, 0x9b12f0a3c4fcb527) == TableSum(0x5c8f6252d9389976, 0xb2414b0892b97e22)
  {
  }

  lemma Square23()
    ensures EvenTableSum(0x5c8f6252d9389976, 0xb2414b0892b97e22) == TableSum(0x563b590e7bb99129, 0x1ea7ed43fe3f13ed)
  {
  }

  lemma Square24()
    ensures EvenTableSum(0x563b590e7bb99129, 0x1ea7ed43fe3f13ed) == TableSum(0x91878f44c78831d0, 0x33c81488b599b097)
  {
  }

  lemma Square25()
    ensures EvenTableSum(0x91878f44c78831d0, 0x33c81488b599b097) == TableSum(0xd41a2bed2e66fd67, 0xe9a8a19463e84de7)
  {
  }

  lemma Square26()
    ensures EvenTableSum(0xd41a2bed2e66fd67, 0xe9a8a19463e84de7) == TableSum(0xdd27992bb060c074, 0x83ecc0767932fa49)
  {
  }

  lemma Square27()
    ensures EvenTableSum(0xdd27992bb060c074, 0x83ecc0767932fa49) == TableSum(0x530f7bd9f9875868, 0xa15af04a352f9856)
  {
  }

  lemma Square28()
    ensures EvenTableSum(0x530f7bd9f9875868, 0xa15af04a352f9856) == TableSum(0xd801e126378c0d5, 0xed3aa528e7507093)
  {
  }

  lemma Square29()
    ensures EvenTableSum(0xd801e126378c0d5, 0xed3aa528e7507093) == TableSum(0xa4db7f6e11fbeab8, 0xd96deee66219f0f1)
  {
  }

  lemma Square30()
    ensures EvenTableSum(0xa4db7f6e11fbeab8, 0xd96deee66219f0f1) == TableSum(0x9a35d628478cb000, 0xbdd7533083ebc48b)
  {
  }

  lemma Square31()
    ensures EvenTableSum(0x9a35d628478cb000, 0xbdd7533083ebc48b) == TableSum(0x6d5c8d1a4b1a701e, 0x1a5037803d7c09bb)
  {
  }

  lemma Square32()
    ensures EvenTableSum(0x6d5c8d1a4b1a701e, 0x1a5037803d7c09bb) == TableSum(0x104f8616cc0c79b, 0xff59f6e4033b35f2)
  {
  }

  lemma Square33()
    ensures EvenTableSum(0x104f8616cc0c79b, 0xff59f6e4033b35f2) == TableSum(0xb00bac11efcd637b, 0x5c3ad1bcee779faa)
  {
  }

  lemma Square34()
    ensures EvenTableSum(0xb00bac11efcd637b, 0x5c3ad1bcee779faa) == TableSum(0x86d20b1c8fdcef17, 0x9671ccaa016bad26)
  {
  }

  lemma Square35()
    ensures EvenTableSum(0x86d20b1c8fdcef17, 0x9671ccaa016bad26) == TableSum(0xa3302a3bfc133b7d, 0x4e4266602cc6d7)
  {
  }

  lemma Square36()
    ensures EvenTableSum(0xa3302a3bfc133b7d, 0x4e4266602cc6d7) == TableSum(0x43df8f6dcef4971c, 0xde181a481f3e69a2)
  {
  }

  lemma Square37()
    ensures EvenTableSum(0x43df8f6dcef4971c, 0xde181a481f3e69a2) == TableSum(0x188cc0b18a942b17, 0x183cf0cf4c69f4d1)
  {
  }

  lemma Square38()
    ensures EvenTableSum(0x188cc0b18a942b17, 0x183cf0cf4c69f4d1) == TableSum(0x75f70097b46a43fe, 0xc51c85a7cccbd849)
  {
  }

  lemma Square39()
    ensures EvenTableSum(0x75f70097b46a43fe, 0xc51c85a7cccbd849) == TableSum(0xf4ac44d90fdfc787, 0x6d6c7d713df634b2)
  {
  }

  lemma Square40()
    ensures EvenTableSum(0xf4ac44d90fdfc787, 0x6d6c7d713df634b2) == TableSum(0xfc49c2b3247583fa, 0x3960df843c7150cf)
  {
  }

  lemma Square41()
    ensures EvenTableSum(0xfc49c2b3247583fa, 0x3960df843c7150cf) == TableSum(0x7b504f1beabb78bf, 0x46a9d0b942ffe73d)
  {
  }

  lemma Square42()
    ensures EvenTableSum(0x7b504f1beabb78bf, 0x46a9d0b942ffe73d) == TableSum(0x72508f2e6dd18616, 0xa5af906ee0217305)
  {
  }

  lemma Square43()
    ensures EvenTableSum(0x72508f2e6dd18616, 0xa5af906ee0217305) == TableSum(0x6c6d3e7725fc1873, 0xeedcbf45b601c4a1)
  {
  }

  lemma Square44()
    ensures EvenTableSum(0x6c6d3e7725fc1873, 0xeedcbf45b601c4a1) == TableSum(0xec61e7c8474be010, 0xc3b06177b3e723db)
  {
  }

  lemma Square45()
    ensures EvenTableSum(0xec61e7c8474be010, 0xc3b06177b3e723db) == TableSum(0x33c3edf674e47add, 0xa1f6add220642472)
  {
  }

  lemma Square46()
    ensures EvenTableSum(0x33c3edf674e47add, 0xa1f6add220642472) == TableSum(0xaab4e02e1ae31a8, 0x923735153e367b10)
  {
  }

  lemma Square47()
    ensures EvenTableSum(0xaab4e02e1ae31a8, 0x923735153e367b10) == TableSum(0x36f191bfb7ba6a97, 0x5a01777ce2fb65b1)
  {
  }

  lemma Square48()
    ensures EvenTableSum(0x36f191bfb7ba6a97, 0x5a01777ce2fb65b1) == TableSum(0x21c5d6c2edfc677e, 0xb1ce875557d288ee)
  {
  }

  lemma Square49()
    ensures EvenTableSum(0x21c5d6c2edfc677e, 0xb1ce875557d288ee) == TableSum(0x9ccd91215a6b57f6, 0xdd37d17e9c46a040)
  {
  }

  lemma Square50()
    ensures EvenTableSum(0x9ccd91215a6b57f6, 0xdd37d17e9c46a040) == TableSum(0x1176648688e6c233, 0xd3caf896d961b2c)
  {
  }

  lemma Square51()
    ensures EvenTableSum(0x1176648688e6c233, 0xd3caf896d961b2c) == TableSum(0xf9fad157f50b0174, 0x6f7e1ce5e1b6100e)
  {
  }

  lemma Square52()
    ensures EvenTableSum(0xf9fad157f50b0174, 0x6f7e1ce5e1b6100e) == TableSum(0x2659e3be0feeead, 0xc5a8a255ab7c1258)
  {
  }

  lemma Square53()
    ensures EvenTableSum(0x2659e3be0feeead, 0xc5a8a255ab7c1258) == TableSum(0xe36a86f91a3ffd07, 0xbbfe69d53c420322)
  {
  }

  lemma Square54()
    ensures EvenTableSum(0xe36a86f91a3ffd07, 0xbbfe69d53c420322) == TableSum(0xcd3c431b44d87d74, 0x890f6920c9d3e25c)
  {
  }

  lemma Square55()
    ensures EvenTableSum(0xcd3c431b44d87d74, 0x890f6920c9d3e25c) == TableSum(0x1057e07b98d0827c, 0x6c960ca585e81749)
  {
  }

  lemma Square56()
    ensures EvenTableSum(0x1057e07b98d0827c, 0x6c960ca585e81749) == TableSum(0x2a229e94964032bc, 0xbb39d0e32e0d50c7)
  {
  }

  lemma Square57()
    ensures EvenTableSum(0x2a229e94964032bc, 0xbb39d0e32e0d50c7) == TableSum(0x320ab2e28d60300, 0x205f8076a9621b15)
  {
  }

  lemma Square58()
    ensures EvenTableSum(0x320ab2e28d60300, 0x205f8076a9621b15) == TableSum(0x4aff86c90aa5de02, 0x58e6899fca65a30b)
  {
  }

  lemma Square59()
    ensures EvenTableSum(0x4aff86c90aa5de02, 0x58e6899fca65a30b) == TableSum(0x8388faa8a921d602, 0x65b91aee3fc75b6)
  {
  }

  lemma Square60()
    ensures EvenTableSum(0x8388faa8a921d602, 0x65b91aee3fc75b6) == TableSum(0xfb0c2d93ffcf2091, 0x3872eccc97677a95)
  {
  }

  lemma Square61()
    ensures EvenTableSum(0xfb0c2d93ffcf2091, 0x3872eccc97677a95) == TableSum(0xc78fe2a8ab69f8f8, 0x8019f0cf875b640e)
  {
  }

  lemma Square62()
    ensures EvenTableSum(0xc78fe2a8ab69f8f8, 0x8019f0cf875b640e) == TableSum(0xc6e486df89d83675, 0xe6b3aa7a241507b0)
  {
  }

  lemma Square63()
    ensures EvenTableSum(0xc6e486df89d83675, 0xe6b3aa7a241507b0) == TableSum(0xbeac0467eba5facb, 0xd86b048b86aa9922)
  {
  }

  lemma {:induction false} EmptySum(n: nat, d: nat, s: Pair)
    ensures WordSum(0, n, d, s) == ZERO
    decreases n
  {
    hide Steps, PairSum, Half;
    if n > 0 {
      ZeroStays();
      EmptySum(n - 1, d, Steps(s, d));
      PairSumLaws(ZERO, ZERO);
    }
  }

  /** Sixty-four steps are the first bit of the higher word. */
  lemma FirstSteps()
    ensures Steps(SEED, 64) == MaskSum(Mask(0x0, 0x1), 1, SEED)
  {
    hide Steps, PairSum, Half;
    var s := Steps(SEED, 64);
    EmptySum(64, 1, SEED);
    EmptySum(63, 1, Steps(s, 1));
    ZeroStays();
    PairSumLaws(s, s);
  }

  lemma Doubled16()
    ensures Steps(SEED, 0x10000) == MaskSum(Mask(0x1e7aadfc624d3a05, 0x2dcb073daf1ce660), 1, SEED)
  {
    hide MaskSum, Steps, EvenTableSum, TableSum;
    FirstSteps();
    Square6();
    Doubled(Mask(0x0, 0x1), Mask(0x5fd66762f0e1c001, 0x653ced7f29f88a), 0x40);
    Square7();
    Doubled(Mask(0x5fd66762f0e1c001, 0x653ced7f29f88a), Mask(0xafb2fae445f1749d, 0xa5ee7b9c7b9ada5d), 0x80);
    Square8();
    Doubled(Mask(0xafb2fae445f1749d, 0xa5ee7b9c7b9ada5d), Mask(0x6802dbe099ee01bb, 0x827846355bfbbb3b), 0x100);
    Square9();
    Doubled(Mask(0x6802dbe099ee01bb, 0x827846355bfbbb3b), Mask(0xd731c5eb2847c87a, 0x63c37d001a6750c5), 0x200);
    Square10();
    Doubled(Mask(0xd731c5eb2847c87a, 0x63c37d001a6750c5), Mask(0xa8f25f75cdf4ec73, 0xb65b85bdcaf7d3e4), 0x400);
    Square11();
    Doubled(Mask(0xa8f25f75cdf4ec73, 0xb65b85bdcaf7d3e4), Mask(0x773b99d154f5a4a1, 0x94df13fe9a4a3dcf), 0x800);
    Square12();
    Doubled(Mask(0x773b99d154f5a4a1, 0x94df13fe9a4a3dcf), Mask(0xd2f80f7bad266228, 0xf3ad7057d1027c0f), 0x1000);
    Square13();
    Doubled(Mask(0xd2f80f7bad266228, 0xf3ad7057d1027c0f), Mask(0x9320401c0770a84a, 0xe14e6f6a0668f1a0), 0x2000);
    Square14();
    Doubled(Mask(0x9320401c0770a84a, 0xe14e6f6a0668f1a0), Mask(0x321163bec4990ad2, 0xb3bbe81dc0abe24b), 0x4000);
    Square15();
    Doubled(Mask(0x321163bec4990ad2, 0xb3bbe81dc0abe24b), Mask(0x1e7aadfc624d3a05, 0x2dcb073daf1ce660), 0x8000);
  }

  lemma Doubled24()
    ensures Steps(SEED, 0x1000000) == MaskSum(Mask(0x563b590e7bb99129, 0x1ea7ed43fe3f13ed), 1, SEED)
  {
    hide MaskSum, Steps, EvenTableSum, TableSum;
    Doubled16();
    Square16();
    Doubled(Mask(0x1e7aadfc624d3a05, 0x2dcb073daf1ce660), Mask(0x1c7f4743bdc5b041, 0x177e09afd576d141), 0x10000);
    Square17();
    Doubled(Mask(0x1c7f4743bdc5b041, 0x177e09afd576d141), Mask(0x4bd6f4c6e57da45f, 0xaf607d0edf04c704), 0x20000);
    Square18();
    Doubled(Mask(0x4bd6f4c6e57da45f, 0xaf607d0edf04c704), Mask(0x4a4e597376e296ed, 0x54cca5231f8a4649), 0x40000);
    Square19();
    Doubled(Mask(0x4a4e597376e296ed, 0x54cca5231f8a4649), Mask(0x9b4ede39c85dd32c, 0x2aef7f2e0d57c9e6), 0x80000);
    Square20();
    Doubled(Mask(0x9b4ede39c85dd32c, 0x2aef7f2e0d57c9e6), Mask(0xf9220a21ae13d2a7, 0xbc203d8418274bcd), 0x100000);
    Square21();
    Doubled(Mask(0xf9220a21ae13d2a7, 0xbc203d8418274bcd), Mask(0x269edc3c5357cd6f, 0x9b12f0a3c4fcb527), 0x200000);
    Square22();
    Doubled(Mask(0x269edc3c5357cd6f, 0x9b12f0a3c4fcb527), Mask(0x5c8f6252d9389976, 0xb2414b0892b97e22), 0x400000);
    Square23();
    Doubled(Mask(0x5c8f6252d9389976, 0xb2414b0892b97e22), Mask(0x563b590e7bb99129, 0x1ea7ed43fe3f13ed), 0x800000);
  }

  lemma Doubled32()
    ensures Steps(SEED, 0x100000000) == MaskSum(Mask(0x6d5c8d1a4b1a701e, 0x1a5037803d7c09bb), 1, SEED)
  {
    hide MaskSum, Steps, EvenTableSum, TableSum;
    Doubled24();
    Square24();
    Doubled(Mask(0x563b590e7bb99129, 0x1ea7ed43fe3f13ed), Mask(0x91878f44c78831d0, 0x33c81488b599b097), 0x1000000);
    Square25();
    Doubled(Mask(0x91878f44c78831d0, 0x33c81488b599b097), Mask(0xd41a2bed2e66fd67, 0xe9a8a19463e84de7), 0x2000000);
    Square26();
    Doubled(Mask(0xd41a2bed2e66fd67, 0xe9a8a19463e84de7), Mask(0xdd27992bb060c074, 0x83ecc0767932fa49), 0x4000000);
    Square27();
    Doubled(Mask(0xdd27992bb060c074, 0x83ecc0767932fa49), Mask(0x530f7bd9f9875868, 0xa15af04a352f9856), 0x8000000);
    Square28();
    Doubled(Mask(0x530f7bd9f9875868, 0xa15af04a352f9856), Mask(0xd801e126378c0d5, 0xed3aa528e7507093), 0x10000000);
    Square29();
    Doubled(Mask(0xd801e126378c0d5, 0xed3aa528e7507093), Mask(0xa4db7f6e11fbeab8, 0xd96deee66219f0f1), 0x20000000);
    Square30();
    Doubled(Mask(0xa4db7f6e11fbeab8, 0xd96deee66219f0f1), Mask(0x9a35d628478cb000, 0xbdd7533083ebc48b), 0x40000000);
    Square31();
    Doubled(Mask(0x9a35d628478cb000, 0xbdd7533083ebc48b), Mask(0x6d5c8d1a4b1a701e, 0x1a5037803d7c09bb), 0x80000000);
  }

  lemma Doubled40()
    ensures Steps(SEED, 0x10000000000) == MaskSum(Mask(0xf4ac44d90fdfc787, 0x6d6c7d713df634b2), 1, SEED)
  {
    hide MaskSum, Steps, EvenTableSum, TableSum;
    Doubled32();
    Square32();
    Doubled(Mask(0x6d5c8d1a4b1a701e, 0x1a5037803d7c09bb), Mask(0x104f8616cc0c79b, 0xff59f6e4033b35f2), 0x100000000);
    Square33();
    Doubled(Mask(0x104f8616cc0c79b, 0xff59f6e4033b35f2), Mask(0xb00bac11efcd637b, 0x5c3ad1bcee779faa), 0x200000000);
    Square34();
    Doubled(Mask(0xb00bac11efcd637b, 0x5c3ad1bcee779faa), Mask(0x86d20b1c8fdcef17, 0x9671ccaa016bad26), 0x400000000);
    Square35();
    Doubled(Mask(0x86d20b1c8fdcef17, 0x9671ccaa016bad26), Mask(0xa3302a3bfc133b7d, 0x4e4266602cc6d7), 0x800000000);
    Square36();
    Doubled(Mask(0xa3302a3bfc133b7d, 0x4e4266602cc6d7), Mask(0x43df8f6dcef4971c, 0xde181a481f3e69a2), 0x1000000000);
    Square37();
    Doubled(Mask(0x43df8f6dcef4971c, 0xde181a481f3e69a2), Mask(0x188cc0b18a942b17, 0x183cf0cf4c69f4d1), 0x2000000000);
    Square38();
    Doubled(Mask(0x188cc0b18a942b17, 0x183cf0cf4c69f4d1), Mask(0x75f70097b46a43fe, 0xc51c85a7cccbd849), 0x4000000000);
    Square39();
    Doubled(Mask(0x75f70097b46a43fe, 0xc51c85a7cccbd849), Mask(0xf4ac44d90fdfc787, 0x6d6c7d713df634b2), 0x8000000000);
  }

  lemma Doubled48()
    ensures Steps(SEED, 0x1000000000000) == MaskSum(Mask(0x36f191bfb7ba6a97, 0x5a01777ce2fb65b1), 1, SEED)
  {
    hide MaskSum, Steps, EvenTableSum, TableSum;
    Doubled40();
    Square40();
    Doubled(Mask(0xf4ac44d90fdfc787, 0x6d6c7d713df634b2), Mask(0xfc49c2b3247583fa, 0x3960df843c7150cf), 0x10000000000);
    Square41();
    Doubled(Mask(0xfc49c2b3247583fa, 0x3960df843c7150cf), Mask(0x7b504f1beabb78bf, 0x46a9d0b942ffe73d), 0x20000000000);
    Square42();
    Doubled(Mask(0x7b504f1beabb78bf, 0x46a9d0b942ffe73d), Mask(0x72508f2e6dd18616, 0xa5af906ee0217305), 0x40000000000);
    Square43();
    Doubled(Mask(0x72508f2e6dd18616, 0xa5af906ee0217305), Mask(0x6c6d3e7725fc1873, 0xeedcbf45b601c4a1), 0x80000000000);
    Square44();
    Doubled(Mask(0x6c6d3e7725fc1873, 0xeedcbf45b601c4a1), Mask(0xec61e7c8474be010, 0xc3b06177b3e723db), 0x100000000000);
    Square45();
    Doubled(Mask(0xec61e7c8474be010, 0xc3b06177b3e723db), Mask(0x33c3edf674e47add, 0xa1f6add220642472), 0x200000000000);
    Square46();
    Doubled(Mask(0x33c3edf674e47add, 0xa1f6add220642472), Mask(0xaab4e02e1ae31a8, 0x923735153e367b10), 0x400000000000);
    Square47();
    Doubled(Mask(0xaab4e02e1ae31a8, 0x923735153e367b10), Mask(0x36f191bfb7ba6a97, 0x5a01777ce2fb65b1), 0x800000000000);
  }

  lemma Doubled56()
    ensures Steps(SEED, 0x100000000000000) == MaskSum(Mask(0x1057e07b98d0827c, 0x6c960ca585e81749), 1, SEED)
  {
    hide MaskSum, Steps, EvenTableSum, TableSum;
    Doubled48();
    Square48();
    Doubled(Mask(0x36f191bfb7ba6a97, 0x5a01777ce2fb65b1), Mask(0x21c5d6c2edfc677e, 0xb1ce875557d288ee), 0x1000000000000);
    Square49();
    Doubled(Mask(0x21c5d6c2edfc677e, 0xb1ce875557d288ee), Mask(0x9ccd91215a6b57f6, 0xdd37d17e9c46a040), 0x2000000000000);
    Square50();
    Doubled(Mask(0x9ccd91215a6b57f6, 0xdd37d17e9c46a040), Mask(0x1176648688e6c233, 0xd3caf896d961b2c), 0x4000000000000);
    Square51();
    Doubled(Mask(0x1176648688e6c233, 0xd3caf896d961b2c), Mask(0xf9fad157f50b0174, 0x6f7e1ce5e1b6100e), 0x8000000000000);
    Square52();
    Doubled(Mask(0xf9fad157f50b0174, 0x6f7e1ce5e1b6100e), Mask(0x2659e3be0feeead, 0xc5a8a255ab7c1258), 0x10000000000000);
    Square53();
    Doubled(Mask(0x2659e3be0feeead, 0xc5a8a255ab7c1258), Mask(0xe36a86f91a3ffd07, 0xbbfe69d53c420322), 0x20000000000000);
    Square54();
    Doubled(Mask(0xe36a86f91a3ffd07, 0xbbfe69d53c420322), Mask(0xcd3c431b44d87d74, 0x890f6920c9d3e25c), 0x40000000000000);
    Square55();
    Doubled(Mask(0xcd3c431b44d87d74, 0x890f6920c9d3e25c), Mask(0x1057e07b98d0827c, 0x6c960ca585e81749), 0x80000000000000);
  }

  lemma Doubled64()
    ensures Steps(SEED, 0x10000000000000000) == MaskSum(Mask(0xbeac0467eba5facb, 0xd86b048b86aa9922), 1, SEED)
  {
    hide MaskSum, Steps, EvenTableSum, TableSum;
    Doubled56();
    Square56();
    Doubled(Mask(0x1057e07b98d0827c, 0x6c960ca585e81749), Mask(0x2a229e94964032bc, 0xbb39d0e32e0d50c7), 0x100000000000000);
    Square57();
    Doubled(Mask(0x2a229e94964032bc, 0xbb39d0e32e0d50c7), Mask(0x320ab2e28d60300, 0x205f8076a9621b15), 0x200000000000000);
    Square58();
    Doubled(Mask(0x320ab2e28d60300, 0x205f8076a9621b15), Mask(0x4aff86c90aa5de02, 0x58e6899fca65a30b), 0x400000000000000);
    Square59();
    Doubled(Mask(0x4aff86c90aa5de02, 0x58e6899fca65a30b), Mask(0x8388faa8a921d602, 0x65b91aee3fc75b6), 0x800000000000000);
    Square60();
    Doubled(Mask(0x8388faa8a921d602, 0x65b91aee3fc75b6), Mask(0xfb0c2d93ffcf2091, 0x3872eccc97677a95), 0x1000000000000000);
    Square61();
    Doubled(Mask(0xfb0c2d93ffcf2091, 0x3872eccc97677a95), Mask(0xc78fe2a8ab69f8f8, 0x8019f0cf875b640e), 0x2000000000000000);
    Square62();
    Doubled(Mask(0xc78fe2a8ab69f8f8, 0x8019f0cf875b640e), Mask(0xc6e486df89d83675, 0xe6b3aa7a241507b0), 0x4000000000000000);
    Square63();
    Doubled(Mask(0xc6e486df89d83675, 0xe6b3aa7a241507b0), Mask(0xbeac0467eba5facb, 0xd86b048b86aa9922), 0x8000000000000000);
  }

  const PERIOD := 0x1_0000_0000_0000_0000

  /** A jump of the seed is 2^64 steps. */
  lemma SeedJumps()
    ensures Jumped(SEED) == Steps(SEED, PERIOD)
  {
    hide MaskSum, Steps;
    Doubled64();
  }

  // ----- every state ------------------------------------------------------

  predicate Agrees(s: Pair)
  {
    Jumped(s) == Steps(s, PERIOD)
  }

  lemma SumAgrees(s: Pair, t: Pair)
    requires Agrees(s) && Agrees(t)
    ensures Agrees(PairSum(s, t))
  {
    hide MaskSum, Steps, PairSum;
    MaskSumIsLinear(JUMP, s, t);
    StepsAreLinear(s, t, PERIOD);
  }

  lemma MaskSumAgrees(m: Mask)
    ensures Agrees(MaskSum(m, 1, SEED))
  {
    hide MaskSum, Steps;
    SeedJumps();
    MaskSumsCommute(JUMP, m, SEED);
    MaskSumOfSteps(m, SEED, PERIOD);
  }

  lemma UnitAgrees(unit: bv64, low: bv64, high: bv64)
    requires TableSum(low, high) == Pair(unit, 0)
    ensures Agrees(Pair(unit, 0))
  {
    hide MaskSum, Agrees, TableSum, EvenTableSum;
    TablesAreSums(Mask(low, high));
    MaskSumAgrees(Mask(low, high));
  }

  /** The part of a word under a mask is the sum of its parts under two halves of it. */
  lemma PartsAgree(a: bv64, m: bv64, n: bv64, both: bv64)
    requires m & n == 0 && m | n == both && Agrees(Pair(Part(a, m), 0)) && Agrees(Pair(Part(a, n), 0))
    ensures Agrees(Pair(Part(a, both), 0))
  {
    hide Agrees, Part;
    SumAgrees(Pair(Part(a, m), 0), Pair(Part(a, n), 0));
    PartsSum(a, m, n, both);
    SumZero(0);
  }

  lemma BitAgrees(a: bv64, unit: bv64)
    requires Agrees(Pair(unit, 0)) && unit & (unit - 1) == 0
    ensures Agrees(Pair(Part(a, unit), 0))
  {
    hide Agrees, Part;
    OneBit(a, unit);
    if Part(a, unit) == 0 {
      ZeroAgrees();
    }
  }

  lemma ZeroAgrees()
    ensures Agrees(ZERO)
  {
    hide MaskSum, Steps, PairSum;
    MaskSumIsLinear(JUMP, ZERO, ZERO);
    PairSumLaws(ZERO, ZERO);
    PairSumLaws(MaskSum(JUMP, 1, ZERO), ZERO);
    StepsOfZero(PERIOD);
  }

  lemma Unit0()
    ensures TableSum(0x1, 0x0) == Pair(0x1, 0)
  {
  }

  lemma Unit1()
    ensures TableSum(0x7aef2116af128531, 0x582cddd6c2e2fc1e) == Pair(0x2, 0)
  {
  }

  lemma Unit2()
    ensures TableSum(0xd78eda48b091174f, 0xc834f1ab6b3acbfe) == Pair(0x4, 0)
  {
  }

  lemma Unit3()
    ensures TableSum(0x1f00977d58dff97, 0x8403b9e0ab283247) == Pair(0x8, 0)
  {
  }

  lemma Unit4()
    ensures TableSum(0x27274b37d7f5fb2e, 0x90fc55044c0c3741) == Pair(0x10, 0)
  {
  }

  lemma Unit5()
    ensures TableSum(0x807138067a450a1c, 0x5de710ce0e689936) == Pair(0x20, 0)
  {
  }

  lemma Unit6()
    ensures TableSum(0x1029b193540bec3d, 0x624ce87c6d98788e) == Pair(0x40, 0)
  {
  }

  lemma Unit7()
    ensures TableSum(0x1c07034fa907bdb4, 0xa2812ac345f90879) == Pair(0x80, 0)
  {
  }

  lemma Unit8()
    ensures TableSum(0x9ddaa9dc01dfd649, 0x5405e637b7f7e68) == Pair(0x100, 0)
  {
  }

  lemma Unit9()
    ensures TableSum(0xeec27c136f673b72, 0x71d6c347184410c4) == Pair(0x200, 0)
  {
  }

  lemma Unit10()
    ensures TableSum(0x2246d4ab0cb37f33, 0x1ab1b412004c968d) == Pair(0x400, 0)
  {
  }

  lemma Unit11()
    ensures TableSum(0xd68dd6d72ea24c37, 0x1fd2a8327936fc1d) == Pair(0x800, 0)
  {
  }

  lemma Unit12()
    ensures TableSum(0xb17a977961727855, 0xfc0f61c07fd1eea8) == Pair(0x1000, 0)
  {
  }

  lemma Unit13()
    ensures TableSum(0x55917b7f33476dff, 0xe480f5b9fbdc9a50) == Pair(0x2000, 0)
  {
  }

  lemma Unit14()
    ensures TableSum(0x3c7b0eccf579d5ce, 0x25c23e69de337bfb) == Pair(0x4000, 0)
  {
  }

  lemma Unit15()
    ensures TableSum(0x613030e1e56a9ba2, 0x9eaab3ac57c3bbf8) == Pair(0x8000, 0)
  {
  }

  lemma Unit16()
    ensures TableSum(0x62f5f89d31cf15a7, 0x36cded7716ab9d49) == Pair(0x10000, 0)
  {
  }

  lemma Unit17()
    ensures TableSum(0xa50f7f9ecb7d412e, 0xa2098ac40205d4d) == Pair(0x20000, 0)
  {
  }

  lemma Unit18()
    ensures TableSum(0xc5fa6e0d9e359925, 0xc47f492bbf72b5e5) == Pair(0x40000, 0)
  {
  }

  lemma Unit19()
    ensures TableSum(0x1d5986407cef43df, 0xf3fd3cdc79a32cde) == Pair(0x80000, 0)
  {
  }

  lemma Unit20()
    ensures TableSum(0x229c51f6c7ce0e00, 0x39b3e87432915994) == Pair(0x100000, 0)
  {
  }

  lemma Unit21()
    ensures TableSum(0x2fe69dd1a14efdb5, 0x4066c2c2455c97a2) == Pair(0x200000, 0)
  {
  }

  lemma Unit22()
    ensures TableSum(0xf0791a6136f0bfc8, 0x6a9eb6041bb49374) == Pair(0x400000, 0)
  {
  }

  lemma Unit23()
    ensures TableSum(0x71fe074dcd6805e1, 0x15e8f064c68ca06d) == Pair(0x800000, 0)
  {
  }

  lemma Unit24()
    ensures TableSum(0x1e586c85a5df1fe0, 0x1af3052dbef3e6ca) == Pair(0x1000000, 0)
  {
  }

  lemma Unit25()
    ensures TableSum(0xf85ac31fdb471288, 0x9868e8459c439a59) == Pair(0x2000000, 0)
  {
  }

  lemma Unit26()
    ensures TableSum(0x5610ef08e68cc033, 0x42743f896183ae4c) == Pair(0x4000000, 0)
  {
  }

  lemma Unit27()
    ensures TableSum(0x408cfda25b8013a8, 0xc045479df871241c) == Pair(0x8000000, 0)
  {
  }

  lemma Unit28()
    ensures TableSum(0x7ecf31c5dbf8e32b, 0xff6f16926f3aaa4c) == Pair(0x10000000, 0)
  {
  }

  lemma Unit29()
    ensures TableSum(0x79b423e26089a2bd, 0x3906ee99917b0bc8) == Pair(0x20000000, 0)
  {
  }

  lemma Unit30()
    ensures TableSum(0xb1f70c4a74304467, 0x2b32295a5deacef0) == Pair(0x40000000, 0)
  {
  }

  lemma Unit31()
    ensures TableSum(0xc00636420d8ee3bd, 0xe18e9e6e4a0f9a0f) == Pair(0x80000000, 0)
  {
  }

  lemma Unit32()
    ensures TableSum(0xc3f5f641b98ad8c1, 0xdcada49293f03208) == Pair(0x100000000, 0)
  {
  }

  lemma Unit33()
    ensures TableSum(0x431be0d999b35130, 0xf1e509d0ba372a1e) == Pair(0x200000000, 0)
  {
  }

  lemma Unit34()
    ensures TableSum(0x900a60408d08555f, 0x391b65ce07508fd4) == Pair(0x400000000, 0)
  {
  }

  lemma Unit35()
    ensures TableSum(0x2c22c1fb847cada7, 0x422d71f98ad6df06) == Pair(0x800000000, 0)
  {
  }

  lemma Unit36()
    ensures TableSum(0xfcb25dcb051277e4, 0x99a054a25a10f122) == Pair(0x1000000000, 0)
  {
  }

  lemma Unit37()
    ensures TableSum(0xe343b0c4cbde3170, 0x57c23ca22739e435) == Pair(0x2000000000, 0)
  {
  }

  lemma Unit38()
    ensures TableSum(0xe49c399f567cdece, 0x2a899e005e12f5f2) == Pair(0x4000000000, 0)
  {
  }

  lemma Unit39()
    ensures TableSum(0x2ab0b0aff1eded9f, 0x1dbaf834f6ca5402) == Pair(0x8000000000, 0)
  {
  }

  lemma Unit40()
    ensures TableSum(0x1ee228692cb4aceb, 0xc958ba2aac3708a9) == Pair(0x10000000000, 0)
  {
  }

  lemma Unit41()
    ensures TableSum(0x9665de0f3bd4e133, 0x9bd27a3f38f7ce9c) == Pair(0x20000000000, 0)
  {
  }

  lemma Unit42()
    ensures TableSum(0x1e721636f6a2935c, 0x1c3bc173b45c5aae) == Pair(0x40000000000, 0)
  {
  }

  lemma Unit43()
    ensures TableSum(0xdc4830e06c41b6fc, 0x45d8782d1c14c094) == Pair(0x80000000000, 0)
  {
  }

  lemma Unit44()
    ensures TableSum(0xdc94958a729547a0, 0x19500cdf8936a9c1) == Pair(0x100000000000, 0)
  {
  }

  lemma Unit45()
    ensures TableSum(0x3ce1ad9dfe487384, 0xcb439ffcc348e9b1) == Pair(0x200000000000, 0)
  {
  }

  lemma Unit46()
    ensures TableSum(0xf3dde80c7af7033c, 0x46ec1a9c6f585359) == Pair(0x400000000000, 0)
  {
  }

  lemma Unit47()
    ensures TableSum(0x260c7ee1b30ebef9, 0x656f2eb8532b2f78) == Pair(0x800000000000, 0)
  {
  }

  lemma Unit48()
    ensures TableSum(0xe10a5370e0f06195, 0x4cecfaa8f101813c) == Pair(0x1000000000000, 0)
  {
  }

  lemma Unit49()
    ensures TableSum(0x66547bf3c77728f3, 0x99c3f3dd2ebe3d36) == Pair(0x2000000000000, 0)
  {
  }

  lemma Unit50()
    ensures TableSum(0xdeeac6205bad07fc, 0x115e78f20e8a47c) == Pair(0x4000000000000, 0)
  {
  }

  lemma Unit51()
    ensures TableSum(0x9a22af2a908d6bc9, 0xf6cd0e45a1a06a93) == Pair(0x8000000000000, 0)
  {
  }

  lemma Unit52()
    ensures TableSum(0x64ca1ed2b9461c44, 0xf0090816ade50118) == Pair(0x10000000000000, 0)
  {
  }

  lemma Unit53()
    ensures TableSum(0x5c8755f8689c5556, 0xf6076f96358b5751) == Pair(0x20000000000000, 0)
  {
  }

  lemma Unit54()
    ensures TableSum(0xa29f89e87b76b11f, 0x843e4fba54ae70b0) == Pair(0x40000000000000, 0)
  {
  }

  lemma Unit55()
    ensures TableSum(0xe08f2dd6ddababfd, 0xdc40c905781b18d7) == Pair(0x80000000000000, 0)
  {
  }

  lemma Unit56()
    ensures TableSum(0x1dce484d4a0fb414, 0xde98fc4abfd4f28c) == Pair(0x100000000000000, 0)
  {
  }

  lemma Unit57()
    ensures TableSum(0xb21deaf90ed503e7, 0xd8cdb45dfdf6b593) == Pair(0x200000000000000, 0)
  {
  }

  lemma Unit58()
    ensures TableSum(0xa569065ff68fae3a, 0xe501c8fa5da3c31) == Pair(0x400000000000000, 0)
  {
  }

  lemma Unit59()
    ensures TableSum(0x224fd4ce44c96963, 0x4cb3e1a122eb2d47) == Pair(0x800000000000000, 0)
  {
  }

  lemma Unit60()
    ensures TableSum(0x45bed8d46d4130a8, 0x60623b8ea581ac58) == Pair(0x1000000000000000, 0)
  {
  }

  lemma Unit61()
    ensures TableSum(0x2d19651901a90183, 0xfbaf956b6d7e1fa7) == Pair(0x2000000000000000, 0)
  {
  }

  lemma Unit62()
    ensures TableSum(0xef9fcc12f812873b, 0x7ee7d5d654560c98) == Pair(0x4000000000000000, 0)
  {
  }

  lemma Unit63()
    ensures TableSum(0xb37826c3fc4b3460, 0xdd2a7ef465fc2bca) == Pair(0x8000000000000000, 0)
  {
  }

  lemma Byte0(a: bv64)
    ensures Agrees(Pair(Part(a, 0xff), 0))
  {
    hide Agrees, TableSum, Part;
    Unit0();
    UnitAgrees(0x1, 0x1, 0x0);
    BitAgrees(a, 0x1);
    Unit1();
    UnitAgrees(0x2, 0x7aef2116af128531, 0x582cddd6c2e2fc1e);
    BitAgrees(a, 0x2);
    PartsAgree(a, 0x1, 0x2, 0x3);
    Unit2();
    UnitAgrees(0x4, 0xd78eda48b091174f, 0xc834f1ab6b3acbfe);
    BitAgrees(a, 0x4);
    PartsAgree(a, 0x3, 0x4, 0x7);
    Unit3();
    UnitAgrees(0x8, 0x1f00977d58dff97, 0x8403b9e0ab283247);
    BitAgrees(a, 0x8);
    PartsAgree(a, 0x7, 0x8, 0xf);
    Unit4();
    UnitAgrees(0x10, 0x27274b37d7f5fb2e, 0x90fc55044c0c3741);
    BitAgrees(a, 0x10);
    PartsAgree(a, 0xf, 0x10, 0x1f);
    Unit5();
    UnitAgrees(0x20, 0x807138067a450a1c, 0x5de710ce0e689936);
    BitAgrees(a, 0x20);
    PartsAgree(a, 0x1f, 0x20, 0x3f);
    Unit6();
    UnitAgrees(0x40, 0x1029b193540bec3d, 0x624ce87c6d98788e);
    BitAgrees(a, 0x40);
    PartsAgree(a, 0x3f, 0x40, 0x7f);
    Unit7();
    UnitAgrees(0x80, 0x1c07034fa907bdb4, 0xa2812ac345f90879);
    BitAgrees(a, 0x80);
    PartsAgree(a, 0x7f, 0x80, 0xff);
  }

  lemma Byte1(a: bv64)
    ensures Agrees(Pair(Part(a, 0xff00), 0))
  {
    hide Agrees, TableSum, Part;
    Unit8();
    UnitAgrees(0x100, 0x9ddaa9dc01dfd649, 0x5405e637b7f7e68);
    BitAgrees(a, 0x100);
    Unit9();
    UnitAgrees(0x200, 0xeec27c136f673b72, 0x71d6c347184410c4);
    BitAgrees(a, 0x200);
    PartsAgree(a, 0x100, 0x200, 0x300);
    Unit10();
    UnitAgrees(0x400, 0x2246d4ab0cb37f33, 0x1ab1b412004c968d);
    BitAgrees(a, 0x400);
    PartsAgree(a, 0x300, 0x400, 0x700);
    Unit11();
    UnitAgrees(0x800, 0xd68dd6d72ea24c37, 0x1fd2a8327936fc1d);
    BitAgrees(a, 0x800);
    PartsAgree(a, 0x700, 0x800, 0xf00);
    Unit12();
    UnitAgrees(0x1000, 0xb17a977961727855, 0xfc0f61c07fd1eea8);
    BitAgrees(a, 0x1000);
    PartsAgree(a, 0xf00, 0x1000, 0x1f00);
    Unit13();
    UnitAgrees(0x2000, 0x55917b7f33476dff, 0xe480f5b9fbdc9a50);
    BitAgrees(a, 0x2000);
    PartsAgree(a, 0x1f00, 0x2000, 0x3f00);
    Unit14();
    UnitAgrees(0x4000, 0x3c7b0eccf579d5ce, 0x25c23e69de337bfb);
    BitAgrees(a, 0x4000);
    PartsAgree(a, 0x3f00, 0x4000, 0x7f00);
    Unit15();
    UnitAgrees(0x8000, 0x613030e1e56a9ba2, 0x9eaab3ac57c3bbf8);
    BitAgrees(a, 0x8000);
    PartsAgree(a, 0x7f00, 0x8000, 0xff00);
  }

  lemma Byte2(a: bv64)
    ensures Agrees(Pair(Part(a, 0xff0000), 0))
  {
    hide Agrees, TableSum, Part;
    Unit16();
    UnitAgrees(0x10000, 0x62f5f89d31cf15a7, 0x36cded7716ab9d49);
    BitAgrees(a, 0x10000);
    Unit17();
    UnitAgrees(0x20000, 0xa50f7f9ecb7d412e, 0xa2098ac40205d4d);
    BitAgrees(a, 0x20000);
    PartsAgree(a, 0x10000, 0x20000, 0x30000);
    Unit18();
    UnitAgrees(0x40000, 0xc5fa6e0d9e359925, 0xc47f492bbf72b5e5);
    BitAgrees(a, 0x40000);
    PartsAgree(a, 0x30000, 0x40000, 0x70000);
    Unit19();
    UnitAgrees(0x80000, 0x1d5986407cef43df, 0xf3fd3cdc79a32cde);
    BitAgrees(a, 0x80000);
    PartsAgree(a, 0x70000, 0x80000, 0xf0000);
    Unit20();
    UnitAgrees(0x100000, 0x229c51f6c7ce0e00, 0x39b3e87432915994);
    BitAgrees(a, 0x100000);
    PartsAgree(a, 0xf0000, 0x100000, 0x1f0000);
    Unit21();
    UnitAgrees(0x200000, 0x2fe69dd1a14efdb5, 0x4066c2c2455c97a2);
    BitAgrees(a, 0x200000);
    PartsAgree(a, 0x1f0000, 0x200000, 0x3f0000);
    Unit22();
    UnitAgrees(0x400000, 0xf0791a6136f0bfc8, 0x6a9eb6041bb49374);
    BitAgrees(a, 0x400000);
    PartsAgree(a, 0x3f0000, 0x400000, 0x7f0000);
    Unit23();
    UnitAgrees(0x800000, 0x71fe074dcd6805e1, 0x15e8f064c68ca06d);
    BitAgrees(a, 0x800000);
    PartsAgree(a, 0x7f0000, 0x800000, 0xff0000);
  }

  lemma Byte3(a: bv64)
    ensures Agrees(Pair(Part(a, 0xff000000), 0))
  {
    hide Agrees, TableSum, Part;
    Unit24();
    UnitAgrees(0x1000000, 0x1e586c85a5df1fe0, 0x1af3052dbef3e6ca);
    BitAgrees(a, 0x1000000);
    Unit25();
    UnitAgrees(0x2000000, 0xf85ac31fdb471288, 0x9868e8459c439a59);
    BitAgrees(a, 0x2000000);
    PartsAgree(a, 0x1000000, 0x2000000, 0x3000000);
    Unit26();
    UnitAgrees(0x4000000, 0x5610ef08e68cc033, 0x42743f896183ae4c);
    BitAgrees(a, 0x4000000);
    PartsAgree(a, 0x3000000, 0x4000000, 0x7000000);
    Unit27();
    UnitAgrees(0x8000000, 0x408cfda25b8013a8, 0xc045479df871241c);
    BitAgrees(a, 0x8000000);
    PartsAgree(a, 0x7000000, 0x8000000, 0xf000000);
    Unit28();
    UnitAgrees(0x10000000, 0x7ecf31c5dbf8e32b, 0xff6f16926f3aaa4c);
    BitAgrees(a, 0x10000000);
    PartsAgree(a, 0xf000000, 0x10000000, 0x1f000000);
    Unit29();
    UnitAgrees(0x20000000, 0x79b423e26089a2bd, 0x3906ee99917b0bc8);
    BitAgrees(a, 0x20000000);
    PartsAgree(a, 0x1f000000, 0x20000000, 0x3f000000);
    Unit30();
    UnitAgrees(0x40000000, 0xb1f70c4a74304467, 0x2b32295a5deacef0);
    BitAgrees(a, 0x40000000);
    PartsAgree(a, 0x3f000000, 0x40000000, 0x7f000000);
    Unit31();
    UnitAgrees(0x80000000, 0xc00636420d8ee3bd, 0xe18e9e6e4a0f9a0f);
    BitAgrees(a, 0x80000000);
    PartsAgree(a, 0x7f000000, 0x80000000, 0xff000000);
  }

  lemma Byte4(a: bv64)
    ensures Agrees(Pair(Part(a, 0xff00000000), 0))
  {
    hide Agrees, TableSum, Part;
    Unit32();
    UnitAgrees(0x100000000, 0xc3f5f641b98ad8c1, 0xdcada49293f03208);
    BitAgrees(a, 0x100000000);
    Unit33();
    UnitAgrees(0x200000000, 0x431be0d999b35130, 0xf1e509d0ba372a1e);
    BitAgrees(a, 0x200000000);
    PartsAgree(a, 0x100000000, 0x200000000, 0x300000000);
    Unit34();
    UnitAgrees(0x400000000, 0x900a60408d08555f, 0x391b65ce07508fd4);
    BitAgrees(a, 0x400000000);
    PartsAgree(a, 0x300000000, 0x400000000, 0x700000000);
    Unit35();
    UnitAgrees(0x800000000, 0x2c22c1fb847cada7, 0x422d71f98ad6df06);
    BitAgrees(a, 0x800000000);
    PartsAgree(a, 0x700000000, 0x800000000, 0xf00000000);
    Unit36();
    UnitAgrees(0x1000000000, 0xfcb25dcb051277e4, 0x99a054a25a10f122);
    BitAgrees(a, 0x1000000000);
    PartsAgree(a, 0xf00000000, 0x1000000000, 0x1f00000000);
    Unit37();
    UnitAgrees(0x2000000000, 0xe343b0c4cbde3170, 0x57c23ca22739e435);
    BitAgrees(a, 0x2000000000);
    PartsAgree(a, 0x1f00000000, 0x2000000000, 0x3f00000000);
    Unit38();
    UnitAgrees(0x4000000000, 0xe49c399f567cdece, 0x2a899e005e12f5f2);
    BitAgrees(a, 0x4000000000);
    PartsAgree(a, 0x3f00000000, 0x4000000000, 0x7f00000000);
    Unit39();
    UnitAgrees(0x8000000000, 0x2ab0b0aff1eded9f, 0x1dbaf834f6ca5402);
    BitAgrees(a, 0x8000000000);
    PartsAgree(a, 0x7f00000000, 0x8000000000, 0xff00000000);
  }

  lemma Byte5(a: bv64)
    ensures Agrees(Pair(Part(a, 0xff0000000000), 0))
  {
    hide Agrees, TableSum, Part;
    Unit40();
    UnitAgrees(0x10000000000, 0x1ee228692cb4aceb, 0xc958ba2aac3708a9);
    BitAgrees(a, 0x10000000000);
    Unit41();
    UnitAgrees(0x20000000000, 0x9665de0f3bd4e133, 0x9bd27a3f38f7ce9c);
    BitAgrees(a, 0x20000000000);
    PartsAgree(a, 0x10000000000, 0x20000000000, 0x30000000000);
    Unit42();
    UnitAgrees(0x40000000000, 0x1e721636f6a2935c, 0x1c3bc173b45c5aae);
    BitAgrees(a, 0x40000000000);
    PartsAgree(a, 0x30000000000, 0x40000000000, 0x70000000000);
    Unit43();
    UnitAgrees(0x80000000000, 0xdc4830e06c41b6fc, 0x45d8782d1c14c094);
    BitAgrees(a, 0x80000000000);
    PartsAgree(a, 0x70000000000, 0x80000000000, 0xf0000000000);
    Unit44();
    UnitAgrees(0x100000000000, 0xdc94958a729547a0, 0x19500cdf8936a9c1);
    BitAgrees(a, 0x100000000000);
    PartsAgree(a, 0xf0000000000, 0x100000000000, 0x1f0000000000);
    Unit45();
    UnitAgrees(0x200000000000, 0x3ce1ad9dfe487384, 0xcb439ffcc348e9b1);
    BitAgrees(a, 0x200000000000);
    PartsAgree(a, 0x1f0000000000, 0x200000000000, 0x3f0000000000);
    Unit46();
    UnitAgrees(0x400000000000, 0xf3dde80c7af7033c, 0x46ec1a9c6f585359);
    BitAgrees(a, 0x400000000000);
    PartsAgree(a, 0x3f0000000000, 0x400000000000, 0x7f0000000000);
    Unit47();
    UnitAgrees(0x800000000000, 0x260c7ee1b30ebef9, 0x656f2eb8532b2f78);
    BitAgrees(a, 0x800000000000);
    PartsAgree(a, 0x7f0000000000, 0x800000000000, 0xff0000000000);
  }

  lemma Byte6(a: bv64)
    ensures Agrees(Pair(Part(a, 0xff000000000000), 0))
  {
    hide Agrees, TableSum, Part;
    Unit48();
    UnitAgrees(0x1000000000000, 0xe10a5370e0f06195, 0x4cecfaa8f101813c);
    BitAgrees(a, 0x1000000000000);
    Unit49();
    UnitAgrees(0x2000000000000, 0x66547bf3c77728f3, 0x99c3f3dd2ebe3d36);
    BitAgrees(a, 0x2000000000000);
    PartsAgree(a, 0x1000000000000, 0x2000000000000, 0x3000000000000);
    Unit50();
    UnitAgrees(0x4000000000000, 0xdeeac6205bad07fc, 0x115e78f20e8a47c);
    BitAgrees(a, 0x4000000000000);
    PartsAgree(a, 0x3000000000000, 0x4000000000000, 0x7000000000000);
    Unit51();
    UnitAgrees(0x8000000000000, 0x9a22af2a908d6bc9, 0xf6cd0e45a1a06a93);
    BitAgrees(a, 0x8000000000000);
    PartsAgree(a, 0x7000000000000, 0x8000000000000, 0xf000000000000);
    Unit52();
    UnitAgrees(0x10000000000000, 0x64ca1ed2b9461c44, 0xf0090816ade50118);
    BitAgrees(a, 0x10000000000000);
    PartsAgree(a, 0xf000000000000, 0x10000000000000, 0x1f000000000000);
    Unit53();
    UnitAgrees(0x20000000000000, 0x5c8755f8689c5556, 0xf6076f96358b5751);
    BitAgrees(a, 0x20000000000000);
    PartsAgree(a, 0x1f000000000000, 0x20000000000000, 0x3f000000000000);
    Unit54();
    UnitAgrees(0x40000000000000, 0xa29f89e87b76b11f, 0x843e4fba54ae70b0);
    BitAgrees(a, 0x40000000000000);
    PartsAgree(a, 0x3f000000000000, 0x40000000000000, 0x7f000000000000);
    Unit55();
    UnitAgrees(0x80000000000000, 0xe08f2dd6ddababfd, 0xdc40c905781b18d7);
    BitAgrees(a, 0x80000000000000);
    PartsAgree(a, 0x7f000000000000, 0x80000000000000, 0xff000000000000);
  }

  lemma Byte7(a: bv64)
    ensures Agrees(Pair(Part(a, 0xff00000000000000), 0))
  {
    hide Agrees, TableSum, Part;
    Unit56();
    UnitAgrees(0x100000000000000, 0x1dce484d4a0fb414, 0xde98fc4abfd4f28c);
    BitAgrees(a, 0x100000000000000);
    Unit57();
    UnitAgrees(0x200000000000000, 0xb21deaf90ed503e7, 0xd8cdb45dfdf6b593);
    BitAgrees(a, 0x200000000000000);
    PartsAgree(a, 0x100000000000000, 0x200000000000000, 0x300000000000000);
    Unit58();
    UnitAgrees(0x400000000000000, 0xa569065ff68fae3a, 0xe501c8fa5da3c31);
    BitAgrees(a, 0x400000000000000);
    PartsAgree(a, 0x300000000000000, 0x400000000000000, 0x700000000000000);
    Unit59();
    UnitAgrees(0x800000000000000, 0x224fd4ce44c96963, 0x4cb3e1a122eb2d47);
    BitAgrees(a, 0x800000000000000);
    PartsAgree(a, 0x700000000000000, 0x800000000000000, 0xf00000000000000);
    Unit60();
    UnitAgrees(0x1000000000000000, 0x45bed8d46d4130a8, 0x60623b8ea581ac58);
    BitAgrees(a, 0x1000000000000000);
    PartsAgree(a, 0xf00000000000000, 0x1000000000000000, 0x1f00000000000000);
    Unit61();
    UnitAgrees(0x2000000000000000, 0x2d19651901a90183, 0xfbaf956b6d7e1fa7);
    BitAgrees(a, 0x2000000000000000);
    PartsAgree(a, 0x1f00000000000000, 0x2000000000000000, 0x3f00000000000000);
    Unit62();
    UnitAgrees(0x4000000000000000, 0xef9fcc12f812873b, 0x7ee7d5d654560c98);
    BitAgrees(a, 0x4000000000000000);
    PartsAgree(a, 0x3f00000000000000, 0x4000000000000000, 0x7f00000000000000);
    Unit63();
    UnitAgrees(0x8000000000000000, 0xb37826c3fc4b3460, 0xdd2a7ef465fc2bca);
    BitAgrees(a, 0x8000000000000000);
    PartsAgree(a, 0x7f00000000000000, 0x8000000000000000, 0xff00000000000000);
  }

  lemma FirstWordAgrees(a: bv64)
    ensures Agrees(Pair(a, 0))
  {
    hide Agrees, Part;
    WholeWord(a);
    Byte0(a);
    Byte1(a);
    PartsAgree(a, 0xff, 0xff00, 0xffff);
    Byte2(a);
    PartsAgree(a, 0xffff, 0xff0000, 0xffffff);
    Byte3(a);
    PartsAgree(a, 0xffffff, 0xff000000, 0xffffffff);
    Byte4(a);
    PartsAgree(a, 0xffffffff, 0xff00000000, 0xffffffffff);
    Byte5(a);
    PartsAgree(a, 0xffffffffff, 0xff0000000000, 0xffffffffffff);
    Byte6(a);
    PartsAgree(a, 0xffffffffffff, 0xff000000000000, 0xffffffffffffff);
    Byte7(a);
    PartsAgree(a, 0xffffffffffffff, 0xff00000000000000, 0xffffffffffffffff);
  }

  /** A state that agrees after a step agrees before it. */
  lemma AgreesBefore(s: Pair)
    requires Agrees(Step(s))
    ensures Agrees(s)
  {
    hide MaskSum, Step, Steps;
    FewSteps(s);
    FewSteps(Jumped(s));
    JumpCommutes(s, 1);
    StepFirst(s, PERIOD);
    StepIsOneToOne(Jumped(s), Steps(s, PERIOD));
  }

  /** Two equal words step to a first word alone. */
  lemma EqualWords(a: bv64)
    ensures Step(Pair(a, a)) == Pair(Turned55(a), 0)
    ensures PairSum(Pair(a, a), Pair(a, 0)) == Pair(0, a)
  {
    hide Sum, Turned55, Turned36, Left;
    SumZero(a);
    ZeroStays();
    SumZero(Turned55(a));
  }

  lemma WordsAdd(a: bv64, b: bv64)
    ensures PairSum(Pair(a, 0), Pair(0, b)) == Pair(a, b)
  {
    hide Sum;
    SumZero(a);
    SumZero(b);
  }

  /** A jump is 2^64 steps, from every state. */
  lemma JumpIsSteps(s: Pair)
    ensures Jumped(s) == Steps(s, PERIOD)
  {
    hide Jumped, Steps, Step, PairSum, Turned55;
    FirstWordAgrees(s.s0);
    FirstWordAgrees(s.s1);
    FirstWordAgrees(Turned55(s.s1));
    EqualWords(s.s1);
    AgreesBefore(Pair(s.s1, s.s1));
    SumAgrees(Pair(s.s1, s.s1), Pair(s.s1, 0));
    SumAgrees(Pair(s.s0, 0), Pair(0, s.s1));
    WordsAdd(s.s0, s.s1);
  }
}

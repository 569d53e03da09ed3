/** SHA-1 fed in pieces (src/sha1.cpp) against the definition of FIPS 180-4. */
module Sha1 {
  import opened NumberTheory
  import Bytes

  // ----- FIPS 180-4 -------------------------------------------------------

  function Rol(x: bv32, n: bv6): bv32
    requires n <= 32
  {
    (x << n) | (x >> (32 - n))
  }

  function Ch(x: bv32, y: bv32, z: bv32): bv32
  {
    (x & y) ^ (!x & z)
  }

  function Parity(x: bv32, y: bv32, z: bv32): bv32
  {
    x ^ y ^ z
  }

  function Maj(x: bv32, y: bv32, z: bv32): bv32
  {
    (x & y) ^ (x & z) ^ (y & z)
  }

  /** Section 4.1.1. */
  function F(t: nat, x: bv32, y: bv32, z: bv32): bv32
  {
    if t < 20 then Ch(x, y, z)
    else if t < 40 then Parity(x, y, z)
    else if t < 60 then Maj(x, y, z)
    else Parity(x, y, z)
  }

  /** Section 4.2.1. */
  function K(t: nat): bv32
  {
    if t < 20 then 0x5A827999 else if t < 40 then 0x6ED9EBA1 else if t < 60 then 0x8F1BBCDC else 0xCA62C1D6
  }

  function BigEndian(a: bv8, b: bv8, c: bv8, d: bv8): bv32
  {
    (a as bv32 << 24) | (b as bv32 << 16) | (c as bv32 << 8) | (d as bv32)
  }

  function WordAt(m: seq<bv8>, t: nat): bv32
    requires |m| == 64 && t < 16
  {
    BigEndian(m[4 * t], m[4 * t + 1], m[4 * t + 2], m[4 * t + 3])
  }

  /** The message schedule of eighty words, section 6.1.2 step 1. */
  function W(m: seq<bv8>, t: nat): bv32
    requires |m| == 64
  {
    if t < 16 then WordAt(m, t)
    else Expanded(W(m, t - 3), W(m, t - 8), W(m, t - 14), W(m, t - 16))
  }

  function Expanded(a: bv32, b: bv32, c: bv32, d: bv32): bv32
  {
    Rol(a ^ b ^ c ^ d, 1)
  }

  datatype Vars = Vars(a: bv32, b: bv32, c: bv32, d: bv32, e: bv32)

  function Sum(a: bv32, b: bv32, c: bv32, d: bv32, e: bv32): bv32
  {
    a + b + c + d + e
  }

  /** Section 6.1.2 step 3. */
  function Round(v: Vars, t: nat, w: bv32): Vars
  {
    Vars(Sum(Rol(v.a, 5), F(t, v.b, v.c, v.d), v.e, K(t), w), v.a, Rol(v.b, 30), v.c, v.d)
  }

  function Rounds(h: Vars, m: seq<bv8>, n: nat): Vars
    requires |m| == 64
  {
    if n == 0 then h else Round(Rounds(h, m, n - 1), n - 1, W(m, n - 1))
  }

  function Compress(h: Vars, m: seq<bv8>): Vars
    requires |m| == 64
  {
    var r := Rounds(h, m, 80);
    Vars(Plus(h.a, r.a), Plus(h.b, r.b), Plus(h.c, r.c), Plus(h.d, r.d), Plus(h.e, r.e))
  }

  function Plus(a: bv32, b: bv32): bv32
  {
    a + b
  }

  /** The hash value after the complete blocks; a last piece of a block is left over. */
  function HashBlocks(h: Vars, bytes: seq<bv8>): Vars
    decreases |bytes|
  {
    if |bytes| < 64 then h else HashBlocks(Compress(h, bytes[..64]), bytes[64..])
  }

  const INITIAL := Vars(0x67452301, 0xEFCDAB89, 0x98BADCFE, 0x10325476, 0xC3D2E1F0)

  function Zeros(n: nat): (s: seq<bv8>)
    ensures |s| == n
  {
    seq(n, _ => 0)
  }

  /** How many zero bytes section 5.1.1 puts after the byte 0x80. */
  function ZeroCount(size: nat): nat
  {
    (119 - size % 64) % 64
  }

  predicate EndsBeforeLength(size: nat, k: nat)
  {
    (size + 1 + k) % 64 == 56
  }

  /** It is the least count that leaves room for the length at the end of a block. */
  lemma ZeroCountIsLeast(size: nat)
    ensures EndsBeforeLength(size, ZeroCount(size))
    ensures forall k: nat :: k < ZeroCount(size) ==> !EndsBeforeLength(size, k)
  {
  }

  /** A byte of a number, counted from the least significant. */
  function ByteOf(n: nat, i: nat): bv8
  {
    (n / Bytes.ByteLimit(i) % 256) as bv8
  }

  /** A bit length as eight bytes, most significant first, modulo 2^64. */
  function LengthBytes(bits: nat): (s: seq<bv8>)
    ensures |s| == 8
  {
    seq(8, i requires 0 <= i < 8 => ByteOf(bits, 7 - i))
  }

  function Padded(msg: seq<bv8>): (p: seq<bv8>)
  {
    msg + [0x80] + Zeros(ZeroCount(|msg|)) + LengthBytes(8 * |msg|)
  }

  function WordByte(w: bv32, i: nat): bv8
    requires i < 4
  {
    if i == 0 then ((w >> 24) & 0xFF) as bv8
    else if i == 1 then ((w >> 16) & 0xFF) as bv8
    else if i == 2 then ((w >> 8) & 0xFF) as bv8
    else (w & 0xFF) as bv8
  }

  function WordBytes(w: bv32): seq<bv8>
  {
    [WordByte(w, 0), WordByte(w, 1), WordByte(w, 2), WordByte(w, 3)]
  }

  function VarsBytes(v: Vars): (s: seq<bv8>)
    ensures |s| == 20
  {
    WordBytes(v.a) + WordBytes(v.b) + WordBytes(v.c) + WordBytes(v.d) + WordBytes(v.e)
  }

  function Digest(msg: seq<bv8>): seq<bv8>
  {
    VarsBytes(HashBlocks(INITIAL, Padded(msg)))
  }

  lemma {:induction false} HashMore(h: Vars, a: seq<bv8>, b: seq<bv8>)
    requires |a| % 64 == 0
    ensures HashBlocks(h, a + b) == HashBlocks(HashBlocks(h, a), b)
    decreases |a|
  {
    if a == [] {
      assert a + b == b;
    } else {
      assert (a + b)[..64] == a[..64] && (a + b)[64..] == a[64..] + b;
      HashMore(Compress(h, a[..64]), a[64..], b);
    }
  }

  lemma HashOne(h: Vars, m: seq<bv8>)
    requires |m| == 64
    ensures HashBlocks(h, m) == Compress(h, m)
  {
    assert m[..64] == m && m[64..] == [];
  }

  /** A piece of a block does not change the hash value. */
  lemma HashPiece(h: Vars, a: seq<bv8>, piece: seq<bv8>)
    requires |a| % 64 == 0 && |piece| < 64
    ensures HashBlocks(h, a + piece) == HashBlocks(h, a)
  {
    HashMore(h, a, piece);
  }

  // ----- one block --------------------------------------------------------

  function LittleEndian(a: bv8, b: bv8, c: bv8, d: bv8): bv32
  {
    (a as bv32) | (b as bv32 << 8) | (c as bv32 << 16) | (d as bv32 << 24)
  }

  /** A word of the block as a little-endian machine reads it from memory. */
  function Loaded(m: seq<bv8>, t: nat): bv32
    requires |m| == 64 && t < 16
  {
    LittleEndian(m[4 * t], m[4 * t + 1], m[4 * t + 2], m[4 * t + 3])
  }

  function Swapped(l: bv32): bv32
  {
    (Rol(l, 24) & 0xFF00FF00) | (Rol(l, 8) & 0x00FF00FF)
  }

  lemma SwappedLoad(m: seq<bv8>, t: nat)
    requires |m| == 64 && t < 16
    ensures Swapped(Loaded(m, t)) == WordAt(m, t)
  {
    SwapBytes(m[4 * t], m[4 * t + 1], m[4 * t + 2], m[4 * t + 3]);
  }

  lemma SwapBytes(a: bv8, b: bv8, c: bv8, d: bv8)
    ensures Swapped(LittleEndian(a, b, c, d)) == BigEndian(a, b, c, d)
  {
  }

  /** The mixing functions as the source writes them, with fewer operations. */
  function Mix(t: nat, w: bv32, x: bv32, y: bv32): bv32
  {
    if t < 20 then Select(w, x, y)
    else if t < 40 then Parity(w, x, y)
    else if t < 60 then Vote(w, x, y)
    else Parity(w, x, y)
  }

  function Select(w: bv32, x: bv32, y: bv32): bv32
  {
    (w & (x ^ y)) ^ y
  }

  function Vote(w: bv32, x: bv32, y: bv32): bv32
  {
    ((w | x) & y) | (w & x)
  }

  lemma SelectIsCh(w: bv32, x: bv32, y: bv32)
    ensures Select(w, x, y) == Ch(w, x, y)
  {
    assert (w & (x ^ y)) ^ y == (w & x) ^ (!w & y);
  }

  lemma VoteIsMaj(w: bv32, x: bv32, y: bv32)
    ensures Vote(w, x, y) == Maj(w, x, y)
  {
    assert ((w | x) & y) | (w & x) == (w & x) ^ (w & y) ^ (x & y);
  }

  lemma MixIsF(t: nat, w: bv32, x: bv32, y: bv32)
    ensures Mix(t, w, x, y) == F(t, w, x, y)
  {
    hide Select, Vote, Ch, Maj, Parity;
    SelectIsCh(w, x, y);
    VoteIsMaj(w, x, y);
  }

  function Added(z: bv32, mix: bv32, word: bv32, k: bv32, v: bv32): bv32
  {
    z + (mix + word + k + v)
  }

  lemma SameSum(v5: bv32, f: bv32, e: bv32, k: bv32, w: bv32)
    ensures Sum(v5, f, e, k, w) == Added(e, f, w, k, v5)
  {
  }

  /** The working variables: after t rounds, which of the five registers plays which part. */
  function Roles(regs: seq<bv32>, t: nat): Vars
    requires |regs| == 5 && t <= 80
  {
    Vars(regs[(80 - t) % 5], regs[(81 - t) % 5], regs[(82 - t) % 5], regs[(83 - t) % 5], regs[(84 - t) % 5])
  }

  /** One step of the unrolled code changes two registers and renames all five. */
  lemma RolesTurn(regs: seq<bv32>, t: nat, sum: bv32, turned: bv32)
    requires |regs| == 5 && t < 80
    ensures var v := Roles(regs, t);
            Roles(regs[(84 - t) % 5 := sum][(81 - t) % 5 := turned], t + 1) == Vars(sum, v.a, turned, v.c, v.d)
  {
    var r := t % 5;
    assert (80 - t) % 5 == (5 - r) % 5;
    assert r == 0 || r == 1 || r == 2 || r == 3 || r == 4;
  }

  ghost function FromState(s: seq<bv32>): Vars
    requires |s| == 5
  {
    Vars(s[0], s[1], s[2], s[3], s[4])
  }

  /** The ring of sixteen words: the last sixteen of the schedule, or words not yet swapped. */
  ghost predicate Ring(block: seq<bv32>, m: seq<bv8>, i: nat)
    requires |block| == 16 && |m| == 64
  {
    && (forall t :: 0 <= t < i && i - 16 <= t ==> block[t % 16] == W(m, t))
    && (forall t :: i <= t < 16 ==> block[t] == Loaded(m, t))
  }

  lemma RingStep(block: seq<bv32>, m: seq<bv8>, i: nat)
    requires |block| == 16 && |m| == 64 && Ring(block, m, i)
    ensures var word := if i < 16 then Swapped(block[i])
                        else Expanded(block[(i + 13) % 16], block[(i + 8) % 16], block[(i + 2) % 16], block[i % 16]);
            word == W(m, i) && Ring(block[i % 16 := word], m, i + 1)
  {
    hide Expanded, Swapped, Loaded, W;
    if i < 16 {
      SwappedLoad(m, i);
      FirstWords(m, i);
    } else {
      LaterWords(m, i);
      assert block[(i - 3) % 16] == W(m, i - 3) && block[(i - 8) % 16] == W(m, i - 8);
      assert block[(i - 14) % 16] == W(m, i - 14) && block[(i - 16) % 16] == W(m, i - 16);
      SamePlaces(i);
    }
    RingTurns(block, m, i, W(m, i));
  }

  lemma SamePlaces(i: nat)
    requires i >= 16
    ensures (i + 13) % 16 == (i - 3) % 16 && (i + 8) % 16 == (i - 8) % 16
    ensures (i + 2) % 16 == (i - 14) % 16 && i % 16 == (i - 16) % 16
  {
  }

  lemma FirstWords(m: seq<bv8>, t: nat)
    requires |m| == 64 && t < 16
    ensures W(m, t) == WordAt(m, t)
  {
  }

  lemma LaterWords(m: seq<bv8>, t: nat)
    requires |m| == 64 && t >= 16
    ensures W(m, t) == Expanded(W(m, t - 3), W(m, t - 8), W(m, t - 14), W(m, t - 16))
  {
    hide Expanded;
  }

  lemma RingTurns(block: seq<bv32>, m: seq<bv8>, i: nat, word: bv32)
    requires |block| == 16 && |m| == 64 && Ring(block, m, i) && word == W(m, i)
    ensures Ring(block[i % 16 := word], m, i + 1)
  {
    hide Loaded, W;
    var next := block[i % 16 := word];
    forall t | 0 <= t < i + 1 && i + 1 - 16 <= t
      ensures next[t % 16] == W(m, t)
    {
      if t < i {
        assert t % 16 != i % 16;
      }
    }
  }

  /** One block, with a ring of sixteen words in place of the schedule and registers that are
      renamed instead of moved. */
  method Transform(state: array<bv32>, buffer: seq<bv8>)
    requires state.Length == 5 && |buffer| == 64
    modifies state
    ensures FromState(state[..]) == Compress(old(FromState(state[..])), buffer)
  {
    hide Plus, Rounds, Loaded;
    var block := new bv32[16](i requires 0 <= i < 16 => Loaded(buffer, i));
    var regs := EightyRounds(block, buffer, state[..]);
    state[0] := Plus(state[0], regs[0]);
    state[1] := Plus(state[1], regs[1]);
    state[2] := Plus(state[2], regs[2]);
    state[3] := Plus(state[3], regs[3]);
    state[4] := Plus(state[4], regs[4]);
  }

  /** The unrolled rounds as a loop. */
  method EightyRounds(block: array<bv32>, ghost m: seq<bv8>, start: seq<bv32>) returns (regs: seq<bv32>)
    requires |start| == 5 && |m| == 64 && block.Length == 16
    requires forall i :: 0 <= i < 16 ==> block[i] == Loaded(m, i)
    modifies block
    ensures |regs| == 5 && FromState(regs) == Rounds(FromState(start), m, 80)
  {
    hide Expanded, Swapped, Loaded, W, Ring, Roles, Round, Rounds, FromState;
    ghost var h := FromState(start);
    regs := start;
    StartOfRounds(block[..], m, regs);
    NoRounds(h, m);
    for i := 0 to 80
      invariant |regs| == 5 && Ring(block[..], m, i)
      invariant Roles(regs, i) == Rounds(h, m, i)
    {
      RingStep(block[..], m, i);
      block[i % 16] := if i < 16 then Swapped(block[i])
        else Expanded(block[(i + 13) % 16], block[(i + 8) % 16], block[(i + 2) % 16], block[i % 16]);
      regs := RoundInPlace(regs, i, block[i % 16]);
      OneMoreRound(h, m, i);
    }
    EndOfRounds(regs);
  }

  lemma NoRounds(h: Vars, m: seq<bv8>)
    requires |m| == 64
    ensures Rounds(h, m, 0) == h
  {
  }

  lemma OneMoreRound(h: Vars, m: seq<bv8>, n: nat)
    requires |m| == 64
    ensures Rounds(h, m, n + 1) == Round(Rounds(h, m, n), n, W(m, n))
  {
    hide Round, W;
  }

  lemma StartOfRounds(block: seq<bv32>, m: seq<bv8>, regs: seq<bv32>)
    requires |block| == 16 && |m| == 64 && |regs| == 5
    requires forall i :: 0 <= i < 16 ==> block[i] == Loaded(m, i)
    ensures Ring(block, m, 0) && Roles(regs, 0) == FromState(regs)
  {
  }

  lemma EndOfRounds(regs: seq<bv32>)
    requires |regs| == 5
    ensures Roles(regs, 80) == FromState(regs)
  {
  }

  method RoundInPlace(before: seq<bv32>, i: nat, word: bv32) returns (regs: seq<bv32>)
    requires |before| == 5 && i < 80
    ensures |regs| == 5 && Roles(regs, i + 1) == Round(Roles(before, i), i, word)
  {
    hide Rol, F, Mix, K, Added, Sum;
    var v, w, x, y, z := (80 - i) % 5, (81 - i) % 5, (82 - i) % 5, (83 - i) % 5, (84 - i) % 5;
    ghost var r := Roles(before, i);
    MixIsF(i, r.b, r.c, r.d);
    SameSum(Rol(r.a, 5), F(i, r.b, r.c, r.d), r.e, K(i), word);
    RolesTurn(before, i, Added(r.e, F(i, r.b, r.c, r.d), word, K(i), Rol(r.a, 5)), Rol(r.b, 30));
    regs := before;
    regs := regs[z := Added(regs[z], Mix(i, regs[w], regs[x], regs[y]), word, K(i), Rol(regs[v], 5))];
    assert w != z;
    regs := regs[w := Rol(regs[w], 30)];
  }

  // ----- feeding pieces ---------------------------------------------------

  const T32 := 0x1_0000_0000
  const T64 := 0x1_0000_0000_0000_0000

  lemma Feed(bytes: seq<bv8>, tail: seq<bv8>, m: seq<bv8>)
    requires |bytes| % 64 == 0 && |m| == 64 && tail <= m && |tail| < 64
    ensures HashBlocks(INITIAL, bytes + m) == Compress(HashBlocks(INITIAL, bytes + tail), m)
  {
    hide HashBlocks, Compress;
    HashPiece(INITIAL, bytes, tail);
    HashMore(INITIAL, bytes, m);
    HashOne(HashBlocks(INITIAL, bytes), m);
  }

  function Wrap32(n: nat): (r: nat)
    ensures r < T32
  {
    n % T32
  }

  /** Two 32-bit halves of the number of bits in n bytes, modulo 2^64. */
  ghost predicate CountsBits(c0: nat, c1: nat, n: nat)
  {
    c0 < T32 && c1 < T32 && c1 * T32 + c0 == 8 * n % T64
  }

  /** The bytes in the buffer, from the low half. */
  function Fill(c0: nat): (j: nat)
    ensures j < 64
  {
    c0 / 8 % 64
  }

  /** The low half of the bit count tells how full the buffer is. */
  lemma BufferFill(n: nat, c0: nat, c1: nat)
    requires CountsBits(c0, c1, n)
    ensures Fill(c0) == n % 64
  {
    var k := 8 * n / T64 * T32 + c1;
    assert n == (k * 0x80_0000) * 64 + c0 / 8;
    ModAddMultiple(c0 / 8, k * 0x80_0000, 64);
  }

  lemma CarryFound(c0: nat, len: nat)
    requires c0 < T32
    ensures var d0 := Wrap32(c0 + Wrap32(len * 8));
            len * 8 + c0 == (len / 0x2000_0000 + (if d0 < c0 then 1 else 0)) * T32 + d0
  {
  }

  /** The two halves of the bit count, with the carry found by the wrap of the low half. */
  lemma BitsCounted(n: nat, len: nat, c0: nat, c1: nat)
    requires CountsBits(c0, c1, n)
    ensures var d0 := Wrap32(c0 + Wrap32(len * 8));
            CountsBits(d0, Wrap32(Wrap32(c1 + (if d0 < c0 then 1 else 0)) + len / 0x2000_0000), n + len)
  {
    var d0 := Wrap32(c0 + Wrap32(len * 8));
    var carry := if d0 < c0 then 1 else 0;
    var high := len / 0x2000_0000;
    CarryFound(c0, len);
    ModAdd(c1 + carry, high, T32);
    var sum := c1 + carry + high;
    var q := 8 * n / T64;
    assert 8 * n == q * T64 + c1 * T32 + c0;
    assert sum == sum / T32 * T32 + Wrap32(sum);
    assert 8 * (n + len) == (q + sum / T32) * T64 + (Wrap32(sum) * T32 + d0);
    DivModUnique(8 * (n + len), q + sum / T32, Wrap32(sum) * T32 + d0, T64);
  }

  /** The part of a byte string after its last complete block. */
  function Rest(s: seq<bv8>): (r: seq<bv8>)
    ensures |r| < 64
  {
    s[|s| - |s| % 64..]
  }

  lemma RestOf(whole: seq<bv8>, piece: seq<bv8>)
    requires |whole| % 64 == 0 && |piece| < 64
    ensures Rest(whole + piece) == piece && HashBlocks(INITIAL, whole + piece) == HashBlocks(INITIAL, whole)
  {
    hide HashBlocks;
    HashPiece(INITIAL, whole, piece);
    DivModUnique(|whole| + |piece|, |whole| / 64, |piece|, 64);
    assert (whole + piece)[|whole|..] == piece;
  }

  lemma BufferHolds(s: seq<bv8>, c0: nat, c1: nat)
    requires CountsBits(c0, c1, |s|)
    ensures Fill(c0) == |Rest(s)| && c0 < T32 && c1 < T32
  {
    BufferFill(|s|, c0, c1);
  }

  lemma WholeAndRest(s: seq<bv8>) returns (whole: seq<bv8>)
    ensures s == whole + Rest(s) && |whole| % 64 == 0
  {
    whole := s[..|s| - |s| % 64];
  }

  // ----- the places a piece is copied to ----------------------------------

  /** The test for a complete block, in a 32-bit word. */
  predicate Completes(j: nat, len: nat)
  {
    Wrap32(j + len) > 63
  }

  /** Where the loop over the data stops that goes on from i in steps of a block. */
  function LoopEnd(j: nat, i: nat, len: nat): (r: nat)
    requires j < 64 && i <= len && j + len < T32 && (j + i) % 64 == 0
    ensures i <= r <= len < r + 64 && (j + r) % 64 == 0
    decreases len - i
  {
    if Wrap32(i + 63) < len then LoopEnd(j, i + 64, len) else i
  }

  /** How much of a piece is used up before its last copy, with j bytes in the buffer. */
  function UsedUp(j: nat, len: nat): (r: nat)
    requires j < 64 && len < T32
    ensures r <= len
  {
    if Completes(j, len) then LoopEnd(j, 64 - j, len) else 0
  }

  /** Where the last copy into the buffer ends; the first one, if any, fills it up. */
  function CopyEnd(j: nat, len: nat): nat
    requires j < 64 && len < T32
  {
    (if Completes(j, len) then 0 else j) + (len - UsedUp(j, len))
  }

  /** The copies stay inside the 64 bytes of the buffer if and only if the sum of the bytes
      buffered and the new ones does not wrap. */
  lemma CopiesStayInsideExactly(j: nat, len: nat)
    requires j < 64 && len < T32
    ensures CopyEnd(j, len) <= 64 <==> j + len < T32
  {
    assert Completes(j, len) <==> 63 < j + len < T32;
    hide Completes;
  }

  /** One byte is buffered and a piece of 2^32 - 1 bytes is given. */
  lemma CopyOverruns()
    ensures CopyEnd(1, T32 - 1) == T32
  {
  }

  class Context {
    const state: array<bv32>
    const buffer: array<bv8>
    var count0: nat
    var count1: nat
    ghost var fed: seq<bv8>

    /** The state is the hash of all complete blocks fed, the buffer starts with the rest,
        and the two counters hold the number of bits modulo 2^64. */
    ghost predicate Valid()
      reads this, state, buffer
    {
      && state.Length == 5 && buffer.Length == 64
      && FromState(state[..]) == HashBlocks(INITIAL, fed)
      && buffer[..|Rest(fed)|] == Rest(fed)
      && CountsBits(count0, count1, |fed|)
    }

    constructor Init()
      ensures Valid() && fed == [] && fresh(state) && fresh(buffer)
    {
      state := new bv32[] [0x67452301, 0xEFCDAB89, 0x98BADCFE, 0x10325476, 0xC3D2E1F0];
      buffer := new bv8[64];
      count0, count1 := 0, 0;
      fed := [];
      new;
      hide HashBlocks;
      NothingHashed();
    }

    method CopyIn(at: nat, piece: seq<bv8>)
      requires buffer.Length == 64 && at + |piece| <= 64
      modifies buffer
      ensures buffer[..at] == old(buffer[..at]) && buffer[at..at + |piece|] == piece
    {
      forall k | 0 <= k < |piece| {
        buffer[at + k] := piece[k];
      }
    }

    method CountBits(len: nat)
      requires count0 < T32 && count1 < T32
      modifies this`count0, this`count1
      ensures count0 == Wrap32(old(count0) + Wrap32(len * 8))
      ensures count1 == Wrap32(Wrap32(old(count1) + (if count0 < old(count0) then 1 else 0)) + len / 0x2000_0000)
    {
      hide Wrap32;
      var j := count0;
      count0 := Wrap32(count0 + Wrap32(len * 8));
      if count0 < j {
        count1 := Wrap32(count1 + 1);
      } else {
        StaysSmall(count1);
      }
      count1 := Wrap32(count1 + len / 0x2000_0000);
    }

    /** Transforms complete blocks straight from the data. */
    method TransformAll(data: seq<bv8>, start: nat, ghost base: seq<bv8>) returns (i: nat)
      requires state.Length == 5 && start <= |data| < T32 && (|base| + start) % 64 == 0
      requires FromState(state[..]) == HashBlocks(INITIAL, base + data[..start])
      modifies state
      ensures i <= |data| < i + 64 && (|base| + i) % 64 == 0
      ensures FromState(state[..]) == HashBlocks(INITIAL, base + data[..i])
    {
      hide HashBlocks, Compress, FromState;
      i := start;
      while i + 63 < |data|
        invariant i <= |data| && (|base| + i) % 64 == 0
        invariant FromState(state[..]) == HashBlocks(INITIAL, base + data[..i])
      {
        var m := data[i..i + 64];
        assert base + data[..i] + [] == base + data[..i];
        Feed(base + data[..i], [], m);
        Transform(state, m);
        assert base + data[..i] + m == base + data[..i + 64];
        i := i + 64;
      }
    }

    /** Completes the block in the buffer, then goes on with blocks of the data. */
    method FillAndTransform(j: nat, data: seq<bv8>, ghost whole: seq<bv8>, ghost tail: seq<bv8>) returns (i: nat)
      requires state.Length == 5 && buffer.Length == 64 && 63 < j + |data| < T32
      requires |whole| % 64 == 0 && |tail| == j < 64 && buffer[..j] == tail
      requires FromState(state[..]) == HashBlocks(INITIAL, whole + tail)
      modifies state, buffer
      ensures i <= |data| < i + 64 && |whole + tail + data[..i]| % 64 == 0
      ensures FromState(state[..]) == HashBlocks(INITIAL, whole + tail + data[..i])
    {
      hide HashBlocks, Compress, FromState;
      i := 64 - j;
      CopyIn(j, data[..i]);
      assert buffer[..] == tail + data[..i];
      assert tail <= buffer[..];
      Feed(whole, tail, buffer[..]);
      Transform(state, buffer[..]);
      assert whole + buffer[..] == whole + tail + data[..i];
      i := TransformAll(data, i, whole + tail);
    }

    method Update(data: seq<bv8>)
      requires Valid() && |Rest(fed)| + |data| < T32
      modifies this`count0, this`count1, this`fed, state, buffer
      ensures Valid() && fed == old(fed) + data
    {
      hide HashBlocks, Compress, FromState, Rest, Wrap32, CountsBits, Fill;
      BufferHolds(fed, count0, count1);
      BitsCounted(|fed|, |data|, count0, count1);
      var j := count0;
      CountBits(|data|);
      j := Fill(j);
      ghost var whole := WholeAndRest(fed);
      ghost var tail := Rest(fed);
      var i := 0;
      if j + |data| > 63 {
        i := FillAndTransform(j, data, whole, tail);
        j := 0;
        RestOf(fed + data[..i], data[i..]);
        assert fed + data[..i] + data[i..] == fed + data;
      } else {
        RestOf(whole, tail);
        RestOf(whole, tail + data);
        assert whole + (tail + data) == fed + data;
        assert data[0..] == data;
      }
      CopyIn(j, data[i..]);
      assert buffer[..j + (|data| - i)] == buffer[..j] + data[i..];
      fed := fed + data;
    }

    /** Pads one byte at a time, appends the length, and wipes the context. */
    method Final() returns (digest: seq<bv8>)
      requires Valid()
      modifies this`count0, this`count1, this`fed, state, buffer
      ensures digest == Digest(old(fed))
    {
      hide HashBlocks, FromState, Rest, CountsBits, LengthBytes, Fill, ZeroCount, VarsBytes;
      ghost var msg, zeros := fed, 0;
      CountBytes(count0, count1, |fed|);
      var finalcount := LengthOf(count0, count1);
      Update([0x80]);
      assert fed == msg + [0x80] + Zeros(0);
      while Fill(count0) * 8 != 448
        invariant Valid() && zeros <= ZeroCount(|msg|) && fed == msg + [0x80] + Zeros(zeros)
        decreases ZeroCount(|msg|) - zeros
      {
        NotYet(|msg|, zeros, count0, count1);
        Update([0]);
        assert Zeros(zeros) + [0] == Zeros(zeros + 1);
        zeros := zeros + 1;
      }
      Enough(|msg|, zeros, count0, count1);
      Update(finalcount);
      assert fed == Padded(msg);
      var words := state[..];
      digest := seq(20, i requires 0 <= i < 20 => WordByte(words[i / 4], i % 4));
      DigestOf(words, digest);
      forall i | 0 <= i < 5 {
        state[i] := 0;
      }
      forall i | 0 <= i < 64 {
        buffer[i] := 0;
      }
      count0, count1 := 0, 0;
    }
  }

  function LengthOf(c0: nat, c1: nat): seq<bv8>
  {
    seq(8, i requires 0 <= i < 8 => ByteOf(if i >= 4 then c0 else c1, 3 - i % 4))
  }

  /** The counters written out are the bytes of the length modulo 2^64. */
  lemma CountBytes(c0: nat, c1: nat, n: nat)
    requires CountsBits(c0, c1, n)
    ensures LengthOf(c0, c1) == LengthBytes(8 * n)
  {
    hide CountsBits;
    forall i | 0 <= i < 8
      ensures ByteOf(if i >= 4 then c0 else c1, 3 - i % 4) == ByteOf(8 * n, 7 - i)
    {
      CountByte(c0, c1, n, i);
    }
  }

  lemma CountByte(c0: nat, c1: nat, n: nat, i: nat)
    requires CountsBits(c0, c1, n) && i < 8
    ensures (if i >= 4 then c0 else c1) / Bytes.ByteLimit(3 - i % 4) % 256 == 8 * n / Bytes.ByteLimit(7 - i) % 256
  {
    hide Bytes.ByteLimit;
    var q := 8 * n / T64;
    if i >= 4 {
      HighPart(q * T32 + c1, c0, 7 - i);
    } else {
      assert 8 * n == (q * T32 + c1) * T32 + c0;
      DropLow(q * T32 + c1, c0, 3 - i);
      HighPart(q, c1, 3 - i);
    }
  }

  /** Whole multiples of 2^32 do not reach the low four bytes. */
  lemma HighPart(high: nat, low: nat, k: nat)
    requires k < 4
    ensures (high * T32 + low) / Bytes.ByteLimit(k) % 256 == low / Bytes.ByteLimit(k) % 256
  {
    var p, rest := Bytes.ByteLimit(k), Bytes.ByteLimit(3 - k);
    PowerProduct(k);
    hide Bytes.ByteLimit;
    LowByte(high, low, p, rest);
  }

  lemma LowByte(high: nat, low: nat, p: nat, rest: nat)
    requires p > 0 && p * (256 * rest) == T32
    ensures (high * T32 + low) / p % 256 == low / p % 256
  {
    var h := high * rest;
    assert high * (p * (256 * rest)) == (256 * h) * p;
    DivModUnique(high * T32 + low, 256 * h + low / p, low % p, p);
    ModAddMultiple(low / p, h, 256);
  }

  lemma PowerProduct(k: nat)
    requires k < 4
    ensures Bytes.ByteLimit(k) * (256 * Bytes.ByteLimit(3 - k)) == T32 && Bytes.ByteLimit(k + 4) == T32 * Bytes.ByteLimit(k)
  {
    assert Bytes.ByteLimit(1) == 256 && Bytes.ByteLimit(2) == 0x1_0000;
    assert Bytes.ByteLimit(3) == 0x100_0000 && Bytes.ByteLimit(4) == T32;
    assert Bytes.ByteLimit(5) == 256 * T32 && Bytes.ByteLimit(6) == 0x1_0000 * T32;
    assert k == 0 || k == 1 || k == 2 || k == 3;
  }

  /** The bytes above the low four are those of the high half. */
  lemma DropLow(high: nat, low: nat, k: nat)
    requires low < T32 && k < 4
    ensures (high * T32 + low) / Bytes.ByteLimit(k + 4) == high / Bytes.ByteLimit(k)
  {
    var p := Bytes.ByteLimit(k);
    PowerProduct(k);
    hide Bytes.ByteLimit;
    var q, r := high / p, high % p;
    assert (high * T32 + low) == q * (T32 * p) + (r * T32 + low) by {
      assert high == q * p + r;
      assert (q * p + r) * T32 == q * (T32 * p) + r * T32;
    }
    MulMonotone(r, T32, p - 1, T32);
    assert (p - 1) * T32 == T32 * p - T32;
    DivModUnique(high * T32 + low, q, r * T32 + low, T32 * p);
  }

  lemma NotYet(size: nat, zeros: nat, c0: nat, c1: nat)
    requires CountsBits(c0, c1, size + 1 + zeros) && zeros <= ZeroCount(size) && Fill(c0) * 8 != 448
    ensures zeros < ZeroCount(size)
  {
    BufferFill(size + 1 + zeros, c0, c1);
    ZeroCountIsLeast(size);
  }

  lemma Enough(size: nat, zeros: nat, c0: nat, c1: nat)
    requires CountsBits(c0, c1, size + 1 + zeros) && zeros <= ZeroCount(size) && Fill(c0) * 8 == 448
    ensures zeros == ZeroCount(size)
  {
    BufferFill(size + 1 + zeros, c0, c1);
    ZeroCountIsLeast(size);
    assert EndsBeforeLength(size, zeros);
  }

  lemma DigestWord(state: seq<bv32>, digest: seq<bv8>, q: nat)
    requires |state| == 5 && |digest| == 20 && q < 5
    requires forall i :: 0 <= i < 20 ==> digest[i] == WordByte(state[i / 4], i % 4)
    ensures digest[4 * q..4 * q + 4] == WordBytes(state[q])
  {
    hide WordByte;
    assert digest[4 * q] == WordByte(state[q], 0) && digest[4 * q + 1] == WordByte(state[q], 1);
    assert digest[4 * q + 2] == WordByte(state[q], 2) && digest[4 * q + 3] == WordByte(state[q], 3);
  }

  lemma DigestOf(state: seq<bv32>, digest: seq<bv8>)
    requires |state| == 5 && |digest| == 20
    requires forall i :: 0 <= i < 20 ==> digest[i] == WordByte(state[i / 4], i % 4)
    ensures digest == VarsBytes(FromState(state))
  {
    hide WordByte, WordBytes;
    DigestWord(state, digest, 0);
    DigestWord(state, digest, 1);
    DigestWord(state, digest, 2);
    DigestWord(state, digest, 3);
    DigestWord(state, digest, 4);
    assert digest == digest[..4] + digest[4..8] + digest[8..12] + digest[12..16] + digest[16..20];
  }

  /** The digest keeps every bit of the five words. */
  lemma WordFromBytes(w: bv32)
    ensures BigEndian(WordByte(w, 0), WordByte(w, 1), WordByte(w, 2), WordByte(w, 3)) == w
  {
    assert (((w >> 24) & 0xFF) as bv8 as bv32 << 24) | (((w >> 16) & 0xFF) as bv8 as bv32 << 16)
         | (((w >> 8) & 0xFF) as bv8 as bv32 << 8) | ((w & 0xFF) as bv8 as bv32) == w;
  }

  /** How the input was cut into pieces leaves no trace: contexts fed the same bytes agree. */
  lemma PiecesDoNotMatter(a: Context, b: Context)
    requires a.Valid() && b.Valid() && a.fed == b.fed
    ensures a.state[..] == b.state[..] && a.count0 == b.count0 && a.count1 == b.count1
    ensures a.buffer[..|Rest(a.fed)|] == b.buffer[..|Rest(b.fed)|]
  {
    SameState(a.state[..], b.state[..]);
    assert a.count1 * T32 + a.count0 == b.count1 * T32 + b.count0;
  }

  lemma SameState(s: seq<bv32>, t: seq<bv32>)
    requires |s| == |t| == 5 && FromState(s) == FromState(t)
    ensures s == t
  {
  }

  /** Feeds the bytes one by one; a terminating zero follows the digest. */
  method SHA1(hashOut: array<bv8>, str: seq<bv8>)
    requires hashOut.Length >= 21 && |str| < 0x8000_0000
    modifies hashOut
    ensures hashOut[..20] == Digest(str) && hashOut[20] == 0
  {
    hide Digest, HashBlocks, FromState, CountsBits;
    var ctx := new Context.Init();
    for ii := 0 to |str|
      invariant fresh(ctx) && fresh(ctx.state) && fresh(ctx.buffer)
      invariant ctx.Valid() && ctx.fed == str[..ii]
    {
      ctx.Update([str[ii]]);
      assert str[..ii] + [str[ii]] == str[..ii + 1];
    }
    assert str[..|str|] == str;
    var digest := ctx.Final();
    DigestSize(str);
    forall i | 0 <= i < 20 {
      hashOut[i] := digest[i];
    }
    hashOut[20] := 0;
    assert hashOut[..20] == digest;
  }

  lemma DigestSize(msg: seq<bv8>)
    ensures |Digest(msg)| == 20
  {
    hide HashBlocks;
  }

  lemma NothingHashed()
    ensures HashBlocks(INITIAL, []) == INITIAL
  {
  }

  lemma StaysSmall(n: nat)
    requires n < T32
    ensures Wrap32(n) == n
  {
  }
}

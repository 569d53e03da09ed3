/** The AES-256 cipher and its inverse on a block inside a buffer (src/aes.cpp), against the
    round functions of FIPS 197. */
module AesCipher {
  import opened Aes

  const NB := 4
  const NK := 8
  const NR := 14

  type Bytes = seq<bv8>

  // ----- the round functions of FIPS 197 ----------------------------------

  function XorOf(s: Bytes, k: Bytes): (r: Bytes)
    requires |s| <= |k|
    ensures |r| == |s|
  {
    seq(|s|, i requires 0 <= i < |s| => Xor(s[i], k[i]))
  }

  function Substituted(s: Bytes): (r: Bytes)
    ensures |r| == |s|
  {
    seq(|s|, i requires 0 <= i < |s| => Sbox(s[i]))
  }

  function Unsubstituted(s: Bytes): (r: Bytes)
    ensures |r| == |s|
  {
    seq(|s|, i requires 0 <= i < |s| => Rsbox(s[i]))
  }

  /** Row r turns left by r columns; the byte of row r and column c is number 4 c + r. */
  function Shifted<T>(s: seq<T>): (r: seq<T>)
    requires |s| == 16
    ensures |r| == 16
  {
    seq(16, i requires 0 <= i < 16 => s[(i + 4 * (i % 4)) % 16])
  }

  function Unshifted<T>(s: seq<T>): (r: seq<T>)
    requires |s| == 16
    ensures |r| == 16
  {
    seq(16, i requires 0 <= i < 16 => s[(i + 12 * (i % 4)) % 16])
  }

  /** The number of the byte d rows further down, around the column. */
  function Place(i: nat, d: nat): (k: nat)
    requires i < 16
    ensures k < 16
  {
    i / 4 * 4 + (i + d) % 4
  }

  function Below(s: Bytes, i: nat, d: nat): bv8
    requires |s| == 16 && i < 16
  {
    s[Place(i, d)]
  }

  function ColumnsMixed(s: Bytes): (r: Bytes)
    requires |s| == 16
    ensures |r| == 16
  {
    seq(16, i requires 0 <= i < 16 => Mixed(Below(s, i, 0), Below(s, i, 1), Below(s, i, 2), Below(s, i, 3)))
  }

  function ColumnsUnmixed(s: Bytes): (r: Bytes)
    requires |s| == 16
    ensures |r| == 16
  {
    seq(16, i requires 0 <= i < 16 => Unmixed(Below(s, i, 0), Below(s, i, 1), Below(s, i, 2), Below(s, i, 3)))
  }

  function RoundKey(keys: Bytes, round: nat): (k: Bytes)
    requires |keys| == 240 && round <= NR
    ensures |k| == 16
  {
    keys[16 * round..16 * round + 16]
  }

  /** The state after the first rounds, section 5.1. */
  function Rounds(s: Bytes, keys: Bytes, n: nat): (r: Bytes)
    requires |s| == 16 && |keys| == 240 && n < NR
    ensures |r| == 16
    decreases n
  {
    if n == 0 then XorOf(s, RoundKey(keys, 0))
    else XorOf(ColumnsMixed(Shifted(Substituted(Rounds(s, keys, n - 1)))), RoundKey(keys, n))
  }

  function Encrypted(s: Bytes, keys: Bytes): (r: Bytes)
    requires |s| == 16 && |keys| == 240
    ensures |r| == 16
  {
    XorOf(Shifted(Substituted(Rounds(s, keys, NR - 1))), RoundKey(keys, NR))
  }

  /** The state of the inverse cipher down to a round, section 5.3. */
  function InvRounds(s: Bytes, keys: Bytes, n: nat): (r: Bytes)
    requires |s| == 16 && |keys| == 240 && 1 <= n <= NR
    ensures |r| == 16
    decreases NR - n
  {
    if n == NR then XorOf(s, RoundKey(keys, NR))
    else ColumnsUnmixed(XorOf(Unsubstituted(Unshifted(InvRounds(s, keys, n + 1))), RoundKey(keys, n)))
  }

  function Decrypted(s: Bytes, keys: Bytes): (r: Bytes)
    requires |s| == 16 && |keys| == 240
    ensures |r| == 16
  {
    XorOf(Unsubstituted(Unshifted(InvRounds(s, keys, 1))), RoundKey(keys, 0))
  }

  // ----- every step is undone ---------------------------------------------

  lemma XorUndone(s: Bytes, k: Bytes)
    requires |s| <= |k|
    ensures XorOf(XorOf(s, k), k) == s
  {
    forall i | 0 <= i < |s|
      ensures Xor(Xor(s[i], k[i]), k[i]) == s[i]
    {
      XorTwice(s[i], k[i]);
    }
    hide Xor;
  }

  lemma SubstitutionUndone(s: Bytes)
    ensures Unsubstituted(Substituted(s)) == s
  {
    forall i | 0 <= i < |s|
      ensures Rsbox(Sbox(s[i])) == s[i]
    {
      SboxUndone(s[i]);
    }
    hide Sbox, Rsbox;
  }

  lemma ShiftUndone(s: Bytes)
    requires |s| == 16
    ensures Unshifted(Shifted(s)) == s
  {
    forall i | 0 <= i < 16
      ensures Unshifted(Shifted(s))[i] == s[i]
    {
      TurnBack(i);
    }
  }

  lemma TurnBack(i: nat)
    requires i < 16
    ensures var j := (i + 12 * (i % 4)) % 16;
            j < 16 && (j + 4 * (j % 4)) % 16 == i
  {
    assert i % 4 == 0 || i % 4 == 1 || i % 4 == 2 || i % 4 == 3;
  }

  lemma MixUndone(s: Bytes)
    requires |s| == 16
    ensures ColumnsUnmixed(ColumnsMixed(s)) == s
  {
    hide Mixed, Unmixed;
    forall i | 0 <= i < 16
      ensures ColumnsUnmixed(ColumnsMixed(s))[i] == s[i]
    {
      ColumnReturns(Below(s, i, 0), Below(s, i, 1), Below(s, i, 2), Below(s, i, 3));
      BelowMixed(s, i);
      assert Place(i, 0) == i;
    }
  }

  /** The mixed bytes of the column of a byte, from that byte on downwards. */
  lemma BelowMixed(s: Bytes, i: nat)
    requires |s| == 16 && i < 16
    ensures var m := ColumnsMixed(s);
            var a, b, c, d := Below(s, i, 0), Below(s, i, 1), Below(s, i, 2), Below(s, i, 3);
            && Below(m, i, 0) == Mixed(a, b, c, d) && Below(m, i, 1) == Mixed(b, c, d, a)
            && Below(m, i, 2) == Mixed(c, d, a, b) && Below(m, i, 3) == Mixed(d, a, b, c)
  {
    hide Mixed, Below;
    MixedBelow(s, i, 0);
    MixedBelow(s, i, 1);
    MixedBelow(s, i, 2);
    MixedBelow(s, i, 3);
    BelowAround(s, i, 0);
    BelowAround(s, i, 1);
    BelowAround(s, i, 2);
  }

  lemma WholeColumns(i: nat, n: nat)
    ensures (4 * i + n) % 4 == n % 4 && (n < 4 ==> (4 * i + n) / 4 == i)
  {
  }

  lemma PlaceAround(i: nat, d: nat)
    requires i < 16
    ensures Place(i, d + 4) == Place(i, d)
  {
    WholeColumns(1, i + d);
  }

  lemma BelowAround(s: Bytes, i: nat, d: nat)
    requires |s| == 16 && i < 16
    ensures Below(s, i, d + 4) == Below(s, i, d)
  {
    hide Place;
    PlaceAround(i, d);
  }

  lemma BelowBelow(i: nat, d: nat, e: nat)
    requires i < 16
    ensures Place(Place(i, d), e) == Place(i, d + e)
  {
    var k := Place(i, d);
    assert k / 4 == i / 4;
  }

  lemma MixedBelow(s: Bytes, i: nat, d: nat)
    requires |s| == 16 && i < 16
    ensures Below(ColumnsMixed(s), i, d)
         == Mixed(Below(s, i, d), Below(s, i, d + 1), Below(s, i, d + 2), Below(s, i, d + 3))
  {
    hide Mixed, Place;
    BelowBelow(i, d, 0);
    BelowBelow(i, d, 1);
    BelowBelow(i, d, 2);
    BelowBelow(i, d, 3);
  }

  /** After undoing rounds down to n, what is left is the state just before the key of round
      n was added, without the mixing. */
  lemma {:induction false} RoundsUndone(s: Bytes, keys: Bytes, n: nat)
    requires |s| == 16 && |keys| == 240 && 1 <= n <= NR
    ensures InvRounds(Encrypted(s, keys), keys, n) == Shifted(Substituted(Rounds(s, keys, n - 1)))
    decreases NR - n
  {
    hide XorOf, Shifted, Substituted, Unshifted, Unsubstituted, ColumnsMixed, ColumnsUnmixed, RoundKey, Rounds;
    if n == NR {
      XorUndone(Shifted(Substituted(Rounds(s, keys, NR - 1))), RoundKey(keys, NR));
    } else {
      RoundsUndone(s, keys, n + 1);
      var state, mixed := Rounds(s, keys, n), ColumnsMixed(Shifted(Substituted(Rounds(s, keys, n - 1))));
      OneRound(s, keys, n);
      ShiftUndone(Substituted(state));
      SubstitutionUndone(state);
      XorUndone(mixed, RoundKey(keys, n));
      MixUndone(Shifted(Substituted(Rounds(s, keys, n - 1))));
    }
  }

  lemma OneRound(s: Bytes, keys: Bytes, n: nat)
    requires |s| == 16 && |keys| == 240 && 0 < n < NR
    ensures Rounds(s, keys, n) == XorOf(ColumnsMixed(Shifted(Substituted(Rounds(s, keys, n - 1)))), RoundKey(keys, n))
  {
  }

  lemma NoRound(s: Bytes, keys: Bytes)
    requires |s| == 16 && |keys| == 240
    ensures Rounds(s, keys, 0) == XorOf(s, RoundKey(keys, 0))
  {
  }

  /** The inverse cipher undoes the cipher, for every block and any round keys. */
  lemma DecryptionUndoes(s: Bytes, keys: Bytes)
    requires |s| == 16 && |keys| == 240
    ensures Decrypted(Encrypted(s, keys), keys) == s
  {
    hide XorOf, Shifted, Substituted, Unshifted, Unsubstituted, Rounds, InvRounds, Encrypted, RoundKey;
    RoundsUndone(s, keys, 1);
    NoRound(s, keys);
    ShiftUndone(Substituted(Rounds(s, keys, 0)));
    SubstitutionUndone(Rounds(s, keys, 0));
    XorUndone(s, RoundKey(keys, 0));
  }

  // ----- in place ---------------------------------------------------------

  twostate predicate OthersKept<T>(buf: array<T>, at: nat)
    reads buf
  {
    forall k :: 0 <= k < buf.Length && !(at <= k < at + 16) ==> buf[k] == old(buf[k])
  }

  method AddRoundKey(round: nat, buf: array<bv8>, at: nat, keys: array<bv8>)
    requires at + 16 <= buf.Length && keys != buf && keys.Length == 240 && round <= NR
    modifies buf
    ensures buf[at..at + 16] == XorOf(old(buf[at..at + 16]), RoundKey(keys[..], round))
    ensures OthersKept(buf, at)
  {
    hide Xor;
    for i := 0 to 4
      invariant forall m :: at <= m < at + 16 ==>
                  buf[m] == if m < at + 4 * i then Xor(old(buf[m]), keys[16 * round + (m - at)]) else old(buf[m])
      invariant OthersKept(buf, at)
    {
      for j := 0 to 4
        invariant forall m :: at <= m < at + 16 ==>
                    buf[m] == if m < at + 4 * i + j then Xor(old(buf[m]), keys[16 * round + (m - at)]) else old(buf[m])
        invariant OthersKept(buf, at)
      {
        buf[at + i * NB + j] := Xor(buf[at + i * NB + j], keys[round * NB * 4 + i * NB + j]);
      }
    }
  }

  /** Whether a walk along the rows, now at row i and column j, has passed a byte. */
  predicate Done(k: nat, i: nat, j: nat)
  {
    k % 4 < i || (k % 4 == i && k / 4 < j)
  }

  /** Rows before columns, as the source goes through the state. */
  method SubBytes(buf: array<bv8>, at: nat)
    requires at + 16 <= buf.Length
    modifies buf
    ensures buf[at..at + 16] == Substituted(old(buf[at..at + 16])) && OthersKept(buf, at)
  {
    hide Sbox;
    for i := 0 to 4
      invariant forall m :: at <= m < at + 16 ==> buf[m] == if (m - at) % 4 < i then Sbox(old(buf[m])) else old(buf[m])
      invariant OthersKept(buf, at)
    {
      for j := 0 to 4
        invariant forall m :: at <= m < at + 16 ==>
                    buf[m] == if Done(m - at, i, j) then Sbox(old(buf[m])) else old(buf[m])
        invariant OthersKept(buf, at)
      {
        buf[at + 4 * j + i] := Sbox(buf[at + 4 * j + i]);
      }
    }
  }

  method InvSubBytes(buf: array<bv8>, at: nat)
    requires at + 16 <= buf.Length
    modifies buf
    ensures buf[at..at + 16] == Unsubstituted(old(buf[at..at + 16])) && OthersKept(buf, at)
  {
    hide Rsbox;
    for i := 0 to 4
      invariant forall m :: at <= m < at + 16 ==> buf[m] == if (m - at) % 4 < i then Rsbox(old(buf[m])) else old(buf[m])
      invariant OthersKept(buf, at)
    {
      for j := 0 to 4
        invariant forall m :: at <= m < at + 16 ==>
                    buf[m] == if Done(m - at, i, j) then Rsbox(old(buf[m])) else old(buf[m])
        invariant OthersKept(buf, at)
      {
        buf[at + 4 * j + i] := Rsbox(buf[at + 4 * j + i]);
      }
    }
  }

  method TurnRow<T>(buf: array<T>, p: nat, q: nat, r: nat, s: nat)
    requires p < buf.Length && q < buf.Length && r < buf.Length && s < buf.Length
    requires p != q && p != r && p != s && q != r && q != s && r != s
    modifies buf
    ensures buf[..] == old(buf[..])[p := old(buf[q])][q := old(buf[r])][r := old(buf[s])][s := old(buf[p])]
  {
    var temp := buf[p];
    buf[p] := buf[q];
    buf[q] := buf[r];
    buf[r] := buf[s];
    buf[s] := temp;
  }

  method Swap<T>(buf: array<T>, p: nat, q: nat)
    requires p < buf.Length && q < buf.Length && p != q
    modifies buf
    ensures buf[..] == old(buf[..])[p := old(buf[q])][q := old(buf[p])]
  {
    var temp := buf[p];
    buf[p] := buf[q];
    buf[q] := temp;
  }

  method ShiftRows<T>(buf: array<T>, at: nat)
    requires at + 16 <= buf.Length
    modifies buf
    ensures buf[at..at + 16] == Shifted(old(buf[at..at + 16])) && OthersKept(buf, at)
  {
    hide Shifted;
    ghost var s := buf[..];
    TurnRow(buf, at + 1, at + 5, at + 9, at + 13);
    Swap(buf, at + 2, at + 10);
    Swap(buf, at + 6, at + 14);
    TurnRow(buf, at + 3, at + 15, at + 11, at + 7);
    ShiftedInFull(s[at..at + 16]);
    ghost var t := buf[..];
    RowsLeft(s, t, at);
    assert buf[at..at + 16] == t[at..at + 16];
    assert forall k :: 0 <= k < |s| ==> buf[k] == t[k] && old(buf[k]) == s[k];
  }

  lemma RowsLeft<T>(s: seq<T>, t: seq<T>, at: nat)
    requires at + 16 <= |s|
    requires t == s[at + 1 := s[at + 5]][at + 5 := s[at + 9]][at + 9 := s[at + 13]][at + 13 := s[at + 1]]
                   [at + 2 := s[at + 10]][at + 10 := s[at + 2]][at + 6 := s[at + 14]][at + 14 := s[at + 6]]
                   [at + 3 := s[at + 15]][at + 15 := s[at + 11]][at + 11 := s[at + 7]][at + 7 := s[at + 3]]
    ensures |t| == |s| && forall k :: 0 <= k < |s| && !(at <= k < at + 16) ==> t[k] == s[k]
    ensures var p := s[at..at + 16];
            t[at..at + 16] == [p[0], p[5], p[10], p[15], p[4], p[9], p[14], p[3],
                               p[8], p[13], p[2], p[7], p[12], p[1], p[6], p[11]]
  {
  }

  lemma ShiftedInFull<T>(s: seq<T>)
    requires |s| == 16
    ensures Shifted(s) == [s[0], s[5], s[10], s[15], s[4], s[9], s[14], s[3],
                           s[8], s[13], s[2], s[7], s[12], s[1], s[6], s[11]]
  {
  }

  method InvShiftRows<T>(buf: array<T>, at: nat)
    requires at + 16 <= buf.Length
    modifies buf
    ensures buf[at..at + 16] == Unshifted(old(buf[at..at + 16])) && OthersKept(buf, at)
  {
    hide Unshifted;
    ghost var s := buf[..];
    TurnRow(buf, at + 13, at + 9, at + 5, at + 1);
    Swap(buf, at + 2, at + 10);
    Swap(buf, at + 6, at + 14);
    TurnRow(buf, at + 3, at + 7, at + 11, at + 15);
    UnshiftedInFull(s[at..at + 16]);
    ghost var t := buf[..];
    RowsRight(s, t, at);
    assert buf[at..at + 16] == t[at..at + 16];
    assert forall k :: 0 <= k < |s| ==> buf[k] == t[k] && old(buf[k]) == s[k];
  }

  lemma RowsRight<T>(s: seq<T>, t: seq<T>, at: nat)
    requires at + 16 <= |s|
    requires t == s[at + 13 := s[at + 9]][at + 9 := s[at + 5]][at + 5 := s[at + 1]][at + 1 := s[at + 13]]
                   [at + 2 := s[at + 10]][at + 10 := s[at + 2]][at + 6 := s[at + 14]][at + 14 := s[at + 6]]
                   [at + 3 := s[at + 7]][at + 7 := s[at + 11]][at + 11 := s[at + 15]][at + 15 := s[at + 3]]
    ensures |t| == |s| && forall k :: 0 <= k < |s| && !(at <= k < at + 16) ==> t[k] == s[k]
    ensures var p := s[at..at + 16];
            t[at..at + 16] == [p[0], p[13], p[10], p[7], p[4], p[1], p[14], p[11],
                               p[8], p[5], p[2], p[15], p[12], p[9], p[6], p[3]]
  {
  }

  lemma UnshiftedInFull<T>(s: seq<T>)
    requires |s| == 16
    ensures Unshifted(s) == [s[0], s[13], s[10], s[7], s[4], s[1], s[14], s[11],
                             s[8], s[5], s[2], s[15], s[12], s[9], s[6], s[3]]
  {
  }

  /** One column: three running values, each byte doubled with its neighbour. */
  method MixColumn(buf: array<bv8>, p: nat)
    requires p + 4 <= buf.Length
    modifies buf
    ensures var a, b, c, d := old(buf[p]), old(buf[p + 1]), old(buf[p + 2]), old(buf[p + 3]);
            && buf[p] == Mixed(a, b, c, d) && buf[p + 1] == Mixed(b, c, d, a)
            && buf[p + 2] == Mixed(c, d, a, b) && buf[p + 3] == Mixed(d, a, b, c)
    ensures forall k :: 0 <= k < buf.Length && !(p <= k < p + 4) ==> buf[k] == old(buf[k])
  {
    hide Xor, Xtime, Sum4, Mixed;
    MixedFastColumn(buf[p], buf[p + 1], buf[p + 2], buf[p + 3]);
    var t := buf[p];
    var tmp := Sum4(buf[p], buf[p + 1], buf[p + 2], buf[p + 3]);
    var tm := Xor(buf[p], buf[p + 1]);
    tm := Xtime(tm);
    buf[p] := Xor(buf[p], Xor(tm, tmp));
    tm := Xor(buf[p + 1], buf[p + 2]);
    tm := Xtime(tm);
    buf[p + 1] := Xor(buf[p + 1], Xor(tm, tmp));
    tm := Xor(buf[p + 2], buf[p + 3]);
    tm := Xtime(tm);
    buf[p + 2] := Xor(buf[p + 2], Xor(tm, tmp));
    tm := Xor(buf[p + 3], t);
    tm := Xtime(tm);
    buf[p + 3] := Xor(buf[p + 3], Xor(tm, tmp));
  }

  lemma MixedFastColumn(a: bv8, b: bv8, c: bv8, d: bv8)
    ensures var tmp := Sum4(a, b, c, d);
            && Xor(a, Xor(Xtime(Xor(a, b)), tmp)) == Mixed(a, b, c, d)
            && Xor(b, Xor(Xtime(Xor(b, c)), tmp)) == Mixed(b, c, d, a)
            && Xor(c, Xor(Xtime(Xor(c, d)), tmp)) == Mixed(c, d, a, b)
            && Xor(d, Xor(Xtime(Xor(d, a)), tmp)) == Mixed(d, a, b, c)
  {
    hide Xor, Xtime, Sum4, Mixed;
    MixedFast(a, b, c, d);
    MixedFast(b, c, d, a);
    MixedFast(c, d, a, b);
    MixedFast(d, a, b, c);
    Rotated(a, b, c, d);
    Rotated(d, a, b, c);
    Rotated(c, d, a, b);
  }

  method MixColumns(buf: array<bv8>, at: nat)
    requires at + 16 <= buf.Length
    modifies buf
    ensures buf[at..at + 16] == ColumnsMixed(old(buf[at..at + 16])) && OthersKept(buf, at)
  {
    hide Mixed, ColumnsMixed;
    ghost var s := buf[at..at + 16];
    for i := 0 to 4
      invariant forall m :: at <= m < at + 16 ==>
                  buf[m] == if m < at + 4 * i then ColumnsMixed(s)[m - at] else s[m - at]
      invariant OthersKept(buf, at)
    {
      ColumnOf(s, i);
      assert buf[at + 4 * i] == s[4 * i] && buf[at + 4 * i + 1] == s[4 * i + 1];
      assert buf[at + 4 * i + 2] == s[4 * i + 2] && buf[at + 4 * i + 3] == s[4 * i + 3];
      MixColumn(buf, at + 4 * i);
    }
  }

  lemma PlaceInColumn(i: nat, r: nat)
    requires i < 4 && r < 4
    ensures Place(4 * i + r, 0) == 4 * i + r && Place(4 * i + r, 1) == 4 * i + (r + 1) % 4
    ensures Place(4 * i + r, 2) == 4 * i + (r + 2) % 4 && Place(4 * i + r, 3) == 4 * i + (r + 3) % 4
  {
    WholeColumns(i, r);
    WholeColumns(i, r + 1);
    WholeColumns(i, r + 2);
    WholeColumns(i, r + 3);
  }

  lemma ColumnOf(s: Bytes, i: nat)
    requires |s| == 16 && i < 4
    ensures var a, b, c, d := s[4 * i], s[4 * i + 1], s[4 * i + 2], s[4 * i + 3];
            var m := ColumnsMixed(s);
            && m[4 * i] == Mixed(a, b, c, d) && m[4 * i + 1] == Mixed(b, c, d, a)
            && m[4 * i + 2] == Mixed(c, d, a, b) && m[4 * i + 3] == Mixed(d, a, b, c)
  {
    hide Mixed, ColumnsMixed;
    ColumnByte(s, i, 0);
    ColumnByte(s, i, 1);
    ColumnByte(s, i, 2);
    ColumnByte(s, i, 3);
  }

  lemma ColumnByte(s: Bytes, i: nat, r: nat)
    requires |s| == 16 && i < 4 && r < 4
    ensures ColumnsMixed(s)[4 * i + r]
         == Mixed(s[4 * i + r], s[4 * i + (r + 1) % 4], s[4 * i + (r + 2) % 4], s[4 * i + (r + 3) % 4])
  {
    hide Mixed, Place;
    PlaceInColumn(i, r);
  }

  method InvMixColumn(buf: array<bv8>, p: nat)
    requires p + 4 <= buf.Length
    modifies buf
    ensures var a, b, c, d := old(buf[p]), old(buf[p + 1]), old(buf[p + 2]), old(buf[p + 3]);
            && buf[p] == Unmixed(a, b, c, d) && buf[p + 1] == Unmixed(b, c, d, a)
            && buf[p + 2] == Unmixed(c, d, a, b) && buf[p + 3] == Unmixed(d, a, b, c)
    ensures forall k :: 0 <= k < buf.Length && !(p <= k < p + 4) ==> buf[k] == old(buf[k])
  {
    hide Sum4, Multiply;
    var a, b, c, d := buf[p], buf[p + 1], buf[p + 2], buf[p + 3];
    UnmixedOrder(a, b, c, d);
    buf[p] := Sum4(Multiply(a, 0x0e), Multiply(b, 0x0b), Multiply(c, 0x0d), Multiply(d, 0x09));
    buf[p + 1] := Sum4(Multiply(a, 0x09), Multiply(b, 0x0e), Multiply(c, 0x0b), Multiply(d, 0x0d));
    buf[p + 2] := Sum4(Multiply(a, 0x0d), Multiply(b, 0x09), Multiply(c, 0x0e), Multiply(d, 0x0b));
    buf[p + 3] := Sum4(Multiply(a, 0x0b), Multiply(b, 0x0d), Multiply(c, 0x09), Multiply(d, 0x0e));
  }

  lemma UnmixedOrder(a: bv8, b: bv8, c: bv8, d: bv8)
    ensures Sum4(Multiply(a, 0x09), Multiply(b, 0x0e), Multiply(c, 0x0b), Multiply(d, 0x0d)) == Unmixed(b, c, d, a)
    ensures Sum4(Multiply(a, 0x0d), Multiply(b, 0x09), Multiply(c, 0x0e), Multiply(d, 0x0b)) == Unmixed(c, d, a, b)
    ensures Sum4(Multiply(a, 0x0b), Multiply(b, 0x0d), Multiply(c, 0x09), Multiply(d, 0x0e)) == Unmixed(d, a, b, c)
  {
    hide Sum4, Multiply;
    Rotated(Multiply(b, 0x0e), Multiply(c, 0x0b), Multiply(d, 0x0d), Multiply(a, 0x09));
    Rotated(Multiply(c, 0x0e), Multiply(d, 0x0b), Multiply(a, 0x0d), Multiply(b, 0x09));
    Rotated(Multiply(b, 0x09), Multiply(c, 0x0e), Multiply(d, 0x0b), Multiply(a, 0x0d));
    Rotated(Multiply(d, 0x0e), Multiply(a, 0x0b), Multiply(b, 0x0d), Multiply(c, 0x09));
    Rotated(Multiply(c, 0x09), Multiply(d, 0x0e), Multiply(a, 0x0b), Multiply(b, 0x0d));
    Rotated(Multiply(b, 0x0d), Multiply(c, 0x09), Multiply(d, 0x0e), Multiply(a, 0x0b));
  }

  method InvMixColumns(buf: array<bv8>, at: nat)
    requires at + 16 <= buf.Length
    modifies buf
    ensures buf[at..at + 16] == ColumnsUnmixed(old(buf[at..at + 16])) && OthersKept(buf, at)
  {
    hide Unmixed, ColumnsUnmixed;
    ghost var s := buf[at..at + 16];
    for i := 0 to 4
      invariant forall m :: at <= m < at + 16 ==>
                  buf[m] == if m < at + 4 * i then ColumnsUnmixed(s)[m - at] else s[m - at]
      invariant OthersKept(buf, at)
    {
      UncolumnOf(s, i);
      assert buf[at + 4 * i] == s[4 * i] && buf[at + 4 * i + 1] == s[4 * i + 1];
      assert buf[at + 4 * i + 2] == s[4 * i + 2] && buf[at + 4 * i + 3] == s[4 * i + 3];
      InvMixColumn(buf, at + 4 * i);
    }
  }

  lemma UncolumnOf(s: Bytes, i: nat)
    requires |s| == 16 && i < 4
    ensures var a, b, c, d := s[4 * i], s[4 * i + 1], s[4 * i + 2], s[4 * i + 3];
            var m := ColumnsUnmixed(s);
            && m[4 * i] == Unmixed(a, b, c, d) && m[4 * i + 1] == Unmixed(b, c, d, a)
            && m[4 * i + 2] == Unmixed(c, d, a, b) && m[4 * i + 3] == Unmixed(d, a, b, c)
  {
    hide Unmixed, ColumnsUnmixed;
    UncolumnByte(s, i, 0);
    UncolumnByte(s, i, 1);
    UncolumnByte(s, i, 2);
    UncolumnByte(s, i, 3);
  }

  lemma UncolumnByte(s: Bytes, i: nat, r: nat)
    requires |s| == 16 && i < 4 && r < 4
    ensures ColumnsUnmixed(s)[4 * i + r]
         == Unmixed(s[4 * i + r], s[4 * i + (r + 1) % 4], s[4 * i + (r + 2) % 4], s[4 * i + (r + 3) % 4])
  {
    hide Unmixed, Place;
    PlaceInColumn(i, r);
  }

  method Cipher(buf: array<bv8>, at: nat, keys: array<bv8>)
    requires at + 16 <= buf.Length && keys != buf && keys.Length == 240
    modifies buf
    ensures buf[at..at + 16] == Encrypted(old(buf[at..at + 16]), keys[..]) && OthersKept(buf, at)
  {
    hide XorOf, Substituted, Shifted, ColumnsMixed, RoundKey, Rounds;
    ghost var s := buf[at..at + 16];
    NoRound(s, keys[..]);
    AddRoundKey(0, buf, at, keys);
    for round := 1 to NR
      invariant buf[at..at + 16] == Rounds(s, keys[..], round - 1) && OthersKept(buf, at)
    {
      SubBytes(buf, at);
      ShiftRows(buf, at);
      MixColumns(buf, at);
      AddRoundKey(round, buf, at, keys);
      OneRound(s, keys[..], round);
    }
    SubBytes(buf, at);
    ShiftRows(buf, at);
    AddRoundKey(NR, buf, at, keys);
  }

  method InvCipher(buf: array<bv8>, at: nat, keys: array<bv8>)
    requires at + 16 <= buf.Length && keys != buf && keys.Length == 240
    modifies buf
    ensures buf[at..at + 16] == Decrypted(old(buf[at..at + 16]), keys[..]) && OthersKept(buf, at)
  {
    hide XorOf, Unsubstituted, Unshifted, ColumnsUnmixed, RoundKey, InvRounds;
    ghost var s := buf[at..at + 16];
    FirstInverse(s, keys[..]);
    AddRoundKey(NR, buf, at, keys);
    var round := NR - 1;
    while round > 0
      invariant 0 <= round < NR
      invariant buf[at..at + 16] == InvRounds(s, keys[..], round + 1) && OthersKept(buf, at)
    {
      InvShiftRows(buf, at);
      InvSubBytes(buf, at);
      AddRoundKey(round, buf, at, keys);
      InvMixColumns(buf, at);
      OneInverse(s, keys[..], round);
      round := round - 1;
    }
    InvShiftRows(buf, at);
    InvSubBytes(buf, at);
    AddRoundKey(0, buf, at, keys);
  }

  lemma FirstInverse(s: Bytes, keys: Bytes)
    requires |s| == 16 && |keys| == 240
    ensures InvRounds(s, keys, NR) == XorOf(s, RoundKey(keys, NR))
  {
  }

  lemma OneInverse(s: Bytes, keys: Bytes, n: nat)
    requires |s| == 16 && |keys| == 240 && 1 <= n < NR
    ensures InvRounds(s, keys, n)
         == ColumnsUnmixed(XorOf(Unsubstituted(Unshifted(InvRounds(s, keys, n + 1))), RoundKey(keys, n)))
  {
  }
}

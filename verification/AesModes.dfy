/** AES-256 contexts: key expansion, cipher block chaining and counter mode (src/aes.cpp). */
module AesModes {
  import opened NumberTheory
  import opened Aes
  import opened AesCipher

  // ----- key expansion ----------------------------------------------------

  const RCON: Bytes := [0x8d, 0x01, 0x02, 0x04, 0x08, 0x10, 0x20, 0x40, 0x80, 0x1b, 0x36]

  /** From the second on, the round constants are the powers of x in the field. */
  lemma RconArePowers(i: nat)
    requires 1 <= i < 10
    ensures RCON[1] == 1 && RCON[i + 1] == Xtime(RCON[i])
  {
    assert i == 1 || i == 2 || i == 3 || i == 4 || i == 5 || i == 6 || i == 7 || i == 8 || i == 9;
    assert Xtime(0x01) == 0x02 && Xtime(0x02) == 0x04 && Xtime(0x04) == 0x08;
    assert Xtime(0x08) == 0x10 && Xtime(0x10) == 0x20 && Xtime(0x20) == 0x40;
    assert Xtime(0x40) == 0x80 && Xtime(0x80) == 0x1b && Xtime(0x1b) == 0x36;
  }

  function RotWord(w: Bytes): (r: Bytes)
    requires |w| == 4
    ensures |r| == 4
  {
    [w[1], w[2], w[3], w[0]]
  }

  /** FIPS 197, section 5.2, for a key of eight words. */
  function KeyWord(key: Bytes, i: nat): (w: Bytes)
    requires |key| == 32 && i < NB * (NR + 1)
    ensures |w| == 4
  {
    if i < NK then key[4 * i..4 * i + 4]
    else XorOf(KeyWord(key, i - NK), Transformed(KeyWord(key, i - 1), i))
  }

  function Transformed(w: Bytes, i: nat): (r: Bytes)
    requires |w| == 4 && NK <= i < NB * (NR + 1)
    ensures |r| == 4
  {
    if i % NK == 0 then XorOf(Substituted(RotWord(w)), [RCON[i / NK], 0, 0, 0])
    else if i % NK == 4 then Substituted(w)
    else w
  }

  function Expanded(key: Bytes): (keys: Bytes)
    requires |key| == 32
    ensures |keys| == 240
  {
    seq(240, m requires 0 <= m < 240 => KeyByte(key, m))
  }

  function KeyByte(key: Bytes, m: nat): bv8
    requires |key| == 32 && m < 240
  {
    KeyWord(key, m / 4)[m % 4]
  }

  lemma WordOfBytes(key: Bytes, i: nat)
    requires |key| == 32 && i < NB * (NR + 1)
    ensures KeyWord(key, i) == [KeyByte(key, 4 * i), KeyByte(key, 4 * i + 1), KeyByte(key, 4 * i + 2), KeyByte(key, 4 * i + 3)]
  {
    hide KeyWord;
    var w := KeyWord(key, i);
    WholeColumns(i, 0);
    WholeColumns(i, 1);
    WholeColumns(i, 2);
    WholeColumns(i, 3);
    assert w == [w[0], w[1], w[2], w[3]];
  }

  method PutWord(roundKey: array<bv8>, i: nat, w: Bytes)
    requires roundKey.Length == 240 && i < NB * (NR + 1) && |w| == 4
    modifies roundKey
    ensures roundKey[..4 * i] == old(roundKey[..4 * i])
    ensures [roundKey[4 * i], roundKey[4 * i + 1], roundKey[4 * i + 2], roundKey[4 * i + 3]] == w
  {
    roundKey[i * 4] := w[0];
    roundKey[i * 4 + 1] := w[1];
    roundKey[i * 4 + 2] := w[2];
    roundKey[i * 4 + 3] := w[3];
  }

  /** One word of the schedule from the word before, the way the source transforms it. */
  method Temp(w: Bytes, i: nat) returns (tempa: Bytes)
    requires |w| == 4 && NK <= i < NB * (NR + 1)
    ensures tempa == Transformed(w, i)
  {
    hide Sbox, Xor;
    tempa := w;
    if i % NK == 0 {
      var u8tmp := tempa[0];
      tempa := tempa[0 := tempa[1]];
      tempa := tempa[1 := tempa[2]];
      tempa := tempa[2 := tempa[3]];
      tempa := tempa[3 := u8tmp];
      assert tempa == RotWord(w);
      tempa := [Sbox(tempa[0]), Sbox(tempa[1]), Sbox(tempa[2]), Sbox(tempa[3])];
      XorZero(tempa[1]);
      XorZero(tempa[2]);
      XorZero(tempa[3]);
      tempa := tempa[0 := Xor(tempa[0], RCON[i / NK])];
    }
    if i % NK == 4 {
      tempa := [Sbox(tempa[0]), Sbox(tempa[1]), Sbox(tempa[2]), Sbox(tempa[3])];
    }
  }

  lemma XorZero(a: bv8)
    ensures Xor(a, 0) == a
  {
  }

  /** The bytes of the first i words are in place. */
  ghost predicate HasWords(roundKey: Bytes, key: Bytes, i: nat)
    requires |roundKey| == 240 && |key| == 32 && i <= NB * (NR + 1)
  {
    forall m :: 0 <= m < 4 * i ==> roundKey[m] == KeyByte(key, m)
  }

  lemma OneMoreWord(before: Bytes, after: Bytes, key: Bytes, i: nat)
    requires |before| == |after| == 240 && |key| == 32 && i < NB * (NR + 1)
    requires HasWords(before, key, i) && after[..4 * i] == before[..4 * i]
    requires [after[4 * i], after[4 * i + 1], after[4 * i + 2], after[4 * i + 3]] == KeyWord(key, i)
    ensures HasWords(after, key, i + 1)
  {
    hide KeyWord, KeyByte;
    WordOfBytes(key, i);
    var w, v := KeyWord(key, i), [after[4 * i], after[4 * i + 1], after[4 * i + 2], after[4 * i + 3]];
    assert v[0] == w[0] && v[1] == w[1] && v[2] == w[2] && v[3] == w[3];
    forall m | 0 <= m < 4 * (i + 1)
      ensures after[m] == KeyByte(key, m)
    {
      if m < 4 * i {
        assert after[m] == after[..4 * i][m] == before[..4 * i][m];
      }
    }
  }

  lemma WordInPlace(roundKey: Bytes, key: Bytes, i: nat, w: nat)
    requires |roundKey| == 240 && |key| == 32 && w < i <= NB * (NR + 1) && HasWords(roundKey, key, i)
    ensures [roundKey[4 * w], roundKey[4 * w + 1], roundKey[4 * w + 2], roundKey[4 * w + 3]] == KeyWord(key, w)
  {
    hide KeyWord, KeyByte;
    WordOfBytes(key, w);
  }

  method KeyExpansion(roundKey: array<bv8>, key: Bytes)
    requires roundKey.Length == 240 && |key| == 32
    modifies roundKey
    ensures roundKey[..] == Expanded(key)
  {
    hide KeyWord, KeyByte, Transformed, HasWords, Xor, XorOf;
    AllWords(roundKey[..], key);
    for i := 0 to NK
      invariant HasWords(roundKey[..], key, i)
    {
      ghost var before := roundKey[..];
      FirstKeyWord(key, i);
      PutWord(roundKey, i, key[i * 4..i * 4 + 4]);
      OneMoreWord(before, roundKey[..], key, i);
    }
    for i := NK to NB * (NR + 1)
      invariant HasWords(roundKey[..], key, i)
    {
      ghost var before := roundKey[..];
      ExpandWord(roundKey, key, i);
      OneMoreWord(before, roundKey[..], key, i);
    }
    AllWords(roundKey[..], key);
  }

  method ExpandWord(roundKey: array<bv8>, ghost key: Bytes, i: nat)
    requires roundKey.Length == 240 && |key| == 32 && NK <= i < NB * (NR + 1) && HasWords(roundKey[..], key, i)
    modifies roundKey
    ensures roundKey[..4 * i] == old(roundKey[..4 * i])
    ensures [roundKey[4 * i], roundKey[4 * i + 1], roundKey[4 * i + 2], roundKey[4 * i + 3]] == KeyWord(key, i)
  {
    hide KeyWord, Transformed, HasWords, Xor;
    WordInPlace(roundKey[..], key, i, i - 1);
    WordInPlace(roundKey[..], key, i, i - NK);
    NextKeyWord(key, i);
    var k := (i - 1) * 4;
    var tempa := [roundKey[k], roundKey[k + 1], roundKey[k + 2], roundKey[k + 3]];
    tempa := Temp(tempa, i);
    k := (i - NK) * 4;
    var w := [Xor(roundKey[k], tempa[0]), Xor(roundKey[k + 1], tempa[1]),
              Xor(roundKey[k + 2], tempa[2]), Xor(roundKey[k + 3], tempa[3])];
    assert w == XorOf([roundKey[k], roundKey[k + 1], roundKey[k + 2], roundKey[k + 3]], tempa);
    PutWord(roundKey, i, w);
  }

  lemma AllWords(roundKey: Bytes, key: Bytes)
    requires |roundKey| == 240 && |key| == 32
    ensures HasWords(roundKey, key, 0)
    ensures HasWords(roundKey, key, NB * (NR + 1)) ==> roundKey == Expanded(key)
  {
    hide KeyByte;
  }

  lemma FirstKeyWord(key: Bytes, i: nat)
    requires |key| == 32 && i < NK
    ensures KeyWord(key, i) == key[4 * i..4 * i + 4]
  {
  }

  lemma NextKeyWord(key: Bytes, i: nat)
    requires |key| == 32 && NK <= i < NB * (NR + 1)
    ensures KeyWord(key, i) == XorOf(KeyWord(key, i - NK), Transformed(KeyWord(key, i - 1), i))
  {
  }

  // ----- cipher block chaining --------------------------------------------

  /** NIST SP 800-38A, section 6.2. */
  function CbcEncrypted(iv: Bytes, keys: Bytes, data: Bytes): (r: Bytes)
    requires |iv| == 16 && |keys| == 240 && |data| % 16 == 0
    ensures |r| == |data|
    decreases |data|
  {
    if data == [] then []
    else
      var c := Encrypted(XorOf(data[..16], iv), keys);
      c + CbcEncrypted(c, keys, data[16..])
  }

  function CbcDecrypted(iv: Bytes, keys: Bytes, data: Bytes): (r: Bytes)
    requires |iv| == 16 && |keys| == 240 && |data| % 16 == 0
    ensures |r| == |data|
    decreases |data|
  {
    if data == [] then []
    else XorOf(Decrypted(data[..16], keys), iv) + CbcDecrypted(data[..16], keys, data[16..])
  }

  /** The vector for the next call: the last block of ciphertext. */
  function NextIv(iv: Bytes, c: Bytes): (r: Bytes)
    requires |iv| == 16 && |c| % 16 == 0
    ensures |r| == 16
  {
    if c == [] then iv else c[|c| - 16..]
  }

  /** Decryption undoes encryption for every number of blocks. */
  lemma {:induction false} CbcReturns(iv: Bytes, keys: Bytes, data: Bytes)
    requires |iv| == 16 && |keys| == 240 && |data| % 16 == 0
    ensures CbcDecrypted(iv, keys, CbcEncrypted(iv, keys, data)) == data
    decreases |data|
  {
    hide Encrypted, Decrypted, XorOf;
    if data != [] {
      var c := Encrypted(XorOf(data[..16], iv), keys);
      var all := CbcEncrypted(iv, keys, data);
      assert all[..16] == c && all[16..] == CbcEncrypted(c, keys, data[16..]);
      DecryptionUndoes(XorOf(data[..16], iv), keys);
      XorUndone(data[..16], iv);
      CbcReturns(c, keys, data[16..]);
      assert data[..16] + data[16..] == data;
    }
  }

  /** Two calls in a row do what one call on the joined data does. */
  lemma {:induction false} CbcInPieces(iv: Bytes, keys: Bytes, a: Bytes, b: Bytes)
    requires |iv| == 16 && |keys| == 240 && |a| % 16 == 0 && |b| % 16 == 0
    ensures CbcEncrypted(iv, keys, a + b)
         == CbcEncrypted(iv, keys, a) + CbcEncrypted(NextIv(iv, CbcEncrypted(iv, keys, a)), keys, b)
    decreases |a|
  {
    hide Encrypted, XorOf;
    if a == [] {
      assert a + b == b;
    } else {
      var c := Encrypted(XorOf(a[..16], iv), keys);
      assert (a + b)[..16] == a[..16] && (a + b)[16..] == a[16..] + b;
      CbcInPieces(c, keys, a[16..], b);
      var rest := CbcEncrypted(c, keys, a[16..]);
      assert NextIv(c, rest) == NextIv(iv, c + rest);
    }
  }

  lemma {:induction false} CbcUndoneInPieces(iv: Bytes, keys: Bytes, a: Bytes, b: Bytes)
    requires |iv| == 16 && |keys| == 240 && |a| % 16 == 0 && |b| % 16 == 0
    ensures CbcDecrypted(iv, keys, a + b) == CbcDecrypted(iv, keys, a) + CbcDecrypted(NextIv(iv, a), keys, b)
    decreases |a|
  {
    hide Decrypted, XorOf;
    if a == [] {
      assert a + b == b;
    } else {
      assert (a + b)[..16] == a[..16] && (a + b)[16..] == a[16..] + b;
      CbcUndoneInPieces(a[..16], keys, a[16..], b);
      assert NextIv(a[..16], a[16..]) == NextIv(iv, a);
    }
  }

  lemma OneBlockEncrypted(iv: Bytes, keys: Bytes, m: Bytes)
    requires |iv| == 16 && |keys| == 240 && |m| == 16
    ensures CbcEncrypted(iv, keys, m) == Encrypted(XorOf(m, iv), keys)
  {
    hide Encrypted, XorOf;
    assert m[..16] == m && m[16..] == [];
  }

  lemma OneBlockDecrypted(iv: Bytes, keys: Bytes, m: Bytes)
    requires |iv| == 16 && |keys| == 240 && |m| == 16
    ensures CbcDecrypted(iv, keys, m) == XorOf(Decrypted(m, keys), iv)
  {
    hide Decrypted, XorOf;
    assert m[..16] == m && m[16..] == [];
  }

  // ----- counter mode -----------------------------------------------------

  /** A block as a number, most significant byte first. */
  function Value(s: Bytes): nat
  {
    if s == [] then 0 else Value(s[..|s| - 1]) * 256 + s[|s| - 1] as int
  }

  /** Adds one from the last byte upwards; a byte 255 becomes 0 and carries. */
  function Incremented(s: Bytes): (r: Bytes)
    ensures |r| == |s|
  {
    if s == [] then []
    else if s[|s| - 1] == 255 then Incremented(s[..|s| - 1]) + [0]
    else s[..|s| - 1] + [s[|s| - 1] + 1]
  }

  lemma {:induction false} ValueBelow(s: Bytes)
    ensures Value(s) < Pow(256, |s|)
  {
    if s != [] {
      ValueBelow(s[..|s| - 1]);
    }
  }

  lemma {:induction false} IncrementedValue(s: Bytes)
    ensures 0 < Pow(256, |s|) && Value(Incremented(s)) == (Value(s) + 1) % Pow(256, |s|)
    decreases |s|
  {
    ValueBelow(s);
    if s != [] {
      var high, last := s[..|s| - 1], s[|s| - 1];
      var w := Pow(256, |high|);
      ValueBelow(high);
      IncrementedValue(high);
      if last == 255 {
        var r := Incremented(s);
        assert r[..|r| - 1] == Incremented(high);
        Carries(Value(high), w);
      } else {
        Successor(last);
        assert Incremented(s)[..|s| - 1] == high;
        NoCarry(Value(s) + 1, Pow(256, |s|));
      }
    }
  }

  lemma Successor(b: bv8)
    requires b != 255
    ensures (b + 1) as int == b as int + 1
  {
  }

  lemma NoCarry(n: nat, w: nat)
    requires n < w
    ensures n % w == n
  {
  }

  lemma Carries(v: nat, w: nat)
    requires v < w
    ensures (v + 1) % w * 256 == (v * 256 + 256) % (256 * w)
  {
    if v + 1 < w {
      NoCarry(v + 1, w);
      NoCarry(v * 256 + 256, 256 * w);
    } else {
      DivModUnique(v + 1, 1, 0, w);
      DivModUnique(v * 256 + 256, 1, 0, 256 * w);
    }
  }

  function Counter(iv: Bytes, n: nat): (r: Bytes)
    ensures |r| == |iv|
  {
    if n == 0 then iv else Incremented(Counter(iv, n - 1))
  }

  /** The counter block number n is the vector plus n, modulo 2^128 for sixteen bytes. */
  lemma {:induction false} CounterValue(iv: Bytes, n: nat)
    ensures 0 < Pow(256, |iv|) && Value(Counter(iv, n)) == (Value(iv) + n) % Pow(256, |iv|)
    decreases n
  {
    hide Incremented, Value, Pow;
    ValueBelow(iv);
    if n == 0 {
      NoCarry(Value(iv), Pow(256, |iv|));
    } else {
      CounterValue(iv, n - 1);
      IncrementedValue(Counter(iv, n - 1));
      ModAdd(Value(iv) + (n - 1), 1, Pow(256, |iv|));
    }
  }

  lemma {:induction false} CounterAdds(iv: Bytes, m: nat, n: nat)
    ensures Counter(Counter(iv, m), n) == Counter(iv, m + n)
    decreases n
  {
    hide Incremented;
    if n > 0 {
      CounterAdds(iv, m, n - 1);
      assert Counter(iv, m + n) == Incremented(Counter(iv, m + n - 1));
    }
  }

  function KeyStream(iv: Bytes, keys: Bytes, k: nat): bv8
    requires |iv| == 16 && |keys| == 240
  {
    Encrypted(Counter(iv, k / 16), keys)[k % 16]
  }

  /** NIST SP 800-38A, section 6.5, for any length. */
  function CtrOf(iv: Bytes, keys: Bytes, data: Bytes): (r: Bytes)
    requires |iv| == 16 && |keys| == 240
    ensures |r| == |data|
  {
    seq(|data|, k requires 0 <= k < |data| => Xor(data[k], KeyStream(iv, keys, k)))
  }

  /** Applying the mode twice from the same vector gives the data back. */
  lemma CtrReturns(iv: Bytes, keys: Bytes, data: Bytes)
    requires |iv| == 16 && |keys| == 240
    ensures CtrOf(iv, keys, CtrOf(iv, keys, data)) == data
  {
    hide KeyStream;
    forall k | 0 <= k < |data|
      ensures Xor(Xor(data[k], KeyStream(iv, keys, k)), KeyStream(iv, keys, k)) == data[k]
    {
      XorTwice(data[k], KeyStream(iv, keys, k));
    }
    hide Xor;
  }

  lemma WholeBlocks(n: nat, k: nat)
    requires n % 16 == 0
    ensures (n + k) / 16 == n / 16 + k / 16 && (n + k) % 16 == k % 16
  {
  }

  /** Calls may be joined when the first ends on a block. */
  lemma CtrInPieces(iv: Bytes, keys: Bytes, a: Bytes, b: Bytes)
    requires |iv| == 16 && |keys| == 240 && |a| % 16 == 0
    ensures CtrOf(iv, keys, a + b) == CtrOf(iv, keys, a) + CtrOf(Counter(iv, |a| / 16), keys, b)
  {
    hide *;
    CtrJoined(iv, Counter(iv, |a| / 16), keys, a, b) by {
      forall k: nat
        ensures KeyStream(iv, keys, |a| + k) == KeyStream(Counter(iv, |a| / 16), keys, k)
      {
        LaterStream(iv, keys, |a|, k);
      }
    }
  }

  lemma CtrJoined(iv: Bytes, later: Bytes, keys: Bytes, a: Bytes, b: Bytes)
    requires |iv| == |later| == 16 && |keys| == 240
    requires forall k: nat :: KeyStream(iv, keys, |a| + k) == KeyStream(later, keys, k)
    ensures CtrOf(iv, keys, a + b) == CtrOf(iv, keys, a) + CtrOf(later, keys, b)
  {
    hide *;
    var joined, left, right := CtrOf(iv, keys, a + b), CtrOf(iv, keys, a), CtrOf(later, keys, b);
    forall k | 0 <= k < |a + b|
      ensures joined[k] == (left + right)[k]
    {
      CtrByte(iv, keys, a + b, k);
      if k < |a| {
        CtrByte(iv, keys, a, k);
      } else {
        CtrByte(later, keys, b, k - |a|);
        assert KeyStream(iv, keys, |a| + (k - |a|)) == KeyStream(later, keys, k - |a|);
      }
    }
  }

  lemma CtrByte(iv: Bytes, keys: Bytes, data: Bytes, k: nat)
    requires |iv| == 16 && |keys| == 240 && k < |data|
    ensures CtrOf(iv, keys, data)[k] == Xor(data[k], KeyStream(iv, keys, k))
  {
    hide Xor, KeyStream;
  }

  lemma LaterStream(iv: Bytes, keys: Bytes, n: nat, k: nat)
    requires |iv| == 16 && |keys| == 240 && n % 16 == 0
    ensures KeyStream(iv, keys, n + k) == KeyStream(Counter(iv, n / 16), keys, k)
  {
    hide Encrypted, Counter;
    CounterAdds(iv, n / 16, k / 16);
    WholeBlocks(n, k);
  }

  // ----- the context ------------------------------------------------------

  class AesCtx {
    const roundKey: array<bv8>
    const iv: array<bv8>

    ghost predicate Valid()
      reads this
    {
      roundKey.Length == 240 && iv.Length == 16 && roundKey != iv
    }

    constructor InitIv(key: Bytes, start: Bytes)
      requires |key| == 32 && |start| == 16
      ensures Valid() && fresh(roundKey) && fresh(iv)
      ensures roundKey[..] == Expanded(key) && iv[..] == start
    {
      roundKey := new bv8[240];
      iv := new bv8[16](i requires 0 <= i < 16 => start[i]);
      new;
      hide Expanded;
      KeyExpansion(roundKey, key);
      assert iv[..] == start;
    }

    /** The vector may lie in another part of the buffer itself. */
    static method XorWithIv(buf: array<bv8>, at: nat, from: array<bv8>, fromAt: nat)
      requires at + 16 <= buf.Length && fromAt + 16 <= from.Length
      requires from != buf || fromAt + 16 <= at
      modifies buf
      ensures buf[at..at + 16] == XorOf(old(buf[at..at + 16]), old(from[fromAt..fromAt + 16])) && OthersKept(buf, at)
    {
      hide Xor;
      for i := 0 to 16
        invariant forall m :: at <= m < at + 16 ==>
                    buf[m] == if m < at + i then Xor(old(buf[m]), old(from[fromAt + (m - at)])) else old(buf[m])
        invariant OthersKept(buf, at)
      {
        buf[at + i] := Xor(buf[at + i], from[fromAt + i]);
      }
    }

    static method CopyBlock(dst: array<bv8>, src: Bytes)
      requires dst.Length == 16 && |src| == 16
      modifies dst
      ensures dst[..] == src
    {
      forall k | 0 <= k < 16 {
        dst[k] := src[k];
      }
    }

    /** One block of the chain. */
    method EncryptBlock(buf: array<bv8>, i: nat, from: array<bv8>, fromAt: nat, ghost start: Bytes, ghost data: Bytes)
      requires Valid() && buf != roundKey && buf != iv && |start| == 16
      requires i % 16 == 0 && i + 16 <= buf.Length == |data| && fromAt + 16 <= from.Length
      requires from != buf || fromAt + 16 <= i
      requires buf[..i] == CbcEncrypted(start, roundKey[..], data[..i]) && buf[i..] == data[i..]
      requires from[fromAt..fromAt + 16] == NextIv(start, buf[..i])
      modifies buf
      ensures buf[..i + 16] == CbcEncrypted(start, roundKey[..], data[..i + 16]) && buf[i + 16..] == data[i + 16..]
    {
      hide Encrypted, XorOf, CbcEncrypted, NextIv;
      ghost var done, keys := buf[..i], roundKey[..];
      ghost var vector := from[fromAt..fromAt + 16];
      assert buf[i..i + 16] == data[i..i + 16];
      XorWithIv(buf, i, from, fromAt);
      assert buf[..i] == done && buf[i + 16..] == data[i + 16..];
      Cipher(buf, i, roundKey);
      assert buf[..i] == done && buf[i + 16..] == data[i + 16..];
      CbcInPieces(start, keys, data[..i], data[i..i + 16]);
      OneBlockEncrypted(vector, keys, data[i..i + 16]);
      assert data[..i] + data[i..i + 16] == data[..i + 16];
      assert buf[..i + 16] == done + buf[i..i + 16];
    }

    /** Chains every block with the ciphertext before it, which stays where it was written. */
    method CbcEncryptBuffer(buf: array<bv8>)
      requires Valid() && buf != roundKey && buf != iv && buf.Length % 16 == 0
      modifies buf, iv
      ensures buf[..] == CbcEncrypted(old(iv[..]), roundKey[..], old(buf[..]))
      ensures iv[..] == NextIv(old(iv[..]), buf[..])
    {
      hide Encrypted, XorOf, CbcEncrypted, Value;
      ghost var data, start, keys := buf[..], iv[..], roundKey[..];
      var from, fromAt := iv, 0;
      var i := 0;
      NothingEncrypted(start, keys);
      assert data[..0] == [] && buf[..0] == [];
      while i < buf.Length
        invariant 0 <= i <= buf.Length && i % 16 == 0
        invariant buf[..i] == CbcEncrypted(start, keys, data[..i]) && buf[i..] == data[i..]
        invariant iv[..] == start && roundKey[..] == keys
        invariant if i == 0 then from == iv && fromAt == 0 else from == buf && fromAt == i - 16
      {
        EncryptBlock(buf, i, from, fromAt, start, data);
        from, fromAt := buf, i;
        i := i + 16;
      }
      assert data[..i] == data && buf[..i] == buf[..];
      CopyBlock(iv, from[fromAt..fromAt + 16]);
    }

    method CbcDecryptBuffer(buf: array<bv8>)
      requires Valid() && buf != roundKey && buf != iv && buf.Length % 16 == 0
      modifies buf, iv
      ensures buf[..] == CbcDecrypted(old(iv[..]), roundKey[..], old(buf[..]))
      ensures iv[..] == NextIv(old(iv[..]), old(buf[..]))
    {
      hide Decrypted, XorOf, CbcDecrypted, Value;
      ghost var data, start, keys := buf[..], iv[..], roundKey[..];
      var i := 0;
      NothingDecrypted(start, keys);
      assert data[..0] == [] && buf[..0] == [];
      while i < buf.Length
        invariant 0 <= i <= buf.Length && i % 16 == 0
        invariant buf[..i] == CbcDecrypted(start, keys, data[..i]) && buf[i..] == data[i..]
        invariant iv[..] == NextIv(start, data[..i]) && roundKey[..] == keys
      {
        ghost var done, vector := buf[..i], iv[..];
        assert buf[i..i + 16] == data[i..i + 16];
        var storeNextIv := buf[i..i + 16];
        InvCipher(buf, i, roundKey);
        assert buf[..i] == done && buf[i + 16..] == data[i + 16..];
        XorWithIv(buf, i, iv, 0);
        assert iv[0..16] == vector;
        assert buf[..i] == done && buf[i + 16..] == data[i + 16..];
        CbcUndoneInPieces(start, keys, data[..i], data[i..i + 16]);
        OneBlockDecrypted(vector, keys, data[i..i + 16]);
        assert data[..i] + data[i..i + 16] == data[..i + 16];
        assert buf[..i + 16] == done + buf[i..i + 16];
        CopyBlock(iv, storeNextIv);
        i := i + 16;
      }
      assert data[..i] == data && buf[..i] == buf[..];
    }

    /** Adds one to the vector, from its last byte. */
    method IncrementIv()
      requires Valid()
      modifies iv
      ensures iv[..] == Incremented(old(iv[..]))
    {
      hide Incremented;
      ghost var s := iv[..];
      var bi := 15;
      assert s[..16] == s;
      NothingIncremented();
      while bi >= 0
        invariant -1 <= bi <= 15
        invariant iv[..bi + 1] == s[..bi + 1]
        invariant Incremented(s) == Incremented(s[..bi + 1]) + iv[bi + 1..]
        decreases bi
      {
        LastByte(s, bi);
        ghost var tail := iv[bi + 1..];
        if iv[bi] == 255 {
          iv[bi] := 0;
          assert iv[bi..] == [0] + tail;
        } else {
          iv[bi] := iv[bi] + 1;
          assert iv[..] == s[..bi] + [s[bi] + 1] + tail;
          return;
        }
        bi := bi - 1;
      }
      assert iv[0..] == iv[..];
    }

    /** Takes a new block of key stream every sixteen bytes. */
    method CtrXcryptBuffer(buf: array<bv8>)
      requires Valid() && buf != roundKey && buf != iv
      modifies buf, iv
      ensures buf[..] == CtrOf(old(iv[..]), roundKey[..], old(buf[..]))
      ensures iv[..] == Counter(old(iv[..]), (buf.Length + 15) / 16)
    {
      hide Encrypted, Xor, Incremented;
      ghost var data, start, keys := buf[..], iv[..], roundKey[..];
      var buffer := new bv8[16];
      var bi := 16;
      for i := 0 to buf.Length
        invariant bi == if i % 16 == 0 then 16 else i % 16
        invariant iv[..] == Counter(start, (i + 15) / 16) && roundKey[..] == keys
        invariant i % 16 != 0 ==> buffer[..] == Encrypted(Counter(start, i / 16), keys)
        invariant forall k :: 0 <= k < i ==> buf[k] == Xor(data[k], KeyStream(start, keys, k))
        invariant forall k :: i <= k < buf.Length ==> buf[k] == data[k]
      {
        if bi == 16 {
          CopyBlock(buffer, iv[..]);
          assert buffer[0..16] == buffer[..];
          Cipher(buffer, 0, roundKey);
          assert buffer[0..16] == buffer[..];
          IncrementIv();
          bi := 0;
        }
        assert buffer[..][bi] == KeyStream(start, keys, i);
        buf[i] := Xor(buf[i], buffer[bi]);
        bi := bi + 1;
      }
    }
  }

  lemma NothingIncremented()
    ensures Incremented([]) == []
  {
  }

  lemma LastByte(s: Bytes, bi: nat)
    requires bi < |s|
    ensures Incremented(s[..bi + 1]) == if s[bi] == 255 then Incremented(s[..bi]) + [0] else s[..bi] + [s[bi] + 1]
  {
    assert s[..bi + 1][..bi] == s[..bi];
  }

  lemma NothingEncrypted(iv: Bytes, keys: Bytes)
    requires |iv| == 16 && |keys| == 240
    ensures CbcEncrypted(iv, keys, []) == []
  {
  }

  lemma NothingDecrypted(iv: Bytes, keys: Bytes)
    requires |iv| == 16 && |keys| == 240
    ensures CbcDecrypted(iv, keys, []) == []
  {
  }
}

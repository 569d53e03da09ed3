/** UTF-8 and UTF-16 conversion (utils/rapidjson/encodings.h). A stream gives zeros after its
    end. Bit fields are taken by division; fields that do not overlap are joined by addition. */
module Encodings {
  import opened Bytes
  import opened Wrappers

  type Unit = n: int | 0 <= n < 0x1_0000

  /** Code points that are not surrogates. */
  predicate Scalar(cp: nat)
  {
    cp < 0xD800 || 0xE000 <= cp <= 0x10FFFF
  }

  // ----- UTF-8 as RFC 3629 defines it -------------------------------------

  predicate Tail(c: Byte)
  {
    0x80 <= c <= 0xBF
  }

  /** Section 4: the sequences of two, three and four bytes and the ranges of their bytes. */
  predicate Sequence8(s: seq<Byte>)
  {
    || (|s| == 1 && s[0] <= 0x7F)
    || (|s| == 2 && 0xC2 <= s[0] <= 0xDF && Tail(s[1]))
    || (|s| == 3 && Three(s[0], s[1], s[2]))
    || (|s| == 4 && Four(s[0], s[1], s[2], s[3]))
  }

  predicate Three(a: Byte, b: Byte, c: Byte)
  {
    && Tail(c)
    && (|| (a == 0xE0 && 0xA0 <= b <= 0xBF)
        || ((0xE1 <= a <= 0xEC || 0xEE <= a <= 0xEF) && Tail(b))
        || (a == 0xED && 0x80 <= b <= 0x9F))
  }

  predicate Four(a: Byte, b: Byte, c: Byte, d: Byte)
  {
    && Tail(c) && Tail(d)
    && (|| (a == 0xF0 && 0x90 <= b <= 0xBF)
        || (0xF1 <= a <= 0xF3 && Tail(b))
        || (a == 0xF4 && 0x80 <= b <= 0x8F))
  }

  /** The code point of a sequence: the bits after its length marks. */
  function Meaning8(s: seq<Byte>): nat
    requires Sequence8(s)
  {
    if |s| == 1 then s[0]
    else if |s| == 2 then (s[0] as int - 0xC0) * 0x40 + (s[1] as int - 0x80)
    else if |s| == 3 then ((s[0] as int - 0xE0) * 0x40 + (s[1] as int - 0x80)) * 0x40 + (s[2] as int - 0x80)
    else (((s[0] as int - 0xF0) * 0x40 + (s[1] as int - 0x80)) * 0x40 + (s[2] as int - 0x80)) * 0x40 + (s[3] as int - 0x80)
  }

  /** The length of the well-formed sequence a text starts with; zero when there is none. */
  function Length8(s: seq<Byte>): (n: nat)
    ensures n <= |s| && n <= 4 && (n > 0 ==> Sequence8(s[..n]))
  {
    if |s| >= 1 && Sequence8(s[..1]) then 1
    else if |s| >= 2 && Sequence8(s[..2]) then 2
    else if |s| >= 3 && Sequence8(s[..3]) then 3
    else if |s| >= 4 && Sequence8(s[..4]) then 4
    else 0
  }

  /** A well-formed text is a row of sequences, in one way only. */
  function Points8(s: seq<Byte>): Option<seq<nat>>
    decreases |s|
  {
    if s == [] then Some([])
    else
      var n := Length8(s);
      if n == 0 then None
      else match Points8(s[n..])
        case Some(rest) => Some([Meaning8(s[..n])] + rest)
        case None => None
  }

  lemma SequenceLeads(s: seq<Byte>, rest: seq<Byte>)
    requires Sequence8(s)
    ensures Length8(s + rest) == |s|
  {
    var t := s + rest;
    assert t[..|s|] == s;
    assert t[0] == s[0];
  }

  // ----- encoding ---------------------------------------------------------

  function Encode8(cp: nat): (s: seq<Byte>)
    requires cp <= 0x10FFFF
    ensures 1 <= |s| <= 4
  {
    if cp <= 0x7F then [cp]
    else if cp <= 0x7FF then [0xC0 + cp / 0x40, 0x80 + cp % 0x40]
    else if cp <= 0xFFFF then [0xE0 + cp / 0x1000, 0x80 + cp / 0x40 % 0x40, 0x80 + cp % 0x40]
    else [0xF0 + cp / 0x4_0000, 0x80 + cp / 0x1000 % 0x40, 0x80 + cp / 0x40 % 0x40, 0x80 + cp % 0x40]
  }

  function Texts8(cps: seq<nat>): seq<Byte>
    requires forall cp <- cps :: Scalar(cp)
  {
    if cps == [] then []
    else
      assert Scalar(cps[0]);
      Encode8(cps[0]) + Texts8(cps[1..])
  }

  /** Encoding a scalar gives a well-formed sequence that means it. */
  lemma EncodedMeans(cp: nat)
    requires Scalar(cp)
    ensures Sequence8(Encode8(cp)) && Meaning8(Encode8(cp)) == cp
  {
    if cp > 0xFFFF {
      FourDigits(cp);
    } else if cp > 0x7FF {
      ThreeDigits(cp);
    }
  }

  lemma ThreeDigits(cp: nat)
    requires cp <= 0xFFFF
    ensures cp == (cp / 0x1000 * 0x40 + cp / 0x40 % 0x40) * 0x40 + cp % 0x40
  {
    assert cp / 0x40 / 0x40 == cp / 0x1000;
  }

  lemma FourDigits(cp: nat)
    requires cp <= 0x10FFFF
    ensures cp == ((cp / 0x4_0000 * 0x40 + cp / 0x1000 % 0x40) * 0x40 + cp / 0x40 % 0x40) * 0x40 + cp % 0x40
    ensures cp > 0xFFFF && cp < 0x4_0000 ==> cp / 0x1000 % 0x40 >= 0x10
    ensures cp >= 0x10_0000 ==> cp / 0x1000 % 0x40 < 0x10
  {
    assert cp / 0x40 / 0x40 == cp / 0x1000 && cp / 0x1000 / 0x40 == cp / 0x4_0000;
  }

  /** A well-formed sequence means a scalar, and encoding that gives the sequence back. */
  lemma MeaningEncodes(s: seq<Byte>)
    requires Sequence8(s)
    ensures Scalar(Meaning8(s)) && Encode8(Meaning8(s)) == s
  {
    if |s| == 3 {
      ThreeEncodes(s);
    } else if |s| == 4 {
      FourEncodes(s);
    }
  }

  lemma ThreeEncodes(s: seq<Byte>)
    requires |s| == 3 && Sequence8(s)
    ensures Scalar(Meaning8(s)) && Encode8(Meaning8(s)) == s
  {
    Digits3(s[0] as int - 0xE0, s[1] as int - 0x80, s[2] as int - 0x80);
  }

  lemma FourEncodes(s: seq<Byte>)
    requires |s| == 4 && Sequence8(s)
    ensures Scalar(Meaning8(s)) && Encode8(Meaning8(s)) == s
  {
    Digits4(s[0] as int - 0xF0, s[1] as int - 0x80, s[2] as int - 0x80, s[3] as int - 0x80);
  }

  lemma Digits3(a: nat, b: nat, c: nat)
    requires a < 0x10 && b < 0x40 && c < 0x40
    ensures var cp := (a * 0x40 + b) * 0x40 + c;
            cp / 0x1000 == a && cp / 0x40 % 0x40 == b && cp % 0x40 == c
  {
    var cp := (a * 0x40 + b) * 0x40 + c;
    assert cp / 0x40 == a * 0x40 + b;
  }

  lemma Digits4(a: nat, b: nat, c: nat, d: nat)
    requires a < 8 && b < 0x40 && c < 0x40 && d < 0x40
    ensures var cp := ((a * 0x40 + b) * 0x40 + c) * 0x40 + d;
            cp / 0x4_0000 == a && cp / 0x1000 % 0x40 == b && cp / 0x40 % 0x40 == c && cp % 0x40 == d
  {
    var cp := ((a * 0x40 + b) * 0x40 + c) * 0x40 + d;
    assert cp / 0x40 == (a * 0x40 + b) * 0x40 + c;
    assert cp / 0x1000 == a * 0x40 + b;
  }

  /** Decoding the encoding of scalars gives them back. */
  lemma {:induction false} EncodedReturns8(cps: seq<nat>)
    requires forall cp <- cps :: Scalar(cp)
    ensures Points8(Texts8(cps)) == Some(cps)
    decreases |cps|
  {
    hide Sequence8, Meaning8, Encode8, Length8;
    if cps != [] {
      assert Scalar(cps[0]);
      var first, rest := Encode8(cps[0]), Texts8(cps[1..]);
      EncodedMeans(cps[0]);
      SequenceLeads(first, rest);
      var s := first + rest;
      assert s[..|first|] == first && s[|first|..] == rest;
      EncodedReturns8(cps[1..]);
      assert cps == [cps[0]] + cps[1..];
    }
  }

  /** Encoding what a well-formed text decodes to gives the text back. */
  lemma {:induction false} DecodedReturns8(s: seq<Byte>)
    requires Points8(s).Some?
    ensures forall cp <- Points8(s).value :: Scalar(cp)
    ensures Texts8(Points8(s).value) == s
    decreases |s|
  {
    hide Sequence8, Meaning8, Encode8, Length8;
    if s != [] {
      var n := Length8(s);
      MeaningEncodes(s[..n]);
      DecodedReturns8(s[n..]);
      var cps := Points8(s).value;
      assert cps[1..] == Points8(s[n..]).value;
      assert s == s[..n] + s[n..];
    }
  }

  // ----- the decoder ------------------------------------------------------

  /** The table of byte classes, by ranges of equal entries. */
  function GetRange(c: Byte): nat
  {
    if c < 0x80 then 0
    else if c < 0x90 then 0x10
    else if c < 0xA0 then 0x40
    else if c < 0xC0 then 0x20
    else if c < 0xC2 then 8
    else if c < 0xE0 then 2
    else if c == 0xE0 then 10
    else if c < 0xED then 3
    else if c == 0xED then 4
    else if c < 0xF0 then 3
    else if c == 0xF0 then 11
    else if c < 0xF4 then 6
    else if c == 0xF4 then 5
    else 8
  }

  datatype Mask = Any | Below90 | BelowA0 | From90 | FromA0

  /** Whether the class of a byte is among the bits of the mask 0x70, 0x10, 0x50, 0x60 or 0x20. */
  predicate Trans(c: Byte, mask: Mask)
  {
    var r := GetRange(c);
    match mask
    case Any => r == 0x10 || r == 0x20 || r == 0x40
    case Below90 => r == 0x10
    case BelowA0 => r == 0x10 || r == 0x40
    case From90 => r == 0x20 || r == 0x40
    case FromA0 => r == 0x20
  }

  /** The bits of a first byte that 0xFF shifted right by its class leaves. */
  function FirstBits(c: Byte, kind: nat): nat
  {
    if kind == 2 then c % 0x40
    else if kind == 3 then c % 0x20
    else if kind == 4 then c % 0x10
    else if kind == 5 then c % 8
    else if kind == 6 then c % 4
    else 0
  }

  function Take(s: seq<Byte>, at: nat): Byte
  {
    if at < |s| then s[at] else 0
  }

  /** Reads one more byte: adds its six bits, and checks its range. */
  method TakeTail(s: seq<Byte>, at: nat, before: nat, mask: Mask, good: bool) returns (cp: nat, ok: bool, next: nat)
    ensures next == at + 1 && cp == before * 0x40 + Take(s, at) % 0x40 && ok == (good && Trans(Take(s, at), mask))
  {
    var c := Take(s, at);
    cp := before * 0x40 + c % 0x40;
    ok := good && Trans(c, mask);
    next := at + 1;
  }

  /** One code point. A malformed sequence is read to the length its first byte announces. */
  method Decode8(s: seq<Byte>, at: nat) returns (cp: nat, ok: bool, next: nat)
    requires at < |s|
    ensures at < next <= at + 4
    ensures ok <==> Length8(s[at..]) > 0
    ensures ok ==> next == at + Length8(s[at..]) && cp == Meaning8(s[at..next])
  {
    hide Sequence8, Length8, Meaning8, GetRange, Trans, FirstBits, Take;
    Lengths(s, at);
    Classes(Take(s, at + 1));
    Classes(Take(s, at + 2));
    Classes(Take(s, at + 3));
    var c := Take(s, at);
    FirstBytes(c);
    next := at + 1;
    if c < 0x80 {
      cp, ok := c, true;
      return;
    }
    var kind := GetRange(c);
    cp := if kind >= 32 then 0 else FirstBits(c, kind);
    ok := true;
    match kind
    case 2 =>
      cp, ok, next := TakeTail(s, next, cp, Any, ok);
    case 3 =>
      cp, ok, next := TakeTail(s, next, cp, Any, ok);
      cp, ok, next := TakeTail(s, next, cp, Any, ok);
    case 4 =>
      cp, ok, next := TakeTail(s, next, cp, BelowA0, ok);
      cp, ok, next := TakeTail(s, next, cp, Any, ok);
    case 5 =>
      cp, ok, next := TakeTail(s, next, cp, Below90, ok);
      cp, ok, next := TakeTail(s, next, cp, Any, ok);
      cp, ok, next := TakeTail(s, next, cp, Any, ok);
    case 6 =>
      cp, ok, next := TakeTail(s, next, cp, Any, ok);
      cp, ok, next := TakeTail(s, next, cp, Any, ok);
      cp, ok, next := TakeTail(s, next, cp, Any, ok);
    case 10 =>
      cp, ok, next := TakeTail(s, next, cp, FromA0, ok);
      cp, ok, next := TakeTail(s, next, cp, Any, ok);
    case 11 =>
      cp, ok, next := TakeTail(s, next, cp, From90, ok);
      cp, ok, next := TakeTail(s, next, cp, Any, ok);
      cp, ok, next := TakeTail(s, next, cp, Any, ok);
    case _ =>
      ok := false;
  }

  /** The masks select ranges of trailing bytes, whose low six bits are their value. */
  lemma Classes(c: Byte)
    ensures Trans(c, Any) <==> Tail(c)
    ensures Trans(c, Below90) <==> 0x80 <= c <= 0x8F
    ensures Trans(c, BelowA0) <==> 0x80 <= c <= 0x9F
    ensures Trans(c, From90) <==> 0x90 <= c <= 0xBF
    ensures Trans(c, FromA0) <==> 0xA0 <= c <= 0xBF
    ensures Tail(c) ==> c % 0x40 == c as int - 0x80
  {
  }

  /** The classes of first bytes, and the bits they carry. */
  lemma FirstBytes(c: Byte)
    ensures var k := GetRange(c);
            && (k == 2 <==> 0xC2 <= c <= 0xDF) && (k == 2 ==> FirstBits(c, k) == c as int - 0xC0)
            && (k == 3 <==> 0xE1 <= c <= 0xEC || 0xEE <= c <= 0xEF) && (k == 3 ==> FirstBits(c, k) == c as int - 0xE0)
            && (k == 4 <==> c == 0xED) && (k == 4 ==> FirstBits(c, k) == c as int - 0xE0)
            && (k == 5 <==> c == 0xF4) && (k == 5 ==> FirstBits(c, k) == c as int - 0xF0)
            && (k == 6 <==> 0xF1 <= c <= 0xF3) && (k == 6 ==> FirstBits(c, k) == c as int - 0xF0)
            && (k == 10 <==> c == 0xE0) && (k == 10 ==> FirstBits(c, k) == c as int - 0xE0)
            && (k == 11 <==> c == 0xF0) && (k == 11 ==> FirstBits(c, k) == c as int - 0xF0)
  {
  }

  /** Which sequence starts at a position, from the next four bytes of the stream. */
  lemma Lengths(s: seq<Byte>, at: nat)
    requires at < |s|
    ensures var a, b, c, d := Take(s, at), Take(s, at + 1), Take(s, at + 2), Take(s, at + 3);
            var n := Length8(s[at..]);
            && (n == 1 <==> a <= 0x7F)
            && (n == 2 <==> 0xC2 <= a <= 0xDF && Tail(b))
            && (n == 3 <==> Three(a, b, c))
            && (n == 4 <==> Four(a, b, c, d))
            && (n == 1 ==> Meaning8(s[at..at + 1]) == a)
            && (n == 2 ==> Meaning8(s[at..at + 2]) == (a as int - 0xC0) * 0x40 + (b as int - 0x80))
            && (n == 3 ==> Meaning8(s[at..at + 3]) == ((a as int - 0xE0) * 0x40 + (b as int - 0x80)) * 0x40 + (c as int - 0x80))
            && (n == 4 ==> Meaning8(s[at..at + 4]) == (((a as int - 0xF0) * 0x40 + (b as int - 0x80)) * 0x40 + (c as int - 0x80)) * 0x40 + (d as int - 0x80))
  {
    var t := s[at..];
    assert t[..1] == s[at..at + 1];
    if |t| >= 2 { assert t[..2] == s[at..at + 2]; }
    if |t| >= 3 { assert t[..3] == s[at..at + 3]; }
    if |t| >= 4 { assert t[..4] == s[at..at + 4]; }
  }

  // ----- UTF-16 -----------------------------------------------------------

  function Encode16(cp: nat): (s: seq<Unit>)
    requires Scalar(cp)
    ensures 1 <= |s| <= 2
  {
    if cp <= 0xFFFF then [cp]
    else
      var v := cp - 0x1_0000;
      [v / 0x400 + 0xD800, v % 0x400 + 0xDC00]
  }

  function Texts16(cps: seq<nat>): seq<Unit>
    requires forall cp <- cps :: Scalar(cp)
  {
    if cps == [] then [] else Encode16(cps[0]) + Texts16(cps[1..])
  }

  /** RFC 2781, section 2: a unit outside the surrogates, or a high one and a low one. */
  predicate Sequence16(s: seq<Unit>)
  {
    || (|s| == 1 && !(0xD800 <= s[0] <= 0xDFFF))
    || (|s| == 2 && 0xD800 <= s[0] <= 0xDBFF && 0xDC00 <= s[1] <= 0xDFFF)
  }

  function Meaning16(s: seq<Unit>): nat
    requires Sequence16(s)
  {
    if |s| == 1 then s[0] else (s[0] as int - 0xD800) * 0x400 + (s[1] as int - 0xDC00) + 0x1_0000
  }

  function Length16(s: seq<Unit>): (n: nat)
    ensures n <= |s| && n <= 2 && (n > 0 ==> Sequence16(s[..n]))
  {
    if |s| >= 1 && Sequence16(s[..1]) then 1
    else if |s| >= 2 && Sequence16(s[..2]) then 2
    else 0
  }

  function Points16(s: seq<Unit>): Option<seq<nat>>
    decreases |s|
  {
    if s == [] then Some([])
    else
      var n := Length16(s);
      if n == 0 then None
      else match Points16(s[n..])
        case Some(rest) => Some([Meaning16(s[..n])] + rest)
        case None => None
  }

  lemma EncodedMeans16(cp: nat, rest: seq<Unit>)
    requires Scalar(cp)
    ensures Sequence16(Encode16(cp)) && Meaning16(Encode16(cp)) == cp
    ensures Length16(Encode16(cp) + rest) == |Encode16(cp)|
  {
    var s := Encode16(cp) + rest;
    assert s[..|Encode16(cp)|] == Encode16(cp);
  }

  lemma {:induction false} EncodedReturns16(cps: seq<nat>)
    requires forall cp <- cps :: Scalar(cp)
    ensures Points16(Texts16(cps)) == Some(cps)
    decreases |cps|
  {
    hide Sequence16, Meaning16, Encode16, Length16;
    if cps != [] {
      var first, rest := Encode16(cps[0]), Texts16(cps[1..]);
      EncodedMeans16(cps[0], rest);
      var s := first + rest;
      assert s[..|first|] == first && s[|first|..] == rest;
      EncodedReturns16(cps[1..]);
      assert cps == [cps[0]] + cps[1..];
    }
  }

  method Decode16(s: seq<Unit>, at: nat) returns (cp: nat, ok: bool, next: nat)
    requires at < |s|
    ensures at < next <= at + 2
    ensures ok <==> Length16(s[at..]) > 0
    ensures ok ==> next == at + Length16(s[at..]) && cp == Meaning16(s[at..next])
  {
    var c := s[at];
    next := at + 1;
    assert s[at..][..1] == s[at..next];
    if c < 0xD800 || c > 0xDFFF {
      return c, true, next;
    } else if c <= 0xDBFF {
      cp := c as int % 0x400 * 0x400;
      c := if next < |s| then s[next] else 0;
      next := next + 1;
      cp := cp + c as int % 0x400;
      cp := cp + 0x1_0000;
      ok := 0xDC00 <= c <= 0xDFFF;
      if next <= |s| {
        assert s[at..][..2] == s[at..next];
      }
      return;
    }
    return 0, false, next;
  }

  // ----- transcoding ------------------------------------------------------

  /** Converts code point by code point and stops at the first malformed sequence. */
  method Utf8ToUtf16(source: seq<Byte>) returns (ok: bool, target: seq<Unit>)
    ensures ok <==> Points8(source).Some?
    ensures ok ==> (forall cp <- Points8(source).value :: Scalar(cp)) && target == Texts16(Points8(source).value)
  {
    hide Sequence8, Meaning8, Length8, Encode16;
    var at := 0;
    target := [];
    ghost var cps: seq<nat> := [];
    assert source[0..] == source;
    NothingJoined(Points8(source));
    while at < |source|
      invariant at <= |source|
      invariant forall cp <- cps :: Scalar(cp)
      invariant target == Texts16(cps)
      invariant Points8(source) == Joined(cps, Points8(source[at..]))
    {
      var cp, good, next := Decode8(source, at);
      if !good {
        return false, target;
      }
      assert source[at..][..next - at] == source[at..next] && source[at..][next - at..] == source[next..];
      MeaningEncodes(source[at..next]);
      JoinedMore(cps, cp, Points8(source[next..]));
      Texts16More(cps, cp);
      target := target + Encode16(cp);
      cps := cps + [cp];
      at := next;
    }
    assert cps + [] == cps;
    return true, target;
  }

  method Utf16ToUtf8(source: seq<Unit>) returns (ok: bool, target: seq<Byte>)
    ensures ok <==> Points16(source).Some?
    ensures ok ==> (forall cp <- Points16(source).value :: Scalar(cp)) && target == Texts8(Points16(source).value)
  {
    hide Sequence16, Length16, Encode8;
    var at := 0;
    target := [];
    ghost var cps: seq<nat> := [];
    assert source[0..] == source;
    NothingJoined(Points16(source));
    while at < |source|
      invariant at <= |source|
      invariant forall cp <- cps :: Scalar(cp)
      invariant target == Texts8(cps)
      invariant Points16(source) == Joined(cps, Points16(source[at..]))
    {
      var cp, good, next := Decode16(source, at);
      if !good {
        return false, target;
      }
      assert source[at..][..next - at] == source[at..next] && source[at..][next - at..] == source[next..];
      Meaning16IsScalar(source[at..next]);
      JoinedMore(cps, cp, Points16(source[next..]));
      Texts8More(cps, cp);
      target := target + Encode8(cp);
      cps := cps + [cp];
      at := next;
    }
    assert cps + [] == cps;
    return true, target;
  }

  function Joined(cps: seq<nat>, rest: Option<seq<nat>>): Option<seq<nat>>
  {
    match rest
    case Some(more) => Some(cps + more)
    case None => None
  }

  lemma NothingJoined(rest: Option<seq<nat>>)
    ensures Joined([], rest) == rest
  {
    if rest.Some? {
      assert [] + rest.value == rest.value;
    }
  }

  lemma JoinedMore(cps: seq<nat>, cp: nat, rest: Option<seq<nat>>)
    ensures Joined(cps + [cp], rest)
         == match rest case Some(more) => Joined(cps, Some([cp] + more)) case None => None
  {
    if rest.Some? {
      assert cps + [cp] + rest.value == cps + ([cp] + rest.value);
    }
  }

  lemma Meaning16IsScalar(s: seq<Unit>)
    requires Sequence16(s)
    ensures Scalar(Meaning16(s))
  {
  }

  lemma {:induction false} Texts16More(cps: seq<nat>, cp: nat)
    requires Scalar(cp) && forall c <- cps :: Scalar(c)
    ensures Texts16(cps + [cp]) == Texts16(cps) + Encode16(cp)
    decreases |cps|
  {
    hide Encode16;
    if cps == [] {
      assert [] + [cp] == [cp];
      assert Texts16([cp]) == Encode16(cp) + Texts16([]);
    } else {
      assert (cps + [cp])[1..] == cps[1..] + [cp];
      Texts16More(cps[1..], cp);
    }
  }

  lemma {:induction false} Texts8More(cps: seq<nat>, cp: nat)
    requires Scalar(cp) && forall c <- cps :: Scalar(c)
    ensures Texts8(cps + [cp]) == Texts8(cps) + Encode8(cp)
    decreases |cps|
  {
    hide Encode8;
    if cps == [] {
      assert [] + [cp] == [cp];
      assert Texts8([cp]) == Encode8(cp) + Texts8([]);
    } else {
      assert (cps + [cp])[1..] == cps[1..] + [cp];
      Texts8More(cps[1..], cp);
    }
  }

  /** Every well-formed text survives the way to UTF-16 and back, and no other is accepted. */
  method ThereAndBack(source: seq<Byte>) returns (ok: bool, target: seq<Byte>)
    ensures ok <==> Points8(source).Some?
    ensures ok ==> target == source
  {
    hide Encode8, Encode16;
    var wide;
    ok, wide := Utf8ToUtf16(source);
    target := [];
    if ok {
      EncodedReturns16(Points8(source).value);
      DecodedReturns8(source);
      ok, target := Utf16ToUtf8(wide);
    }
  }
}

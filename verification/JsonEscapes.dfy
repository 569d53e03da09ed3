/** Unicode escapes in JSON strings: UTF-16 units in hexadecimal become UTF-8 bytes
    (utils/rapidjson/reader.h, utils/rapidjson/encodings.h). */
module JsonEscapes {
  import opened Bytes
  import opened JsonText
  import opened JsonScalars
  import opened Wrappers
  import opened Encodings

  /** The units of a text, each written as an escape. */
  function EscapedUnits(units: seq<Unit>): string
  {
    if units == [] then "" else "\\u" + HexWord(units[0]) + EscapedUnits(units[1..])
  }

  lemma {:induction false} EscapedJoin(a: seq<Unit>, b: seq<Unit>)
    ensures EscapedUnits(a + b) == EscapedUnits(a) + EscapedUnits(b)
    decreases |a|
  {
    if a == [] {
      assert a + b == b;
    } else {
      hide HexWord;
      EscapedJoin(a[1..], b);
      assert (a + b)[1..] == a[1..] + b;
    }
  }

  lemma OneUnitReads(text: string, pos: nat, u: Unit)
    requires At(text, pos, "\\u" + HexWord(u))
    ensures pos + 6 <= |text| && text[pos] == '\\' && Peek(text, pos + 1) == 'u'
    ensures ParseHex4(text, pos + 2) == Some(u)
  {
    hide HexDigits;
    var part := "\\u" + HexWord(u);
    AtBounds(text, pos, part);
    AtChar(text, pos, part, 0);
    AtChar(text, pos, part, 1);
    AtSplit(text, pos, "\\u", HexWord(u));
    HexWordReads(text, pos + 2, u);
  }

  /** The escapes of one code point, a surrogate pair where it takes one, give its UTF-8 bytes. */
  lemma ScalarEscapeParses(text: string, pos: nat, cp: nat)
    requires Scalar(cp) && At(text, pos, EscapedUnits(Encode16(cp)))
    ensures pos < |text| && text[pos] == '\\'
    ensures ParseEscape(text, pos) == Some(Piece(EncodeUtf8(cp), pos + |EscapedUnits(Encode16(cp))|))
  {
    hide HexWord, ParseHex4, EncodeUtf8, At;
    var units := Encode16(cp);
    if |units| == 1 {
      assert units[1..] == [];
      HexWordSize(units[0]);
      assert EscapedUnits(units) == "\\u" + HexWord(units[0]);
      OneUnitReads(text, pos, units[0]);
    } else {
      assert units[1..] == [units[1]];
      assert EscapedUnits([units[1]]) == "\\u" + HexWord(units[1]);
      assert EscapedUnits(units) == "\\u" + HexWord(units[0]) + ("\\u" + HexWord(units[1]));
      HexWordSize(units[0]);
      HexWordSize(units[1]);
      AtSplit(text, pos, "\\u" + HexWord(units[0]), "\\u" + HexWord(units[1]));
      OneUnitReads(text, pos, units[0]);
      OneUnitReads(text, pos + 6, units[1]);
    }
  }

  lemma HexWordSize(n: nat)
    requires n < 0x1_0000
    ensures |HexWord(n)| == 4
  {
  }

  lemma CharsJoin(a: seq<Byte>, b: seq<Byte>)
    ensures Chars(a + b) == Chars(a) + Chars(b)
  {
  }

  lemma {:induction false} EscapesScan(text: string, pos: nat, cps: seq<nat>, acc: string)
    requires forall cp <- cps :: Scalar(cp)
    requires At(text, pos, EscapedUnits(Texts16(cps)) + "\"")
    ensures ScanString(text, pos, acc)
         == Some(Piece(acc + Chars(Texts8(cps)), pos + |EscapedUnits(Texts16(cps))| + 1))
    decreases |cps|
  {
    hide At, Chars, ParseEscape, EncodeUtf8, Encode8, Encode16, HexWord;
    if cps == [] {
      assert Texts16(cps) == [] && Texts8(cps) == [];
      assert EscapedUnits([]) + "\"" == "\"";
      QuoteScans(text, pos, acc);
      assert acc + Chars([]) == acc by { NoChars(); }
    } else {
      var cp, rest := cps[0], cps[1..];
      var first, others := EscapedUnits(Encode16(cp)), EscapedUnits(Texts16(rest));
      EscapedJoin(Encode16(cp), Texts16(rest));
      assert EscapedUnits(Texts16(cps)) + "\"" == first + (others + "\"");
      AtSplit(text, pos, first, others + "\"");
      ScalarEscapeParses(text, pos, cp);
      EscapesScan(text, pos + |first|, rest, acc + EncodeUtf8(cp));
      CharsJoin(Encode8(cp), Texts8(rest));
      assert EncodeUtf8(cp) == Chars(Encode8(cp)) by { Utf8IsEncode8(cp); }
      assert acc + (Chars(Encode8(cp)) + Chars(Texts8(rest))) == acc + Chars(Encode8(cp)) + Chars(Texts8(rest));
    }
  }

  lemma NoChars()
    ensures Chars([]) == []
  {
  }

  lemma Utf8IsEncode8(cp: nat)
    requires cp <= 0x10_FFFF
    ensures EncodeUtf8(cp) == Chars(Encode8(cp))
  {
  }

  /** A string written in UTF-16 escapes throughout is parsed into the same text in UTF-8. */
  lemma EscapedTextParses(src: Source, pos: nat, cps: seq<nat>, events: seq<Event>, isKey: bool)
    requires forall cp <- cps :: Scalar(cp)
    requires At(src.text, pos, "\"" + EscapedUnits(Texts16(cps)) + "\"")
    ensures Peek(src.text, pos) == '"'
    ensures var s := Chars(Texts8(cps));
            ParseString(src, pos, events, isKey)
            == Send(src, pos + |EscapedUnits(Texts16(cps))| + 2, events, if isKey then Key(s) else String(s))
  {
    hide At, Chars, ScanString, Texts8, Texts16, EscapedUnits;
    var body := EscapedUnits(Texts16(cps));
    assert "\"" + body + "\"" == "\"" + (body + "\"");
    AtSplit(src.text, pos, "\"", body + "\"");
    AtBounds(src.text, pos, "\"");
    AtChar(src.text, pos, "\"", 0);
    EscapesScan(src.text, pos + 1, cps, "");
    assert "" + Chars(Texts8(cps)) == Chars(Texts8(cps));
  }

  ghost predicate WellFormed(text: string)
  {
    exists s :: Sequence8(s) && Chars(s) == text
  }

  /** An accepted escape gives well-formed UTF-8 exactly when it is not a low surrogate alone. */
  lemma EscapeIsUtf8Exactly(text: string, pos: nat)
    requires pos < |text| && text[pos] == '\\' && Peek(text, pos + 1) == 'u' && ParseEscape(text, pos).Some?
    ensures pos + 2 <= |text| && ParseHex4(text, pos + 2).Some?
    ensures WellFormed(ParseEscape(text, pos).value.text) <==> !(0xDC00 <= ParseHex4(text, pos + 2).value <= 0xDFFF)
  {
    hide HexDigits, Chars, Encode8;
    var lead := ParseHex4(text, pos + 2).value;
    var cp := if 0xD800 <= lead <= 0xDBFF then (lead - 0xD800) * 1024 + (ParseHex4(text, pos + 8).value - 0xDC00) + 0x1_0000
              else lead;
    assert ParseEscape(text, pos).value.text == EncodeUtf8(cp) == Chars(Encode8(cp));
    if Scalar(cp) {
      EncodedMeans(cp);
    } else {
      SurrogateIsIllFormed(cp);
    }
  }

  lemma SurrogateIsIllFormed(cp: nat)
    requires 0xD800 <= cp <= 0xDFFF
    ensures !WellFormed(Chars(Encode8(cp)))
  {
    var bytes := Encode8(cp);
    assert bytes[0] == 0xED && bytes[1] >= 0xA0 && |bytes| == 3;
    forall s | Chars(s) == Chars(bytes)
      ensures !Sequence8(s)
    {
      CharsApart(s, bytes);
    }
  }

  lemma CharsApart(a: seq<Byte>, b: seq<Byte>)
    requires Chars(a) == Chars(b)
    ensures a == b
  {
    assert |a| == |Chars(a)| == |b|;
    forall i | 0 <= i < |a|
      ensures a[i] == b[i]
    {
      assert Chars(a)[i] == Chars(b)[i];
    }
  }
}

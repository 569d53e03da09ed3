/** Every scalar the writer prints is read back by the parser. */
module JsonScalars {
  import opened Wrappers
  import opened JsonText
  import opened JsonTree
  import Itoa

  /** The text holds part from pos on. */
  ghost predicate At(text: string, pos: nat, part: string)
  {
    pos + |part| <= |text| && text[pos..pos + |part|] == part
  }

  lemma AtSplit(text: string, pos: nat, a: string, b: string)
    ensures At(text, pos, a + b) <==> At(text, pos, a) && At(text, pos + |a|, b)
  {
    if At(text, pos, a + b) {
      assert text[pos..pos + |a|] == (a + b)[..|a|];
      assert text[pos + |a|..pos + |a| + |b|] == (a + b)[|a|..];
    }
    if At(text, pos, a) && At(text, pos + |a|, b) {
      assert text[pos..pos + |a + b|] == text[pos..pos + |a|] + text[pos + |a|..pos + |a| + |b|];
    }
  }

  lemma AtBounds(text: string, pos: nat, part: string)
    requires At(text, pos, part)
    ensures pos + |part| <= |text|
  {
  }

  lemma AtChar(text: string, pos: nat, part: string, i: nat)
    requires At(text, pos, part) && i < |part|
    ensures Peek(text, pos + i) == part[i]
  {
    assert text[pos..pos + |part|][i] == text[pos + i];
  }

  // ----- strings ----------------------------------------------------------

  lemma HexDigitValue(d: nat)
    requires d < 16
    ensures HexValue(HexDigit(d)) == Some(d)
  {
  }

  /** A 16-bit number as four hexadecimal digits. */
  function HexWord(n: nat): string
    requires n < 0x1_0000
  {
    [HexDigit(n / 4096), HexDigit(n / 256 % 16), HexDigit(n / 16 % 16), HexDigit(n % 16)]
  }

  lemma HexDigitsStep(text: string, pos: nat, n: nat, value: nat, d: nat)
    requires pos < |text| && n > 0 && HexValue(Peek(text, pos)) == Some(d)
    ensures HexDigits(text, pos, n, value) == HexDigits(text, pos + 1, n - 1, value * 16 + d)
  {
  }

  lemma FourHexDigits(n: nat)
    requires n < 0x1_0000
    ensures n / 4096 < 16 && ((n / 4096 * 16 + n / 256 % 16) * 16 + n / 16 % 16) * 16 + n % 16 == n
  {
  }

  lemma HexWordReads(text: string, pos: nat, n: nat)
    requires n < 0x1_0000 && At(text, pos, HexWord(n))
    ensures pos <= |text| && ParseHex4(text, pos) == Some(n)
  {
    hide HexDigit, HexValue, HexDigits, At, Peek;
    AtBounds(text, pos, HexWord(n));
    FourHexDigits(n);
    var a, b, c, d := n / 4096, n / 256 % 16, n / 16 % 16, n % 16;
    AtChar(text, pos, HexWord(n), 0);
    AtChar(text, pos, HexWord(n), 1);
    AtChar(text, pos, HexWord(n), 2);
    AtChar(text, pos, HexWord(n), 3);
    HexDigitValue(a);
    HexDigitValue(b);
    HexDigitValue(c);
    HexDigitValue(d);
    HexDigitsStep(text, pos, 4, 0, a);
    HexDigitsStep(text, pos + 1, 3, a, b);
    HexDigitsStep(text, pos + 2, 2, a * 16 + b, c);
    HexDigitsStep(text, pos + 3, 1, (a * 16 + b) * 16 + c, d);
    NoHexDigits(text, pos + 4, n);
  }

  lemma NoHexDigits(text: string, pos: nat, value: nat)
    requires pos <= |text|
    ensures HexDigits(text, pos, 0, value) == Some(value)
  {
  }

  lemma UnicodeEscapeScans(text: string, pos: nat, c: char)
    requires c < ' ' && At(text, pos, ['\\', 'u', '0', '0', HexDigit(c as int / 16), HexDigit(c as int % 16)])
    ensures ParseEscape(text, pos) == Some(Piece([c], pos + 6))
  {
    hide HexDigits;
    var part := ['\\', 'u', '0', '0', HexDigit(c as int / 16), HexDigit(c as int % 16)];
    AtChar(text, pos, part, 1);
    assert part == ['\\', 'u'] + HexWord(c as int);
    AtSplit(text, pos, ['\\', 'u'], HexWord(c as int));
    HexWordReads(text, pos + 2, c as int);
    assert EncodeUtf8(c as int) == [c];
  }

  lemma LetterEscapeScans(text: string, pos: nat, c: char)
    requires EscapeLetter(c).Some? && EscapeLetter(c) != Some('u')
    requires At(text, pos, ['\\', EscapeLetter(c).value])
    ensures ParseEscape(text, pos) == Some(Piece([c], pos + 2))
  {
    AtChar(text, pos, ['\\', EscapeLetter(c).value], 0);
    AtChar(text, pos, ['\\', EscapeLetter(c).value], 1);
    assert Unescape(EscapeLetter(c).value) == Some(c);
  }

  /** Scanning the written form of one character appends that character. */
  lemma EscapedCharScans(text: string, pos: nat, c: char, acc: string)
    requires At(text, pos, EscapeChar(c))
    ensures ScanString(text, pos, acc) == ScanString(text, pos + |EscapeChar(c)|, acc + [c])
  {
    hide ParseEscape;
    AtChar(text, pos, EscapeChar(c), 0);
    if EscapeLetter(c).Some? {
      if EscapeLetter(c) == Some('u') {
        UnicodeEscapeScans(text, pos, c);
      } else {
        LetterEscapeScans(text, pos, c);
      }
    }
  }

  lemma QuoteScans(text: string, pos: nat, acc: string)
    requires At(text, pos, "\"")
    ensures ScanString(text, pos, acc) == Some(Piece(acc, pos + 1))
  {
    AtChar(text, pos, "\"", 0);
  }

  lemma {:induction false} StringScans(text: string, pos: nat, s: string, acc: string)
    requires At(text, pos, EscapeText(s) + "\"")
    ensures ScanString(text, pos, acc) == Some(Piece(acc + s, pos + |EscapeText(s)| + 1))
    decreases |s|
  {
    hide EscapeChar, ScanString, At;
    if s == "" {
      assert EscapeText(s) + "\"" == "\"";
      QuoteScans(text, pos, acc);
      assert acc + s == acc;
    } else {
      var first := EscapeChar(s[0]);
      assert EscapeText(s) + "\"" == first + (EscapeText(s[1..]) + "\"");
      AtSplit(text, pos, first, EscapeText(s[1..]) + "\"");
      EscapedCharScans(text, pos, s[0], acc);
      StringScans(text, pos + |first|, s[1..], acc + [s[0]]);
      assert (acc + [s[0]]) + s[1..] == acc + s;
    }
  }

  /** The parser reads a written string back, whatever characters it has. */
  lemma StringTokenParses(src: Source, pos: nat, s: string, events: seq<Event>, isKey: bool)
    requires At(src.text, pos, RenderString(s))
    ensures Peek(src.text, pos) == '"'
    ensures ParseString(src, pos, events, isKey)
         == Send(src, pos + |RenderString(s)|, events, if isKey then Key(s) else String(s))
  {
    assert RenderString(s) == "\"" + (EscapeText(s) + "\"");
    AtSplit(src.text, pos, "\"", EscapeText(s) + "\"");
    AtChar(src.text, pos, "\"", 0);
    StringScans(src.text, pos + 1, s, "");
    assert "" + s == s;
  }

  // ----- numbers ----------------------------------------------------------

  ghost predicate AllDigits(s: string)
  {
    forall c <- s :: IsDigit(c)
  }

  /** The number a digit string extends value to. */
  function Fold(value: nat, s: string): nat
    requires AllDigits(s)
    decreases |s|
  {
    if s == "" then value else Fold(value * 10 + DigitValue(s[0]), s[1..])
  }

  lemma {:induction false} FoldGrows(value: nat, s: string)
    requires AllDigits(s)
    ensures Fold(value, s) >= value
    ensures s != "" ==> Fold(value, s) >= value * 10 + DigitValue(s[0])
    decreases |s|
  {
    if s != "" {
      FoldGrows(value * 10 + DigitValue(s[0]), s[1..]);
    }
  }

  lemma {:induction false} FoldLast(value: nat, s: string, c: char)
    requires AllDigits(s) && IsDigit(c)
    ensures Fold(value, s + [c]) == Fold(value, s) * 10 + DigitValue(c)
    decreases |s|
  {
    if s == "" {
      assert s + [c] == [c];
      assert Fold(value * 10 + DigitValue(c), []) == value * 10 + DigitValue(c);
    } else {
      assert (s + [c])[1..] == s[1..] + [c];
      FoldLast(value * 10 + DigitValue(s[0]), s[1..], c);
    }
  }

  /** A numeral is made of digits, has no leading zero, and folds back to its number. */
  lemma {:induction false} NumeralFolds(n: nat)
    ensures AllDigits(Itoa.Decimal(n)) && Fold(0, Itoa.Decimal(n)) == n
    ensures Itoa.Decimal(n)[0] == '0' <==> n == 0
    decreases n
  {
    if n < 10 {
      assert Fold(n, []) == n;
    } else {
      NumeralFolds(n / 10);
      FoldLast(0, Itoa.Decimal(n / 10), Itoa.Digit(n % 10));
    }
  }

  lemma FirstDigit(text: string, pos: nat, s: string)
    requires At(text, pos, s) && s != ""
    ensures Peek(text, pos) == s[0] && At(text, pos + 1, s[1..])
  {
    AtChar(text, pos, s, 0);
    assert s == [s[0]] + s[1..];
    AtSplit(text, pos, [s[0]], s[1..]);
  }

  /** Digits worth no more than the bound are all taken. */
  lemma {:induction false} DigitsFit(text: string, pos: nat, s: string, value: nat, limit: nat, last: nat)
    requires At(text, pos, s) && AllDigits(s) && last <= 9
    requires !IsDigit(Peek(text, pos + |s|))
    requires Fold(value, s) <= 10 * limit + last
    ensures pos <= |text|
    ensures ScanDigits(text, pos, value, limit, last) == Digits(Fold(value, s), pos + |s|, false)
    decreases |s|
  {
    hide At;
    FoldGrows(value, s);
    AtBounds(text, pos, s);
    if s != "" {
      FirstDigit(text, pos, s);
      DigitsFit(text, pos + 1, s[1..], value * 10 + DigitValue(s[0]), limit, last);
    }
  }

  /** Past the bound the scan stops at a digit, with the rest still to fold. */
  lemma {:induction false} DigitsOverflow(text: string, pos: nat, s: string, value: nat, limit: nat, last: nat)
    requires At(text, pos, s) && AllDigits(s) && last <= 9
    requires value <= 10 * limit + last < Fold(value, s)
    ensures pos <= |text|
    ensures var d := ScanDigits(text, pos, value, limit, last);
            && d.tooBig && d.next < pos + |s|
            && At(text, d.next, s[d.next - pos..]) && Fold(d.value, s[d.next - pos..]) == Fold(value, s)
    decreases |s|
  {
    assert Fold(value, "") == value;
    FirstDigit(text, pos, s);
    if value >= limit && (value != limit || DigitValue(s[0]) > last) {
      assert s[0..] == s;
    } else {
      var next := value * 10 + DigitValue(s[0]);
      DigitsOverflow(text, pos + 1, s[1..], next, limit, last);
      var d := ScanDigits(text, pos + 1, next, limit, last);
      assert s[1..][d.next - (pos + 1)..] == s[d.next - pos..];
    }
  }

  const MAX_UINT32 := 0xFFFF_FFFF
  const MAX_UINT64 := 0xFFFF_FFFF_FFFF_FFFF
  const MIN_INT32_MAGNITUDE := 0x8000_0000
  const MIN_INT64_MAGNITUDE := 0x8000_0000_0000_0000

  /** Past the narrow bound the scan goes on with the wide one and takes every digit. */
  lemma WideDigits(text: string, pos: nat, s: string, value: nat, limit: nat, last: nat, wide: nat, wideLast: nat)
    requires At(text, pos, s) && AllDigits(s) && last <= 9 && wideLast <= 9
    requires !IsDigit(Peek(text, pos + |s|))
    requires value <= 10 * limit + last < Fold(value, s) <= 10 * wide + wideLast
    ensures pos <= |text|
    ensures var d := ScanDigits(text, pos, value, limit, last);
            d.tooBig && ScanDigits(text, d.next, d.value, wide, wideLast) == Digits(Fold(value, s), pos + |s|, false)
  {
    hide At, Fold, ScanDigits;
    DigitsOverflow(text, pos, s, value, limit, last);
    var d := ScanDigits(text, pos, value, limit, last);
    DigitsFit(text, d.next, s[d.next - pos..], d.value, wide, wideLast);
  }

  /** The integer part of a numeral, with the width it needs. */
  lemma NumeralParses(text: string, pos: nat, n: nat, minus: bool)
    requires At(text, pos, Itoa.Decimal(n)) && !IsDigit(Peek(text, pos + |Itoa.Decimal(n)|))
    requires n <= if minus then MIN_INT64_MAGNITUDE else MAX_UINT64
    ensures pos <= |text|
    ensures var wide := n > if minus then MIN_INT32_MAGNITUDE else MAX_UINT32;
            ParseIntegerPart(text, pos, minus) == Some(IntegerPart(n, pos + |Itoa.Decimal(n)|, wide, false))
  {
    hide At, Fold, ScanDigits;
    var s := Itoa.Decimal(n);
    NumeralFolds(n);
    FirstDigit(text, pos, s);
    AtBounds(text, pos, s);
    if n == 0 {
      assert s == "0";
    } else {
      var first, rest := DigitValue(s[0]), s[1..];
      assert AllDigits(rest);
      FoldUnfolds(s);
      if n <= (if minus then MIN_INT32_MAGNITUDE else MAX_UINT32) {
        DigitsFit(text, pos + 1, rest, first, if minus then 214748364 else 429496729, if minus then 8 else 5);
      } else if minus {
        WideDigits(text, pos + 1, rest, first, 214748364, 8, 0x0CCC_CCCC_CCCC_CCCC, 8);
      } else {
        WideDigits(text, pos + 1, rest, first, 429496729, 5, 0x1999_9999_9999_9999, 5);
      }
    }
  }

  lemma FoldUnfolds(s: string)
    requires s != "" && AllDigits(s)
    ensures Fold(DigitValue(s[0]), s[1..]) == Fold(0, s)
  {
  }

  /** What may follow a number without becoming part of it. */
  predicate EndsNumber(c: char)
  {
    !IsDigit(c) && c !in {'.', 'e', 'E'}
  }

  lemma IntegerParses(src: Source, pos: nat, n: int, events: seq<Event>)
    requires At(src.text, pos, Itoa.Integer(n)) && EndsNumber(Peek(src.text, pos + |Itoa.Integer(n)|))
    requires -MIN_INT64_MAGNITUDE <= n <= MAX_UINT64
    ensures pos <= |src.text|
    ensures ParseNumber(src, pos, events)
         == Send(src, pos + |Itoa.Integer(n)|, events, NumberEvent(n, FromText))
    ensures Peek(src.text, pos) == '-' || IsDigit(Peek(src.text, pos))
  {
    hide Itoa.Decimal, ParseIntegerPart;
    if n < 0 {
      AtSplit(src.text, pos, "-", Itoa.Decimal(-n));
      AtChar(src.text, pos, "-", 0);
      NumeralParses(src.text, pos + 1, -n, true);
    } else {
      NumeralFolds(n);
      AtChar(src.text, pos, Itoa.Decimal(n), 0);
      NumeralParses(src.text, pos, n, false);
    }
  }
}

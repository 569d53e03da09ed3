/** JSON Pointers in their string form, RFC 6901 sections 3 and 4
    (utils/rapidjson/pointer.h). */
module JsonPointer {
  import opened JsonText
  import opened JsonScalars
  import opened Wrappers
  import Itoa
  import opened NumberTheory

  const INVALID_INDEX := 0xFFFF_FFFF

  datatype ErrorCode = TokenMustBeginWithSolidus | InvalidEscape

  /** The token names, or an error and where it was found. */
  datatype Result = Parsed(names: seq<string>) | Failed(code: ErrorCode, offset: nat)

  // ----- string form ------------------------------------------------------

  function EscapedChar(c: char): (s: string)
    ensures s != ""
  {
    if c == '~' then "~0" else if c == '/' then "~1" else [c]
  }

  function Escaped(name: string): string
  {
    if name == "" then "" else EscapedChar(name[0]) + Escaped(name[1..])
  }

  function Form(names: seq<string>): string
  {
    if names == [] then "" else "/" + Escaped(names[0]) + Form(names[1..])
  }

  /** Writes one name with its escapes. */
  method PutName(name: string) returns (os: string)
    ensures os == Escaped(name)
  {
    hide Escaped;
    os := "";
    assert name[0..] == name;
    for j := 0 to |name|
      invariant os + Escaped(name[j..]) == Escaped(name)
    {
      FirstEscaped(name, j);
      ghost var done, rest := os, Escaped(name[j + 1..]);
      var c := name[j];
      if c == '~' {
        os := os + "~";
        os := os + "0";
      } else if c == '/' {
        os := os + "~";
        os := os + "1";
      } else {
        os := os + [c];
      }
      assert os == done + EscapedChar(c);
      assert done + (EscapedChar(c) + rest) == os + rest;
    }
    assert name[|name|..] == "";
    NothingEscaped();
  }

  lemma FirstEscaped(name: string, j: nat)
    requires j < |name|
    ensures Escaped(name[j..]) == EscapedChar(name[j]) + Escaped(name[j + 1..])
  {
    assert name[j..][1..] == name[j + 1..];
  }

  lemma NothingEscaped()
    ensures Escaped("") == ""
  {
  }

  /** Writes the string form. */
  method Stringify(names: seq<string>) returns (os: string)
    ensures os == Form(names)
  {
    hide Escaped;
    os := "";
    assert names[0..] == names;
    for t := 0 to |names|
      invariant os + Form(names[t..]) == Form(names)
    {
      assert names[t..][1..] == names[t + 1..];
      ghost var done, rest := os, Form(names[t + 1..]);
      var name := PutName(names[t]);
      os := os + "/";
      os := os + name;
      assert done + ("/" + Escaped(names[t]) + rest) == os + rest;
    }
    assert names[|names|..] == [];
  }

  // ----- parsing ----------------------------------------------------------

  datatype Scan = Name(name: string, next: nat) | Bad(at: nat)

  /** A name up to the next solidus, with its escapes undone. */
  function ScanName(source: string, i: nat, name: string): (r: Scan)
    requires i <= |source|
    ensures r.Name? ==> i <= r.next <= |source| && (r.next < |source| ==> source[r.next] == '/')
    ensures r.Name? ==> |r.name| - |name| <= r.next - i
    decreases |source| - i
  {
    if i == |source| || source[i] == '/' then Name(name, i)
    else if source[i] != '~' then ScanName(source, i + 1, name + [source[i]])
    else if i + 1 == |source| then Bad(i + 1)
    else if source[i + 1] == '0' then ScanName(source, i + 2, name + ['~'])
    else if source[i + 1] == '1' then ScanName(source, i + 2, name + ['/'])
    else Bad(i + 1)
  }

  function ScanTokens(source: string, i: nat, names: seq<string>): Result
    requires i <= |source| && (i < |source| ==> source[i] == '/')
    decreases |source| - i
  {
    if i == |source| then Parsed(names)
    else match ScanName(source, i + 1, "")
      case Name(name, next) => ScanTokens(source, next, names + [name])
      case Bad(at) => Failed(InvalidEscape, at)
  }

  function ParseForm(source: string): Result
  {
    if source != "" && source[0] != '/' then Failed(TokenMustBeginWithSolidus, 0) else ScanTokens(source, 0, [])
  }

  // ----- round trips ------------------------------------------------------

  /** A scan from the middle of a text, when a known rest follows. */
  lemma {:induction false} EscapedScans(pre: string, name: string, rest: string, done: string)
    requires rest != "" ==> rest[0] == '/'
    ensures ScanName(pre + Escaped(name) + rest, |pre|, done) == Name(done + name, |pre| + |Escaped(name)|)
    decreases |name|
  {
    var source := pre + Escaped(name) + rest;
    if name == "" {
      assert done + name == done;
      assert rest != "" ==> source[|pre|] == rest[0];
    } else {
      var first := EscapedChar(name[0]);
      EscapedScans(pre + first, name[1..], rest, done + [name[0]]);
      assert source == (pre + first) + Escaped(name[1..]) + rest;
      assert source[|pre|] == first[0];
      if |first| == 2 {
        assert source[|pre| + 1] == first[1];
      }
      assert (done + [name[0]]) + name[1..] == done + name;
    }
  }

  lemma {:induction false} FormScans(pre: string, names: seq<string>, done: seq<string>)
    ensures var source := pre + Form(names);
            (|pre| < |source| ==> source[|pre|] == '/') && ScanTokens(source, |pre|, done) == Parsed(done + names)
    decreases |names|
  {
    hide Escaped, ScanName;
    var source := pre + Form(names);
    if names == [] {
      assert done + names == done;
    } else {
      var rest := Form(names[1..]);
      EscapedScans(pre + "/", names[0], rest, "");
      assert source == (pre + "/") + Escaped(names[0]) + rest;
      assert "" + names[0] == names[0];
      FormScans(pre + "/" + Escaped(names[0]), names[1..], done + [names[0]]);
      assert source == (pre + "/" + Escaped(names[0])) + rest;
      assert (done + [names[0]]) + names[1..] == done + names;
    }
  }

  /** Parsing the string form of any names gives those names. */
  lemma FormReturns(names: seq<string>)
    ensures ParseForm(Form(names)) == Parsed(names)
  {
    hide ScanTokens;
    FormScans("", names, []);
    assert "" + Form(names) == Form(names);
    assert [] + names == names;
  }

  lemma {:induction false} ScannedIsEscaped(source: string, i: nat, done: string)
    requires i <= |source| && ScanName(source, i, done).Name?
    ensures var r := ScanName(source, i, done);
            done <= r.name && source[i..r.next] == Escaped(r.name[|done|..])
    decreases |source| - i
  {
    hide ScanName, Escaped;
    var r := ScanName(source, i, done);
    if i < |source| && source[i] != '/' {
      ScanOne(source, i, done);
      var c, width := if source[i] != '~' then source[i] else if source[i + 1] == '0' then '~' else '/',
                      if source[i] != '~' then 1 else 2;
      ScannedIsEscaped(source, i + width, done + [c]);
      SplitEscaped(source, i, width, r.next, c, r.name, done);
    } else {
      ScanDone(source, i, done);
      NothingEscaped();
      assert done[|done|..] == "" && source[i..i] == "";
    }
  }

  lemma SplitEscaped(source: string, i: nat, width: nat, next: nat, c: char, name: string, done: string)
    requires i + width <= next <= |source| && source[i..i + width] == EscapedChar(c)
    requires done + [c] <= name && source[i + width..next] == Escaped(name[|done| + 1..])
    ensures done <= name && source[i..next] == Escaped(name[|done|..])
  {
    hide Escaped;
    assert name[|done|] == c;
    FirstEscaped(name, |done|);
    assert source[i..next] == source[i..i + width] + source[i + width..next];
  }

  lemma {:induction false} TokensAreForm(source: string, i: nat, done: seq<string>)
    requires i <= |source| && (i < |source| ==> source[i] == '/') && ScanTokens(source, i, done).Parsed?
    ensures var names := ScanTokens(source, i, done).names;
            done <= names && source[i..] == Form(names[|done|..])
    decreases |source| - i
  {
    hide Escaped, ScanName;
    var names := ScanTokens(source, i, done).names;
    if i < |source| {
      var r := ScanName(source, i + 1, "");
      ScannedIsEscaped(source, i + 1, "");
      TokensAreForm(source, r.next, done + [r.name]);
      assert names[|done|] == r.name && names[|done|..][1..] == names[|done| + 1..];
      assert r.name[0..] == r.name;
      assert source[i..] == "/" + source[i + 1..r.next] + source[r.next..];
    } else {
      assert names[|done|..] == [] && source[i..] == "";
    }
  }

  /** Every text that parses is the string form of its names: there is only one spelling. */
  lemma ParsedIsForm(source: string)
    requires ParseForm(source).Parsed?
    ensures Form(ParseForm(source).names) == source
  {
    hide ScanTokens, Form;
    TokensAreForm(source, 0, []);
    assert source[0..] == source && ParseForm(source).names[0..] == ParseForm(source).names;
  }

  function Solidi(s: string): nat
  {
    if s == "" then 0 else (if s[0] == '/' then 1 else 0) + Solidi(s[1..])
  }

  lemma {:induction false} SolidiAdd(a: string, b: string)
    ensures Solidi(a + b) == Solidi(a) + Solidi(b)
    decreases |a|
  {
    if a == "" {
      assert a + b == b;
    } else {
      assert (a + b)[1..] == a[1..] + b;
      SolidiAdd(a[1..], b);
    }
  }

  lemma {:induction false} NoSolidus(name: string)
    ensures Solidi(Escaped(name)) == 0
    decreases |name|
  {
    if name != "" {
      NoSolidus(name[1..]);
      SolidiAdd(EscapedChar(name[0]), Escaped(name[1..]));
      var e := EscapedChar(name[0]);
      assert e[1..] == "" || e[1..][1..] == "";
    }
  }

  /** The tokens allocated ahead, one for each solidus, are exactly the ones needed. */
  lemma {:induction false} OneTokenEach(names: seq<string>)
    ensures Solidi(Form(names)) == |names|
    decreases |names|
  {
    hide Escaped;
    if names != [] {
      NoSolidus(names[0]);
      OneTokenEach(names[1..]);
      SolidiAdd("/" + Escaped(names[0]), Form(names[1..]));
      SolidiAdd("/", Escaped(names[0]));
      assert Solidi("/") == 1 + Solidi("/"[1..]);
    }
  }

  // ----- array indices ----------------------------------------------------

  /** The value of the digits in 32 bits, or none when a step comes out smaller. */
  function Accumulated(name: string, j: nat, n: nat): nat
    requires j <= |name| && AllDigits(name)
    decreases |name| - j
  {
    if j == |name| then n
    else
      var m := (n * 10 + DigitValue(name[j])) % TWO_32;
      if m < n then INVALID_INDEX else Accumulated(name, j + 1, m)
  }

  /** The index a name stands for: a number without a leading zero. */
  ghost function Index(name: string): nat
  {
    if name == "" || !AllDigits(name) || (|name| > 1 && name[0] == '0') then INVALID_INDEX
    else Accumulated(name, 0, 0)
  }

  lemma {:induction false} AccumulatesExactly(name: string, j: nat, n: nat)
    requires j <= |name| && AllDigits(name) && Fold(n, name[j..]) < TWO_32
    ensures Accumulated(name, j, n) == Fold(n, name[j..])
    decreases |name| - j
  {
    hide Fold, Accumulated;
    FoldGrows(n, name[j..]);
    if j < |name| {
      FirstFold(name, j, n);
      FoldGrows(n * 10 + DigitValue(name[j]), name[j + 1..]);
      OneAccumulated(name, j, n);
      AccumulatesExactly(name, j + 1, n * 10 + DigitValue(name[j]));
    } else {
      assert name[j..] == "";
      FoldOfNothing(n);
      AllAccumulated(name, n);
    }
  }

  /** Numerals below 2^32 are their own index. */
  lemma NumeralIndex(n: nat)
    requires n < TWO_32
    ensures Index(Itoa.Decimal(n)) == n
  {
    var s := Itoa.Decimal(n);
    NumeralShape(n);
    assert s[0..] == s;
    AccumulatesExactly(s, 0, 0);
  }

  lemma NumeralShape(n: nat)
    ensures var s := Itoa.Decimal(n);
            AllDigits(s) && Fold(0, s) == n && !(|s| > 1 && s[0] == '0')
  {
    NumeralFolds(n);
    if n == 0 {
      assert Itoa.Decimal(0) == [Itoa.Digit(0)];
    }
  }

  /** The last step of ten digits sees an overflow exactly when the wrapped value is below a
      tenth of the number. */
  lemma TenDigitOverflow(name: string)
    requires |name| == 10 && AllDigits(name) && name[0] != '0' && Fold(0, name) >= TWO_32
    ensures Index(name) == if Fold(0, name) % TWO_32 < Fold(0, name) / 10 then INVALID_INDEX else Fold(0, name) % TWO_32
  {
    var high, last := name[..9], name[9];
    assert name == high + [last];
    FoldLast(0, high, last);
    NineDigits(high, 0);
    NinthPower();
    assert high[0..] == high;
    NineSteps(name, high, 0, 0);
  }

  lemma NinthPower()
    ensures Itoa.Pow10(9) == 1000000000
  {
    assert Itoa.Pow10(3) == 1000;
    assert Itoa.Pow10(6) == 1000000;
  }

  lemma {:induction false} NineDigits(s: string, n: nat)
    requires AllDigits(s)
    ensures Fold(n, s) < (n + 1) * Itoa.Pow10(|s|)
    decreases |s|
  {
    if s != "" {
      NineDigits(s[1..], n * 10 + DigitValue(s[0]));
      var p := Itoa.Pow10(|s| - 1);
      assert (n * 10 + DigitValue(s[0]) + 1) * p <= (n * 10 + 10) * p;
      assert (n + 1) * (10 * p) == (n * 10 + 10) * p;
    }
  }

  lemma {:induction false} NineSteps(name: string, high: string, j: nat, n: nat)
    requires |name| == 10 && AllDigits(name) && high == name[..9] && j <= 9 && Fold(n, high[j..]) < TWO_32
    ensures Accumulated(name, j, n) == Accumulated(name, 9, Fold(n, high[j..]))
    decreases 9 - j
  {
    hide Fold, Accumulated;
    FoldGrows(n, high[j..]);
    if j < 9 {
      FirstFold(high, j, n);
      OneAccumulated(name, j, n);
      assert high[j] == name[j];
      NineSteps(name, high, j + 1, n * 10 + DigitValue(name[j]));
    } else {
      assert high[9..] == "";
      FoldOfNothing(n);
    }
  }

  lemma AllAccumulated(name: string, n: nat)
    requires AllDigits(name)
    ensures Accumulated(name, |name|, n) == n
  {
  }

  lemma FirstFold(s: string, j: nat, n: nat)
    requires j < |s| && AllDigits(s)
    ensures Fold(n, s[j..]) == Fold(n * 10 + DigitValue(s[j]), s[j + 1..])
  {
    assert s[j..][1..] == s[j + 1..];
  }

  lemma OneAccumulated(name: string, j: nat, n: nat)
    requires j < |name| && AllDigits(name) && n * 10 + DigitValue(name[j]) < TWO_32
    ensures Accumulated(name, j, n) == Accumulated(name, j + 1, n * 10 + DigitValue(name[j]))
  {
  }

  /** At digit j the value, taken modulo 2^32, comes out smaller than before. */
  predicate Drops(name: string, j: nat)
    requires j < |name| && AllDigits(name)
  {
    Fold(0, name[..j + 1]) % TWO_32 < Fold(0, name[..j]) % TWO_32
  }

  ghost predicate DropsFrom(name: string, j: nat)
    requires AllDigits(name)
  {
    exists k :: j <= k < |name| && Drops(name, k)
  }

  lemma {:induction false} AccumulatesWrapping(name: string, j: nat)
    requires j <= |name| && AllDigits(name)
    ensures Accumulated(name, j, Fold(0, name[..j]) % TWO_32)
         == if DropsFrom(name, j) then INVALID_INDEX else Fold(0, name) % TWO_32
    decreases |name| - j
  {
    hide Fold, Accumulated, DropsFrom;
    if j == |name| {
      assert name[..j] == name;
      NothingDrops(name);
      AllAccumulated(name, Fold(0, name) % TWO_32);
    } else {
      WrappedStep(name, j);
      DropsHere(name, j);
      if !Drops(name, j) {
        AccumulatesWrapping(name, j + 1);
      }
    }
  }

  lemma NothingDrops(name: string)
    requires AllDigits(name)
    ensures !DropsFrom(name, |name|)
  {
  }

  lemma DropsHere(name: string, j: nat)
    requires j < |name| && AllDigits(name)
    ensures DropsFrom(name, j) <==> Drops(name, j) || DropsFrom(name, j + 1)
  {
    hide Drops;
  }

  lemma WrappedStep(name: string, j: nat)
    requires j < |name| && AllDigits(name)
    ensures Accumulated(name, j, Fold(0, name[..j]) % TWO_32)
         == if Drops(name, j) then INVALID_INDEX else Accumulated(name, j + 1, Fold(0, name[..j + 1]) % TWO_32)
  {
    hide Fold;
    var before, d := Fold(0, name[..j]), DigitValue(name[j]);
    assert name[..j + 1] == name[..j] + [name[j]];
    FoldLast(0, name[..j], name[j]);
    var q, n := before / TWO_32, before % TWO_32;
    assert before * 10 + d == (n * 10 + d) + (q * 10) * TWO_32;
    ModAddMultiple(n * 10 + d, q * 10, TWO_32);
  }

  /** What the documentation promises for a numeral. */
  function PromisedIndex(name: string): nat
    requires AllDigits(name)
  {
    if Fold(0, name) < TWO_32 then Fold(0, name) else INVALID_INDEX
  }

  /** A numeral of any length gets the promised index exactly when it is below 2^32, or its
      value modulo 2^32 drops at some digit, or happens to end at the invalid index. */
  lemma PromiseKeptExactly(name: string)
    requires name != "" && AllDigits(name) && (|name| > 1 ==> name[0] != '0')
    ensures Index(name) == PromisedIndex(name) <==>
            Fold(0, name) < TWO_32 || DropsFrom(name, 0) || Fold(0, name) % TWO_32 == INVALID_INDEX
  {
    hide Fold, Accumulated, DropsFrom;
    assert name[..0] == "" && name[0..] == name;
    FoldOfNothing(0);
    AccumulatesWrapping(name, 0);
    if Fold(0, name) < TWO_32 {
      AccumulatesExactly(name, 0, 0);
    }
  }

  /** The documented treatment of large indices fails for this one. */
  lemma OverflowMissed()
    ensures Index("5000000000") == 705032704
  {
    var s := "5000000000";
    assert s[9..] == "0" && s[8..] == "00" && s[7..] == "000";
    FiveThousandMillion();
    TenDigitOverflow(s);
  }

  lemma FoldOfNothing(n: nat)
    ensures Fold(n, "") == n
  {
  }

  lemma FiveThousandMillion()
    ensures AllDigits("5000000000") && Fold(0, "5000000000") == 5000000000
  {
    hide Fold;
    var s := "5000000000";
    var k, p := 1, 5;
    assert Fold(0, "") == 0 by { FoldOfNothing(0); }
    FoldLast(0, "", '5');
    assert s[..1] == "" + ['5'];
    while k < 10
      invariant 1 <= k <= 10 && p == 5 * Itoa.Pow10(k - 1)
      invariant Fold(0, s[..k]) == p
    {
      FoldLast(0, s[..k], '0');
      assert s[..k + 1] == s[..k] + ['0'];
      k, p := k + 1, p * 10;
    }
    assert s[..10] == s;
    NinthPower();
  }

  // ----- the parser with its buffers --------------------------------------

  /** A name in the name buffer, ended by a zero character. */
  datatype Token = Token(at: nat, length: nat, index: nat)

  ghost predicate Holds(buffer: string, token: Token, name: string)
  {
    && token.length == |name| && token.at + token.length < |buffer|
    && buffer[token.at..token.at + token.length] == name && buffer[token.at + token.length] == '\0'
    && token.index == Index(name)
  }

  /** The tokens hold the names, below a position in the buffer. */
  ghost predicate AllHold(buffer: string, tokens: seq<Token>, names: seq<string>, end: nat)
  {
    && |tokens| == |names| && end <= |buffer|
    && forall k :: 0 <= k < |tokens| ==> tokens[k].at + tokens[k].length < end && Holds(buffer, tokens[k], names[k])
  }

  lemma SliceBelow(s: string, t: string, start: nat, a: nat, b: nat)
    requires a <= b < start <= |s| == |t| && s[..start] == t[..start]
    ensures s[a..b] == t[a..b] && s[b] == t[b]
  {
    forall k | 0 <= k < start
      ensures s[k] == t[k]
    {
      assert s[..start][k] == t[..start][k];
    }
  }

  lemma OneMoreToken(before: string, after: string, tokens: seq<Token>, names: seq<string>, start: nat, token: Token, name: string)
    requires AllHold(before, tokens, names, start) && |after| == |before| && after[..start] == before[..start]
    requires token.at == start && Holds(after, token, name)
    ensures AllHold(after, tokens + [token], names + [name], start + token.length + 1)
  {
    hide Index;
    forall k | 0 <= k < |tokens|
      ensures Holds(after, tokens[k], names[k])
    {
      assert Holds(before, tokens[k], names[k]);
      var t := tokens[k];
      SliceBelow(before, after, start, t.at, t.at + t.length);
    }
  }

  method CountSolidi(source: string) returns (tokenCount: nat)
    ensures tokenCount == Solidi(source)
  {
    tokenCount := 0;
    assert source[0..] == source;
    for s := 0 to |source|
      invariant tokenCount + Solidi(source[s..]) == Solidi(source)
    {
      assert source[s..][1..] == source[s + 1..];
      if source[s] == '/' {
        tokenCount := tokenCount + 1;
      }
    }
    assert source[|source|..] == "";
  }

  /** Copies one name into the buffer. */
  method CopyName(source: string, start: nat, nameBuffer: array<char>, at: nat)
    returns (code: Option<ErrorCode>, i: nat, name: nat, isNumber: bool)
    requires at < start <= |source| == nameBuffer.Length
    modifies nameBuffer
    ensures nameBuffer[..at] == old(nameBuffer[..at])
    ensures at <= name < i <= |source| && start <= i
    ensures code.None? ==> ScanName(source, start, "") == Name(nameBuffer[at..name], i)
    ensures code.None? ==> (isNumber <==> AllDigits(nameBuffer[at..name]))
    ensures code.Some? ==> code.value == InvalidEscape && ScanName(source, start, "") == Bad(i)
  {
    hide ScanName;
    i, name, isNumber, code := start, at, true, None;
    assert nameBuffer[at..at] == "";
    while i < |source| && source[i] != '/'
      invariant at <= name < i <= |source| && start <= i
      invariant nameBuffer[..at] == old(nameBuffer[..at])
      invariant ScanName(source, start, "") == ScanName(source, i, nameBuffer[at..name])
      invariant isNumber <==> AllDigits(nameBuffer[at..name])
    {
      ghost var before := nameBuffer[at..name];
      var c := source[i];
      ScanOne(source, i, before);
      i := i + 1;
      if c == '~' {
        if i < |source| {
          c := source[i];
          if c == '0' {
            c := '~';
          } else if c == '1' {
            c := '/';
          } else {
            return Some(InvalidEscape), i, name, isNumber;
          }
          i := i + 1;
        } else {
          return Some(InvalidEscape), i, name, isNumber;
        }
      }
      if c < '0' || c > '9' {
        isNumber := false;
      }
      nameBuffer[name] := c;
      name := name + 1;
      assert nameBuffer[at..name] == before + [c];
      OneMoreDigit(before, c);
    }
    ScanDone(source, i, nameBuffer[at..name]);
  }

  lemma OneMoreDigit(s: string, c: char)
    ensures AllDigits(s + [c]) <==> AllDigits(s) && IsDigit(c)
  {
    forall d | d in s
      ensures d in s + [c]
    {
      var i :| 0 <= i < |s| && s[i] == d;
      assert (s + [c])[i] == d;
    }
    assert (s + [c])[|s|] == c;
  }

  lemma ScanOne(source: string, i: nat, name: string)
    requires i < |source| && source[i] != '/'
    ensures source[i] != '~' ==> ScanName(source, i, name) == ScanName(source, i + 1, name + [source[i]])
    ensures source[i] == '~' && (i + 1 == |source| || source[i + 1] !in {'0', '1'}) ==> ScanName(source, i, name) == Bad(i + 1)
    ensures source[i] == '~' && i + 1 < |source| && source[i + 1] == '0' ==>
              ScanName(source, i, name) == ScanName(source, i + 2, name + ['~'])
    ensures source[i] == '~' && i + 1 < |source| && source[i + 1] == '1' ==>
              ScanName(source, i, name) == ScanName(source, i + 2, name + ['/'])
  {
  }

  lemma ScanDone(source: string, i: nat, name: string)
    requires i <= |source| && (i == |source| || source[i] == '/')
    ensures ScanName(source, i, name) == Name(name, i)
  {
  }

  method IndexOf(name: string, allDigits: bool) returns (index: nat)
    requires allDigits <==> AllDigits(name)
    ensures index == Index(name)
  {
    var isNumber := allDigits;
    if |name| == 0 {
      isNumber := false;
    }
    if isNumber && |name| > 1 && name[0] == '0' {
      isNumber := false;
    }
    var n := 0;
    if isNumber {
      for j := 0 to |name|
        invariant Index(name) == Accumulated(name, j, n)
      {
        var m := (n * 10 + DigitValue(name[j])) % TWO_32;
        if m < n {
          return INVALID_INDEX;
        }
        n := m;
      }
    }
    index := if isNumber then n else INVALID_INDEX;
  }

  /** One token: its name, the zero character after it, and its index. */
  method TakeToken(source: string, slash: nat, nameBuffer: array<char>, name: nat)
    returns (code: Option<ErrorCode>, i: nat, token: Token, text: string)
    requires name <= slash < |source| == nameBuffer.Length
    modifies nameBuffer
    ensures nameBuffer[..name] == old(nameBuffer[..name]) && slash < i <= |source|
    ensures code.None? ==> ScanName(source, slash + 1, "") == Name(text, i)
    ensures code.None? ==> token.at == name && token.at + token.length < i && Holds(nameBuffer[..], token, text)
    ensures code.Some? ==> code.value == InvalidEscape && ScanName(source, slash + 1, "") == Bad(i)
  {
    hide ScanName, Index;
    var end, isNumber;
    code, i, end, isNumber := CopyName(source, slash + 1, nameBuffer, name);
    token, text := Token(0, 0, 0), "";
    if code.None? {
      text := nameBuffer[name..end];
      nameBuffer[end] := '\0';
      assert nameBuffer[..][name..end] == text;
      var index := IndexOf(text, isNumber);
      token := Token(name, end - name, index);
      assert nameBuffer[..][token.at..token.at + token.length] == text;
    }
  }

  /** Parses a pointer that is not a fragment. The buffers allocated ahead are never too small. */
  method Parse(source: string) returns (result: Result, nameBuffer: array<char>, tokens: array<Token>, count: nat)
    requires source != "" ==> source[0] != '#'
    ensures result == ParseForm(source)
    ensures result.Parsed? ==> count == |result.names| == tokens.Length
    ensures result.Parsed? ==> forall k :: 0 <= k < count ==> Holds(nameBuffer[..], tokens[k], result.names[k])
  {
    hide ScanName, ScanTokens, Index, Form, Escaped, Solidi, AllHold;
    var tokenCount := CountSolidi(source);
    tokens := new Token[tokenCount](_ => Token(0, 0, 0));
    nameBuffer := new char[|source|](_ => '\0');
    count := 0;
    var i: nat, name: nat := 0, 0;
    if i != |source| && source[i] != '/' {
      return Failed(TokenMustBeginWithSolidus, i), nameBuffer, tokens, 0;
    }
    var names: seq<string> := [];
    assert source[0..] == source && tokens[..0] == [];
    NoneHeld(nameBuffer[..]);
    while i < |source|
      invariant name <= i <= |source| && (i < |source| ==> source[i] == '/')
      invariant count == |names| && count + Solidi(source[i..]) == tokenCount
      invariant ParseForm(source) == ScanTokens(source, i, names)
      invariant fresh(nameBuffer) && fresh(tokens)
      invariant count <= tokenCount && AllHold(nameBuffer[..], tokens[..count], names, name)
    {
      ghost var slash, before, held := i, nameBuffer[..], tokens[..count];
      SolidusAhead(source, slash, names);
      var code, next, token, text := TakeToken(source, i, nameBuffer, name);
      i := next;
      if code.Some? {
        return Failed(code.value, i), nameBuffer, tokens, 0;
      }
      SolidiInName(source, slash + 1, i);
      OneMoreToken(before, nameBuffer[..], held, names, name, token, text);
      tokens[count] := token;
      assert tokens[..count + 1] == held + [tokens[count]];
      count := count + 1;
      name := name + token.length + 1;
      names := names + [text];
    }
    Unheld(nameBuffer[..], tokens[..count], names, name);
    assert source[i..] == "";
    NoTokensLeft(source, names);
    result := Parsed(names);
  }

  lemma NoneHeld(buffer: string)
    ensures AllHold(buffer, [], [], 0)
  {
  }

  lemma Unheld(buffer: string, tokens: seq<Token>, names: seq<string>, end: nat)
    requires AllHold(buffer, tokens, names, end)
    ensures |tokens| == |names| && forall k :: 0 <= k < |tokens| ==> Holds(buffer, tokens[k], names[k])
  {
  }

  lemma SolidusAhead(source: string, i: nat, names: seq<string>)
    requires i < |source| && source[i] == '/'
    ensures Solidi(source[i..]) == 1 + Solidi(source[i + 1..])
    ensures var r := ScanName(source, i + 1, "");
            ScanTokens(source, i, names) == if r.Name? then ScanTokens(source, r.next, names + [r.name])
                                            else Failed(InvalidEscape, r.at)
  {
    hide ScanName;
    assert source[i..][1..] == source[i + 1..];
  }

  lemma NoTokensLeft(source: string, names: seq<string>)
    ensures ScanTokens(source, |source|, names) == Parsed(names) && Solidi("") == 0
  {
  }

  /** A scanned name has no solidus in it. */
  lemma SolidiInName(source: string, from: nat, to: nat)
    requires from <= to <= |source| && ScanName(source, from, "").Name? && ScanName(source, from, "").next == to
    ensures Solidi(source[from..]) == Solidi(source[to..])
  {
    var r := ScanName(source, from, "");
    ScannedIsEscaped(source, from, "");
    assert r.name[0..] == r.name;
    NoSolidus(r.name);
    assert source[from..] == source[from..to] + source[to..];
    SolidiAdd(source[from..to], source[to..]);
  }
}

/** The character stream, the events and the scalar tokens shared by both JSON parsers
    (utils/rapidjson/reader.h). One char stands for one byte of the text. */
module JsonText {
  import opened Wrappers
  import opened Bytes
  import Encodings

  datatype Event =
    | Null
    | Bool(b: bool)
    | Int(n: int)
    | Uint(n: int)
    | Int64(n: int)
    | Uint64(n: int)
    | Double(lexeme: string)
    | String(s: string)
    | Key(s: string)
    | StartObject
    | EndObject(count: nat)
    | StartArray
    | EndArray(count: nat)

  /** What one parse depends on: the text, where a floating-point literal that starts at a
      position ends (None when it is malformed or out of range), and whether the handler
      goes on after a history of events. */
  datatype Source = Source(text: string, doubleEnd: nat -> Option<nat>, accepts: seq<Event> -> bool)

  /** The parser's position and the events sent so far, or the events sent before it gave up. */
  datatype Outcome = Accepted(pos: nat, events: seq<Event>) | Rejected(events: seq<Event>)

  /** A text ends at its first NUL. */
  function Peek(text: string, pos: nat): char
  {
    if pos < |text| then text[pos] else '\0'
  }

  predicate IsWhitespace(c: char)
  {
    c == ' ' || c == '\n' || c == '\r' || c == '\t'
  }

  predicate IsDigit(c: char)
  {
    '0' <= c <= '9'
  }

  function DigitValue(c: char): (d: nat)
    requires IsDigit(c)
    ensures d < 10
  {
    c as int - '0' as int
  }

  function SkipWhitespace(text: string, pos: nat): (end: nat)
    requires pos <= |text|
    ensures pos <= end <= |text|
    ensures !IsWhitespace(Peek(text, end))
    decreases |text| - pos
  {
    if IsWhitespace(Peek(text, pos)) then SkipWhitespace(text, pos + 1) else pos
  }

  function Send(src: Source, pos: nat, events: seq<Event>, event: Event): (o: Outcome)
    ensures o.events == events + [event]
    ensures o.Accepted? ==> o.pos == pos
  {
    if src.accepts(events + [event]) then Accepted(pos, events + [event]) else Rejected(events + [event])
  }

  // ----- the words null, true and false -----------------------------------

  predicate WordAt(text: string, pos: nat, word: string)
  {
    pos + |word| <= |text| && text[pos..pos + |word|] == word
  }

  function ParseWord(src: Source, pos: nat, events: seq<Event>, word: string, event: Event): (o: Outcome)
    requires word != ""
    ensures o.Accepted? ==> pos < o.pos <= |src.text|
  {
    if WordAt(src.text, pos, word) then Send(src, pos + |word|, events, event) else Rejected(events)
  }

  // ----- strings ----------------------------------------------------------

  /** The character a one-letter escape stands for. */
  function Unescape(e: char): Option<char>
  {
    match e
    case '"' => Some('"')
    case '/' => Some('/')
    case '\\' => Some('\\')
    case 'b' => Some(8 as char)
    case 'f' => Some(12 as char)
    case 'n' => Some('\n')
    case 'r' => Some('\r')
    case 't' => Some('\t')
    case _ => None
  }

  function HexValue(c: char): (v: Option<nat>)
    ensures v.Some? ==> v.value < 16
  {
    if '0' <= c <= '9' then Some(c as int - '0' as int)
    else if 'A' <= c <= 'F' then Some(c as int - 'A' as int + 10)
    else if 'a' <= c <= 'f' then Some(c as int - 'a' as int + 10)
    else None
  }

  /** Reads n more hexadecimal digits after the ones worth value. */
  function HexDigits(text: string, pos: nat, n: nat, value: nat): (v: Option<nat>)
    requires pos <= |text|
    ensures v.Some? ==> pos + n <= |text|
    decreases n
  {
    if n == 0 then Some(value)
    else
      var d := HexValue(Peek(text, pos));
      if d.None? then None else HexDigits(text, pos + 1, n - 1, value * 16 + d.value)
  }

  function ParseHex4(text: string, pos: nat): (v: Option<nat>)
    requires pos <= |text|
    ensures v.Some? ==> v.value < 0x1_0000 && pos + 4 <= |text|
  {
    HexDigits(text, pos, 4, 0)
  }

  /** Bytes as characters of a text. */
  function Chars(bytes: seq<Byte>): string
  {
    seq(|bytes|, i requires 0 <= i < |bytes| => bytes[i] as char)
  }

  /** The UTF-8 bytes of a code point. */
  function EncodeUtf8(codepoint: nat): string
    requires codepoint <= 0x10_FFFF
  {
    Chars(Encodings.Encode8(codepoint))
  }

  datatype Piece = Piece(text: string, next: nat)

  /** One escape sequence whose backslash is at pos: the bytes it stands for and where it ends. */
  function ParseEscape(text: string, pos: nat): (p: Option<Piece>)
    requires pos < |text| && text[pos] == '\\'
    ensures p.Some? ==> pos < p.value.next <= |text|
  {
    var e := Peek(text, pos + 1);
    if Unescape(e).Some? then
      Some(Piece([Unescape(e).value], pos + 2))
    else if e == 'u' then
      var lead := ParseHex4(text, pos + 2);
      if lead.None? then None
      else if 0xD800 <= lead.value <= 0xDBFF then
        if Peek(text, pos + 6) != '\\' || Peek(text, pos + 7) != 'u' then None
        else
          var trail := ParseHex4(text, pos + 8);
          if trail.None? || !(0xDC00 <= trail.value <= 0xDFFF) then None
          else Some(Piece(EncodeUtf8((lead.value - 0xD800) * 1024 + (trail.value - 0xDC00) + 0x1_0000), pos + 12))
      else Some(Piece(EncodeUtf8(lead.value), pos + 6))
    else None
  }

  /** The rest of a string whose decoded part so far is acc; pos is inside the quotes. */
  function ScanString(text: string, pos: nat, acc: string): (p: Option<Piece>)
    requires pos <= |text|
    ensures p.Some? ==> pos < p.value.next <= |text|
    decreases |text| - pos
  {
    var c := Peek(text, pos);
    if c == '\\' then
      var piece := ParseEscape(text, pos);
      if piece.None? then None else ScanString(text, piece.value.next, acc + piece.value.text)
    else if c == '"' then
      Some(Piece(acc, pos + 1))
    else if c < ' ' then None
    else ScanString(text, pos + 1, acc + [c])
  }

  function ParseString(src: Source, pos: nat, events: seq<Event>, isKey: bool): (o: Outcome)
    requires pos < |src.text| && src.text[pos] == '"'
    ensures o.Accepted? ==> pos < o.pos <= |src.text|
  {
    var p := ScanString(src.text, pos + 1, "");
    if p.None? then Rejected(events)
    else Send(src, p.value.next, events, if isKey then Key(p.value.text) else String(p.value.text))
  }

  // ----- numbers ----------------------------------------------------------

  datatype Digits = Digits(value: nat, next: nat, tooBig: bool)

  /** Accumulates digits while the value stays at or below 10 * limit + last. */
  function ScanDigits(text: string, pos: nat, value: nat, limit: nat, last: nat): (d: Digits)
    requires pos <= |text|
    ensures pos <= d.next <= |text|
    decreases |text| - pos
  {
    var c := Peek(text, pos);
    if !IsDigit(c) then Digits(value, pos, false)
    else if value >= limit && (value != limit || DigitValue(c) > last) then Digits(value, pos, true)
    else ScanDigits(text, pos + 1, value * 10 + DigitValue(c), limit, last)
  }

  /** An integer literal read as far as 64 bits allow. */
  datatype IntegerPart = IntegerPart(magnitude: nat, next: nat, use64bit: bool, useDouble: bool)

  function ParseIntegerPart(text: string, pos: nat, minus: bool): (r: Option<IntegerPart>)
    requires pos <= |text|
    ensures r.Some? ==> pos < r.value.next <= |text|
  {
    var c := Peek(text, pos);
    if c == '0' then Some(IntegerPart(0, pos + 1, false, false))
    else if IsDigit(c) then
      var d32 := if minus then ScanDigits(text, pos + 1, DigitValue(c), 214748364, 8)
                 else ScanDigits(text, pos + 1, DigitValue(c), 429496729, 5);
      if !d32.tooBig then Some(IntegerPart(d32.value, d32.next, false, false))
      else
        var d64 := if minus then ScanDigits(text, d32.next, d32.value, 0x0CCC_CCCC_CCCC_CCCC, 8)
                   else ScanDigits(text, d32.next, d32.value, 0x1999_9999_9999_9999, 5);
        Some(IntegerPart(d64.value, d64.next, true, d64.tooBig))
    else None
  }

  function IntegerEvent(part: IntegerPart, minus: bool): Event
  {
    if part.use64bit then (if minus then Int64(-(part.magnitude as int)) else Uint64(part.magnitude))
    else if minus then Int(-(part.magnitude as int)) else Uint(part.magnitude)
  }

  /** A literal whose end lies outside the text counts as malformed. */
  function DoubleEndAfter(src: Source, start: nat, integerEnd: nat): (end: Option<nat>)
    ensures end.Some? ==> integerEnd < end.value <= |src.text|
  {
    var end := src.doubleEnd(start);
    if end.Some? && integerEnd < end.value <= |src.text| then end else None
  }

  function ParseNumber(src: Source, pos: nat, events: seq<Event>): (o: Outcome)
    requires pos <= |src.text|
    ensures o.Accepted? ==> pos < o.pos <= |src.text|
  {
    var minus := Peek(src.text, pos) == '-';
    var part := ParseIntegerPart(src.text, if minus then pos + 1 else pos, minus);
    if part.None? then Rejected(events)
    else
      var next := part.value.next;
      if part.value.useDouble || Peek(src.text, next) in {'.', 'e', 'E'} then
        var end := DoubleEndAfter(src, pos, next);
        if end.None? then Rejected(events)
        else Send(src, end.value, events, Double(src.text[pos..end.value]))
      else Send(src, next, events, IntegerEvent(part.value, minus))
  }
}

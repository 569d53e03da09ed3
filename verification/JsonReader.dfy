/** The parser object of utils/rapidjson/reader.h: a cursor over the text, the events sent
    to the handler, the error flag, and the stack of the pushdown parser. Every method is
    proved against the function of the same name. */
module JsonReader {
  import opened Wrappers
  import opened JsonText
  import JsonParsers
  import opened JsonEquivalence

  class Reader {
    const src: Source
    var pos: nat
    var events: seq<Event>
    var hasError: bool
    var stack: seq<JsonParsers.Frame>

    constructor (src: Source)
      ensures this.src == src && Fresh()
    {
      this.src := src;
      pos, events, hasError, stack := 0, [], false, [];
    }

    ghost predicate Fresh()
      reads this
    {
      pos == 0 && events == [] && !hasError && stack == []
    }

    ghost predicate Ready()
      reads this
    {
      !hasError && pos <= |src.text|
    }

    ghost function Result(): Outcome
      reads this
    {
      if hasError then Rejected(events) else Accepted(pos, events)
    }

    method Emit(event: Event)
      requires !hasError
      modifies this`events, this`hasError
      ensures Result() == Send(src, pos, old(events), event)
    {
      events := events + [event];
      hasError := !src.accepts(events);
    }

    method Skip()
      requires Ready()
      modifies this`pos
      ensures Ready() && pos == SkipWhitespace(src.text, old(pos))
    {
      while IsWhitespace(Peek(src.text, pos))
        invariant pos <= |src.text|
        invariant SkipWhitespace(src.text, pos) == SkipWhitespace(src.text, old(pos))
        decreases |src.text| - pos
      {
        pos := pos + 1;
      }
    }

    method Consume(c: char) returns (found: bool)
      requires Ready() && c != '\0'
      modifies this`pos
      ensures Ready() && found == (Peek(src.text, old(pos)) == c)
      ensures pos == if found then old(pos) + 1 else old(pos)
    {
      found := Peek(src.text, pos) == c;
      if found {
        pos := pos + 1;
      }
    }

    // ----- scalars --------------------------------------------------------

    method ParseLiteral(word: string, event: Event)
      requires Ready() && word != "" && Peek(src.text, pos) == word[0]
      requires forall i :: 0 <= i < |word| ==> word[i] != '\0'
      modifies this`pos, this`events, this`hasError
      ensures Result() == ParseWord(src, old(pos), old(events), word, event)
    {
      var start := pos;
      for i := 0 to |word|
        invariant Ready() && events == old(events) && pos == start + i
        invariant src.text[start..pos] == word[..i]
      {
        var found := Consume(word[i]);
        if !found {
          assert start + |word| <= |src.text| ==> src.text[start..start + |word|][i] == src.text[pos];
          hasError := true;
          return;
        }
      }
      Emit(event);
    }

    method ParseHex() returns (codepoint: nat)
      requires Ready()
      modifies this`pos, this`hasError
      ensures pos <= |src.text|
      ensures hasError <==> ParseHex4(src.text, old(pos)).None?
      ensures !hasError ==> ParseHex4(src.text, old(pos)) == Some(codepoint) && pos == old(pos) + 4
    {
      codepoint := 0;
      for i := 0 to 4
        invariant Ready() && pos == old(pos) + i
        invariant HexDigits(src.text, pos, 4 - i, codepoint) == HexDigits(src.text, old(pos), 4, 0)
      {
        var d := HexValue(Peek(src.text, pos));
        if d.None? {
          hasError := true;
          return;
        }
        codepoint := codepoint * 16 + d.value;
        pos := pos + 1;
      }
    }

    method ParseEscapeSequence() returns (piece: string)
      requires Ready() && Peek(src.text, pos) == '\\'
      modifies this`pos, this`hasError
      ensures pos <= |src.text|
      ensures hasError <==> ParseEscape(src.text, old(pos)).None?
      ensures !hasError ==> ParseEscape(src.text, old(pos)) == Some(Piece(piece, pos))
    {
      hide HexDigits, EncodeUtf8;
      piece := "";
      pos := pos + 1;
      var e := Peek(src.text, pos);
      if Unescape(e).Some? {
        pos := pos + 1;
        piece := [Unescape(e).value];
      } else if e == 'u' {
        pos := pos + 1;
        var codepoint := ParseHex();
        if hasError {
          return;
        }
        if 0xD800 <= codepoint <= 0xDBFF {
          var backslash := Consume('\\');
          var u := false;
          if backslash {
            u := Consume('u');
          }
          if !u {
            hasError := true;
            return;
          }
          var trail := ParseHex();
          if hasError {
            return;
          }
          if trail < 0xDC00 || trail > 0xDFFF {
            hasError := true;
            return;
          }
          codepoint := (codepoint - 0xD800) * 1024 + (trail - 0xDC00) + 0x1_0000;
        }
        piece := EncodeUtf8(codepoint);
      } else {
        hasError := true;
      }
    }

    method ParseStringToStream() returns (text: string)
      requires Ready()
      modifies this`pos, this`hasError
      ensures hasError <==> ScanString(src.text, old(pos), "").None?
      ensures !hasError ==> ScanString(src.text, old(pos), "") == Some(Piece(text, pos))
    {
      text := "";
      while true
        invariant Ready()
        invariant ScanString(src.text, pos, text) == ScanString(src.text, old(pos), "")
        decreases |src.text| - pos
      {
        var c := Peek(src.text, pos);
        if c == '\\' {
          var piece := ParseEscapeSequence();
          if hasError {
            return;
          }
          text := text + piece;
        } else if c == '"' {
          pos := pos + 1;
          return;
        } else if c < ' ' {
          hasError := true;
          return;
        } else {
          text := text + [c];
          pos := pos + 1;
        }
      }
    }

    method ParseStringToken(isKey: bool)
      requires Ready() && Peek(src.text, pos) == '"'
      modifies this`pos, this`events, this`hasError
      ensures Result() == ParseString(src, old(pos), old(events), isKey)
    {
      pos := pos + 1;
      var text := ParseStringToStream();
      if !hasError {
        Emit(if isKey then Key(text) else String(text));
      }
    }

    method TakeDigits(start: nat, limit: nat, last: nat) returns (value: nat, tooBig: bool)
      requires Ready()
      modifies this`pos
      ensures Ready()
      ensures ScanDigits(src.text, old(pos), start, limit, last) == Digits(value, pos, tooBig)
    {
      value, tooBig := start, false;
      while IsDigit(Peek(src.text, pos))
        invariant Ready() && !tooBig
        invariant ScanDigits(src.text, pos, value, limit, last) == ScanDigits(src.text, old(pos), start, limit, last)
        decreases |src.text| - pos
      {
        if value >= limit && (value != limit || DigitValue(Peek(src.text, pos)) > last) {
          tooBig := true;
          return;
        }
        value := value * 10 + DigitValue(Peek(src.text, pos));
        pos := pos + 1;
      }
    }

    method ParseNumberToken()
      requires Ready()
      modifies this`pos, this`events, this`hasError
      ensures Result() == ParseNumber(src, old(pos), old(events))
    {
      var start := pos;
      var minus := Consume('-');
      var c := Peek(src.text, pos);
      var value, use64bit, useDouble := 0, false, false;
      if c == '0' {
        pos := pos + 1;
      } else if IsDigit(c) {
        pos := pos + 1;
        if minus {
          value, use64bit := TakeDigits(DigitValue(c), 214748364, 8);
        } else {
          value, use64bit := TakeDigits(DigitValue(c), 429496729, 5);
        }
        if use64bit {
          if minus {
            value, useDouble := TakeDigits(value, 0x0CCC_CCCC_CCCC_CCCC, 8);
          } else {
            value, useDouble := TakeDigits(value, 0x1999_9999_9999_9999, 5);
          }
        }
      } else {
        hasError := true;
        return;
      }
      if useDouble || Peek(src.text, pos) in {'.', 'e', 'E'} {
        var end := DoubleEndAfter(src, start, pos);
        if end.None? {
          hasError := true;
          return;
        }
        pos := end.value;
        Emit(Double(src.text[start..pos]));
      } else {
        Emit(IntegerEvent(IntegerPart(value, pos, use64bit, useDouble), minus));
      }
    }

    // ----- recursive descent ----------------------------------------------

    method ParseValue()
      requires Ready()
      modifies this`pos, this`events, this`hasError
      ensures Result() == JsonParsers.ParseValue(src, old(pos), old(events))
      decreases |src.text| - pos, 0
    {
      match Peek(src.text, pos) {
        case 'n' => ParseLiteral("null", Null);
        case 't' => ParseLiteral("true", Bool(true));
        case 'f' => ParseLiteral("false", Bool(false));
        case '"' => ParseStringToken(false);
        case '{' => ParseObject();
        case '[' => ParseArray();
        case _ => ParseNumberToken();
      }
    }

    /** The first half of the loop over members: a name and its colon. */
    method ParseMemberName()
      requires Ready()
      modifies this`pos, this`events, this`hasError
      ensures Result() == JsonParsers.ParseName(src, old(pos), old(events))
    {
      hide ParseString, SkipWhitespace;
      if Peek(src.text, pos) != '"' {
        hasError := true;
        return;
      }
      ParseStringToken(true);
      if hasError {
        return;
      }
      Skip();
      var colon := Consume(':');
      if !colon {
        hasError := true;
        return;
      }
      Skip();
    }

    method ParseObject()
      requires Ready() && Peek(src.text, pos) == '{'
      modifies this`pos, this`events, this`hasError
      ensures Result() == JsonParsers.ParseObject(src, old(pos), old(events))
      decreases |src.text| - pos - 1, 2
    {
      hide JsonParsers.ParseValue, JsonParsers.ParseName, SkipWhitespace;
      pos := pos + 1;
      Emit(StartObject);
      if hasError {
        return;
      }
      Skip();
      var empty := Consume('}');
      if empty {
        Emit(EndObject(0));
        return;
      }
      ghost var wanted := JsonParsers.ParseMembers(src, pos, events, 0);
      var memberCount := 0;
      while true
        invariant Ready() && pos > old(pos)
        invariant JsonParsers.ParseMembers(src, pos, events, memberCount) == wanted
        decreases |src.text| - pos
      {
        ParseMemberName();
        if hasError {
          return;
        }
        ParseValue();
        if hasError {
          return;
        }
        Skip();
        memberCount := JsonParsers.Increment(memberCount);
        match Peek(src.text, pos) {
          case ',' =>
            pos := pos + 1;
            Skip();
          case '}' =>
            pos := pos + 1;
            Emit(EndObject(memberCount));
            return;
          case _ =>
            hasError := true;
            return;
        }
      }
    }

    method ParseArray()
      requires Ready() && Peek(src.text, pos) == '['
      modifies this`pos, this`events, this`hasError
      ensures Result() == JsonParsers.ParseArray(src, old(pos), old(events))
      decreases |src.text| - pos - 1, 2
    {
      hide JsonParsers.ParseValue, JsonParsers.ParseName, SkipWhitespace;
      pos := pos + 1;
      Emit(StartArray);
      if hasError {
        return;
      }
      Skip();
      var empty := Consume(']');
      if empty {
        Emit(EndArray(0));
        return;
      }
      ghost var wanted := JsonParsers.ParseElements(src, pos, events, 0);
      var elementCount := 0;
      while true
        invariant Ready() && pos > old(pos)
        invariant JsonParsers.ParseElements(src, pos, events, elementCount) == wanted
        decreases |src.text| - pos
      {
        ParseValue();
        if hasError {
          return;
        }
        elementCount := JsonParsers.Increment(elementCount);
        Skip();
        var comma := Consume(',');
        if comma {
          Skip();
        } else {
          var closed := Consume(']');
          if closed {
            Emit(EndArray(elementCount));
          } else {
            hasError := true;
          }
          return;
        }
      }
    }

    method Parse()
      requires Fresh()
      modifies this
      ensures Result() == JsonParsers.Parse(src)
    {
      Skip();
      if Peek(src.text, pos) == '\0' {
        hasError := true;
        return;
      }
      ParseValue();
      if hasError {
        return;
      }
      Skip();
      if Peek(src.text, pos) != '\0' {
        hasError := true;
      }
    }

    // ----- the pushdown parser --------------------------------------------

    ghost predicate At(c: JsonParsers.Config, state: JsonParsers.State)
      reads this
    {
      c == JsonParsers.Config(state, stack, pos, events)
    }

    /** Follows one transition; the error state is returned exactly when the function stops. */
    method Transit(state: JsonParsers.State) returns (d: JsonParsers.State)
      requires Ready() && JsonParsers.Consistent(state, stack) && pos < |src.text|
      modifies this`pos, this`events, this`hasError, this`stack
      ensures var m := JsonParsers.Transit(src, JsonParsers.Config(state, old(stack), old(pos), old(events)));
              match m
              case Next(c) => At(c, d) && !hasError
              case Stop(sent) => d == JsonParsers.Error && events == sent
    {
      hide JsonParsers.ParseValue, ParseString;
      var dst := JsonParsers.Predict(state, JsonParsers.Tokenize(Peek(src.text, pos)));
      match dst {
        case ObjectInitial | ArrayInitial =>
          stack := stack + [JsonParsers.Frame(JsonParsers.SavedState(state), 0)];
          Emit(if dst == JsonParsers.ObjectInitial then StartObject else StartArray);
          if hasError {
            return JsonParsers.Error;
          }
          pos := pos + 1;
          return dst;
        case MemberKey =>
          ParseStringToken(true);
          return if hasError then JsonParsers.Error else dst;
        case KeyValueDelimiter =>
          pos := pos + 1;
          return dst;
        case MemberValue | Element =>
          ParseValue();
          return if hasError then JsonParsers.Error else dst;
        case MemberDelimiter | ElementDelimiter =>
          pos := pos + 1;
          var top := stack[|stack| - 1];
          stack := stack[|stack| - 1 := top.(count := JsonParsers.Increment(top.count))];
          return dst;
        case ObjectFinish | ArrayFinish =>
          if state == JsonParsers.MemberDelimiter || state == JsonParsers.ElementDelimiter {
            hasError := true;
            return JsonParsers.Error;
          }
          var top := stack[|stack| - 1];
          var c := top.count;
          if state == JsonParsers.MemberValue || state == JsonParsers.Element {
            c := JsonParsers.Increment(c);
          }
          stack := stack[..|stack| - 1];
          var n := if top.back == JsonParsers.Start then JsonParsers.Finish else top.back;
          Emit(if dst == JsonParsers.ObjectFinish then EndObject(c) else EndArray(c));
          if hasError {
            return JsonParsers.Error;
          }
          pos := pos + 1;
          return n;
        case SingleValue =>
          ParseValue();
          return if hasError then JsonParsers.Error else JsonParsers.Finish;
        case Error | Finish | Start =>
          return JsonParsers.Error;
      }
    }

    method IterativeParse()
      requires Fresh()
      modifies this
      ensures Result() == JsonParsers.IterativeParse(src)
    {
      var state := JsonParsers.Start;
      Skip();
      while Peek(src.text, pos) != '\0'
        invariant Ready() && JsonParsers.Consistent(state, stack)
        invariant JsonParsers.Run(src, JsonParsers.Config(state, stack, pos, events)) == JsonParsers.IterativeParse(src)
        decreases |src.text| - pos
      {
        JsonParsers.TransitConsistent(src, JsonParsers.Config(state, stack, pos, events));
        var d := Transit(state);
        if d == JsonParsers.Error {
          hasError := true;
          return;
        }
        state := d;
        Skip();
      }
      if state != JsonParsers.Finish {
        hasError := true;
      }
    }
  }

  /** On one source the two parsers leave the same result. */
  method ParseBothWays(src: Source) returns (recursive: Reader, iterative: Reader)
    ensures recursive.Result() == iterative.Result() == JsonParsers.Parse(src)
  {
    recursive := new Reader(src);
    recursive.Parse();
    iterative := new Reader(src);
    iterative.IterativeParse();
    ParsersAgree(src);
  }
}

/** The pushdown automaton runs in lockstep with the recursive-descent parser. */
module JsonEquivalence {
  import opened JsonText
  import opened JsonParsers

  ghost predicate ExpectsValue(state: State)
  {
    state in {Start, ArrayInitial, ElementDelimiter, KeyValueDelimiter}
  }

  function AfterValue(state: State): State
  {
    match state
    case ArrayInitial | ElementDelimiter => Element
    case KeyValueDelimiter => MemberValue
    case _ => Finish
  }

  /** What the automaton makes of the rest of the text once a part of it has been parsed. */
  ghost function Continue(src: Source, o: Outcome, state: State, stack: seq<Frame>): Outcome
    requires Consistent(state, stack) && (o.Accepted? ==> o.pos <= |src.text|)
  {
    if o.Rejected? then o
    else Run(src, Config(state, stack, SkipWhitespace(src.text, o.pos), o.events))
  }

  lemma AfterValueConsistent(state: State, stack: seq<Frame>)
    requires ExpectsValue(state) && Consistent(state, stack)
    ensures Consistent(AfterValue(state), stack)
  {
  }

  lemma PushNested(state: State, stack: seq<Frame>, count: nat)
    requires ExpectsValue(state) && Consistent(state, stack)
    ensures var pushed := stack + [Frame(SavedState(state), count)];
            Nested(pushed) && pushed[..|pushed| - 1] == stack
            && AfterScope(SavedState(state)) == AfterValue(state)
  {
    var pushed := stack + [Frame(SavedState(state), count)];
    assert pushed[..|pushed| - 1] == stack;
  }

  /** A scalar in value position, which both parsers hand to the same scalar parser. */
  lemma ScalarStep(src: Source, c: Config)
    requires Consistent(c.state, c.stack) && ExpectsValue(c.state) && c.pos <= |src.text|
    requires Peek(src.text, c.pos) !in {'{', '[', ']', '}', ',', ':', '\0'}
    ensures Consistent(AfterValue(c.state), c.stack)
    ensures Run(src, c) == Continue(src, ParseValue(src, c.pos, c.events), AfterValue(c.state), c.stack)
  {
    hide ParseValue, ParseString, SkipWhitespace;
    var token := Tokenize(src.text[c.pos]);
    assert token in {StringToken, FalseToken, TrueToken, NullToken, NumberToken};
    assert Transit(src, c) == Advance(ParseValue(src, c.pos, c.events), AfterValue(c.state), c.stack);
  }

  /** A character no value starts with stops both parsers where they are. */
  lemma NoValueStep(src: Source, c: Config)
    requires Consistent(c.state, c.stack) && ExpectsValue(c.state) && c.pos <= |src.text|
    requires Peek(src.text, c.pos) in {']', '}', ',', ':', '\0'}
    requires c.state == ArrayInitial ==> Peek(src.text, c.pos) != ']'
    ensures ParseValue(src, c.pos, c.events) == Rejected(c.events) == Run(src, c)
  {
  }

  lemma {:induction false} ValueLockstep(src: Source, c: Config)
    requires Consistent(c.state, c.stack) && ExpectsValue(c.state) && c.pos <= |src.text|
    requires c.state == ArrayInitial ==> Peek(src.text, c.pos) != ']'
    ensures Consistent(AfterValue(c.state), c.stack)
    ensures Run(src, c) == Continue(src, ParseValue(src, c.pos, c.events), AfterValue(c.state), c.stack)
    decreases |src.text| - c.pos, 0
  {
    hide Run, ParseString, SkipWhitespace;
    AfterValueConsistent(c.state, c.stack);
    var ch := Peek(src.text, c.pos);
    if ch == '{' {
      ObjectLockstep(src, c);
    } else if ch == '[' {
      ArrayLockstep(src, c);
    } else if ch in {']', '}', ',', ':', '\0'} {
      NoValueStep(src, c);
    } else {
      ScalarStep(src, c);
    }
  }

  /** An opening bracket pushes a frame that leads back to where the value was expected. */
  lemma OpenStep(src: Source, c: Config, isObject: bool)
    requires Consistent(c.state, c.stack) && ExpectsValue(c.state) && c.pos <= |src.text|
    requires Peek(src.text, c.pos) == if isObject then '{' else '['
    ensures var stack := c.stack + [Frame(SavedState(c.state), 0)];
            var start := Send(src, c.pos + 1, c.events, if isObject then StartObject else StartArray);
            Nested(stack) &&
            Run(src, c) == if start.Rejected? then start
                           else Run(src, Config(if isObject then ObjectInitial else ArrayInitial, stack,
                                                SkipWhitespace(src.text, c.pos + 1), start.events))
  {
    hide ParseValue, ParseString, SkipWhitespace;
    PushNested(c.state, c.stack, 0);
    var start := Send(src, c.pos + 1, c.events, if isObject then StartObject else StartArray);
    assert Transit(src, c) == Advance(start, if isObject then ObjectInitial else ArrayInitial,
                                      c.stack + [Frame(SavedState(c.state), 0)]);
  }

  lemma {:induction false} ObjectLockstep(src: Source, c: Config)
    requires Consistent(c.state, c.stack) && ExpectsValue(c.state) && c.pos <= |src.text|
    requires Peek(src.text, c.pos) == '{'
    ensures Consistent(AfterValue(c.state), c.stack)
    ensures Run(src, c) == Continue(src, ParseObject(src, c.pos, c.events), AfterValue(c.state), c.stack)
    decreases |src.text| - c.pos - 1, 2
  {
    hide Run, ParseString, ParseValue, SkipWhitespace;
    AfterValueConsistent(c.state, c.stack);
    OpenStep(src, c, true);
    var start := Send(src, c.pos + 1, c.events, StartObject);
    if start.Accepted? {
      var p := SkipWhitespace(src.text, c.pos + 1);
      var d := Config(ObjectInitial, c.stack + [Frame(SavedState(c.state), 0)], p, start.events);
      if Peek(src.text, p) == '}' {
        CloseStep(src, c.state, c.stack, 0, d, false, true);
      } else {
        MembersLockstep(src, c.state, c.stack, 0, d);
      }
    }
  }

  lemma CloseTransit(src: Source, d: Config, filled: bool, isObject: bool)
    requires Nested(d.stack) && d.pos < |src.text|
    requires src.text[d.pos] == if isObject then '}' else ']'
    requires d.state == if isObject then (if filled then MemberValue else ObjectInitial)
                        else (if filled then Element else ArrayInitial)
    ensures Transit(src, d) == Close(src, d, filled, isObject)
  {
  }

  /** One transition of the pushdown parser, which then goes on. */
  lemma RunStep(src: Source, d: Config, o: Outcome, state: State, stack: seq<Frame>)
    requires Consistent(d.state, d.stack) && d.pos < |src.text| && src.text[d.pos] != '\0'
    requires Consistent(state, stack) && Transit(src, d) == Advance(o, state, stack)
    ensures o.Accepted? ==> o.pos <= |src.text|
    ensures Run(src, d) == Continue(src, o, state, stack)
  {
    hide Transit, SkipWhitespace, Consistent;
    TransitConsistent(src, d);
  }

  /** The closing bracket pops the frame and reports its count. */
  lemma CloseStep(src: Source, outer: State, below: seq<Frame>, count: nat, d: Config, filled: bool, isObject: bool)
    requires ExpectsValue(outer) && Consistent(outer, below)
    requires d.stack == below + [Frame(SavedState(outer), count)]
    requires Nested(d.stack) && d.pos < |src.text|
    requires src.text[d.pos] == if isObject then '}' else ']'
    requires d.state == if isObject then (if filled then MemberValue else ObjectInitial)
                        else (if filled then Element else ArrayInitial)
    ensures Consistent(AfterValue(outer), below)
    ensures var n := if filled then Increment(count) else count;
            Run(src, d) == Continue(src, Send(src, d.pos + 1, d.events, if isObject then EndObject(n) else EndArray(n)),
                                    AfterValue(outer), below)
  {
    hide Transit, SkipWhitespace, Nested, Continue, Run;
    PushNested(outer, below, count);
    AfterValueConsistent(outer, below);
    CloseTransit(src, d, filled, isObject);
    var n := if filled then Increment(count) else count;
    var o := Send(src, d.pos + 1, d.events, if isObject then EndObject(n) else EndArray(n));
    RunStep(src, d, o, AfterValue(outer), below);
  }

  lemma CommaTransit(src: Source, d: Config)
    requires Nested(d.stack) && d.pos < |src.text| && src.text[d.pos] == ','
    requires d.state == MemberValue || d.state == Element
    ensures Transit(src, d) == CountOne(d, if d.state == MemberValue then MemberDelimiter else ElementDelimiter)
  {
    hide ParseValue, ParseString;
  }

  /** The comma adds one to the count of the open scope. */
  lemma CommaStep(src: Source, outer: State, below: seq<Frame>, count: nat, d: Config)
    requires ExpectsValue(outer) && Consistent(outer, below)
    requires d.stack == below + [Frame(SavedState(outer), count)]
    requires Nested(d.stack) && d.pos < |src.text| && src.text[d.pos] == ','
    requires d.state == MemberValue || d.state == Element
    ensures var stack := below + [Frame(SavedState(outer), Increment(count))];
            Nested(stack) &&
            Run(src, d) == Run(src, Config(if d.state == MemberValue then MemberDelimiter else ElementDelimiter,
                                           stack, SkipWhitespace(src.text, d.pos + 1), d.events))
  {
    hide Transit, SkipWhitespace, Nested;
    PushNested(outer, below, Increment(count));
    CommaTransit(src, d);
    var n := |d.stack| - 1;
    assert d.stack[n := d.stack[n].(count := Increment(count))]
        == below + [Frame(SavedState(outer), Increment(count))];
  }

  /** A member name, then the colon, brings the automaton to the member's value. */
  lemma NameStep(src: Source, d: Config)
    requires Nested(d.stack) && (d.state == MemberDelimiter || d.state == ObjectInitial)
    requires d.pos < |src.text| && src.text[d.pos] == '"'
    ensures var name := ParseString(src, d.pos, d.events, true);
            Run(src, d) == if name.Rejected? then name
                           else Run(src, Config(MemberKey, d.stack, SkipWhitespace(src.text, name.pos), name.events))
  {
    hide ParseValue, ParseString, SkipWhitespace;
    assert Transit(src, d) == Advance(ParseString(src, d.pos, d.events, true), MemberKey, d.stack);
  }

  lemma ColonTransit(src: Source, d: Config)
    requires Nested(d.stack) && d.state == MemberKey && d.pos < |src.text|
    ensures Transit(src, d) == if src.text[d.pos] == ':'
                               then Next(Config(KeyValueDelimiter, d.stack, d.pos + 1, d.events))
                               else Stop(d.events)
  {
    hide ParseValue, ParseString, Nested;
  }

  lemma ColonStep(src: Source, d: Config)
    requires Nested(d.stack) && d.state == MemberKey && d.pos <= |src.text|
    ensures Run(src, d) == if Peek(src.text, d.pos) != ':' then Rejected(d.events)
                           else Run(src, Config(KeyValueDelimiter, d.stack,
                                                SkipWhitespace(src.text, d.pos + 1), d.events))
  {
    hide Transit, SkipWhitespace, Nested;
    if d.pos < |src.text| {
      ColonTransit(src, d);
    }
  }

  lemma NoNameStep(src: Source, d: Config)
    requires Nested(d.stack) && (d.state == MemberDelimiter || d.state == ObjectInitial)
    requires d.pos <= |src.text| && Peek(src.text, d.pos) != '"'
    requires d.state == ObjectInitial ==> Peek(src.text, d.pos) != '}'
    ensures Run(src, d) == Rejected(d.events)
  {
    hide ParseValue, ParseString, SkipWhitespace;
  }

  lemma NameLockstep(src: Source, d: Config)
    requires Nested(d.stack) && (d.state == MemberDelimiter || d.state == ObjectInitial)
    requires d.pos <= |src.text| && (d.state == ObjectInitial ==> Peek(src.text, d.pos) != '}')
    ensures var name := ParseName(src, d.pos, d.events);
            Run(src, d) == if name.Rejected? then name
                           else Run(src, Config(KeyValueDelimiter, d.stack, name.pos, name.events))
  {
    hide Run, ParseString, ParseValue, SkipWhitespace, Nested;
    if Peek(src.text, d.pos) != '"' {
      NoNameStep(src, d);
    } else {
      NameStep(src, d);
      var name := ParseString(src, d.pos, d.events, true);
      if name.Accepted? {
        ColonStep(src, Config(MemberKey, d.stack, SkipWhitespace(src.text, name.pos), name.events));
      }
    }
  }

  lemma {:induction false} MembersLockstep(src: Source, outer: State, below: seq<Frame>, count: nat, d: Config)
    requires ExpectsValue(outer) && Consistent(outer, below)
    requires d.stack == below + [Frame(SavedState(outer), count)] && Nested(d.stack)
    requires d.state == MemberDelimiter || d.state == ObjectInitial
    requires d.pos <= |src.text| && (d.state == ObjectInitial ==> Peek(src.text, d.pos) != '}')
    ensures Consistent(AfterValue(outer), below)
    ensures Run(src, d) == Continue(src, ParseMembers(src, d.pos, d.events, count), AfterValue(outer), below)
    decreases |src.text| - d.pos, 1
  {
    hide Run, ParseName, ParseValue, SkipWhitespace, Nested;
    AfterValueConsistent(outer, below);
    NameLockstep(src, d);
    var name := ParseName(src, d.pos, d.events);
    if name.Accepted? {
      MemberLockstep(src, outer, below, count, Config(KeyValueDelimiter, d.stack, name.pos, name.events));
    }
  }

  lemma {:induction false} MemberLockstep(src: Source, outer: State, below: seq<Frame>, count: nat, v: Config)
    requires ExpectsValue(outer) && Consistent(outer, below)
    requires v.stack == below + [Frame(SavedState(outer), count)] && Nested(v.stack)
    requires v.state == KeyValueDelimiter && v.pos <= |src.text|
    ensures Consistent(AfterValue(outer), below)
    ensures var value := ParseValue(src, v.pos, v.events);
            Run(src, v) ==
            if value.Rejected? then value
            else
              var end := SkipWhitespace(src.text, value.pos);
              match Peek(src.text, end)
              case ',' => Continue(src, ParseMembers(src, SkipWhitespace(src.text, end + 1), value.events, Increment(count)),
                                   AfterValue(outer), below)
              case '}' => Continue(src, Send(src, end + 1, value.events, EndObject(Increment(count))), AfterValue(outer), below)
              case _ => Rejected(value.events)
    decreases |src.text| - v.pos, 1
  {
    hide Run, ParseMembers, ParseValue, SkipWhitespace, Nested;
    AfterValueConsistent(outer, below);
    ValueLockstep(src, v);
    var value := ParseValue(src, v.pos, v.events);
    if value.Accepted? {
      MemberEnd(src, outer, below, count,
                Config(MemberValue, v.stack, SkipWhitespace(src.text, value.pos), value.events));
    }
  }

  lemma {:induction false} MemberEnd(src: Source, outer: State, below: seq<Frame>, count: nat, d: Config)
    requires ExpectsValue(outer) && Consistent(outer, below)
    requires d.stack == below + [Frame(SavedState(outer), count)] && Nested(d.stack)
    requires d.state == MemberValue && d.pos <= |src.text|
    ensures Consistent(AfterValue(outer), below)
    ensures Run(src, d) ==
            match Peek(src.text, d.pos)
            case ',' => Continue(src, ParseMembers(src, SkipWhitespace(src.text, d.pos + 1), d.events, Increment(count)),
                                 AfterValue(outer), below)
            case '}' => Continue(src, Send(src, d.pos + 1, d.events, EndObject(Increment(count))), AfterValue(outer), below)
            case _ => Rejected(d.events)
    decreases |src.text| - d.pos, 0
  {
    AfterValueConsistent(outer, below);
    var ch := Peek(src.text, d.pos);
    if ch == ',' {
      CommaStep(src, outer, below, count, d);
      MembersLockstep(src, outer, below, Increment(count),
                      Config(MemberDelimiter, below + [Frame(SavedState(outer), Increment(count))],
                             SkipWhitespace(src.text, d.pos + 1), d.events));
    } else if ch == '}' {
      CloseStep(src, outer, below, count, d, true, true);
    }
  }

  lemma {:induction false} ArrayLockstep(src: Source, c: Config)
    requires Consistent(c.state, c.stack) && ExpectsValue(c.state) && c.pos <= |src.text|
    requires Peek(src.text, c.pos) == '['
    ensures Consistent(AfterValue(c.state), c.stack)
    ensures Run(src, c) == Continue(src, ParseArray(src, c.pos, c.events), AfterValue(c.state), c.stack)
    decreases |src.text| - c.pos - 1, 2
  {
    hide Run, ParseString, ParseValue, SkipWhitespace;
    AfterValueConsistent(c.state, c.stack);
    OpenStep(src, c, false);
    var start := Send(src, c.pos + 1, c.events, StartArray);
    if start.Accepted? {
      var p := SkipWhitespace(src.text, c.pos + 1);
      var d := Config(ArrayInitial, c.stack + [Frame(SavedState(c.state), 0)], p, start.events);
      if Peek(src.text, p) == ']' {
        CloseStep(src, c.state, c.stack, 0, d, false, false);
      } else {
        ElementsLockstep(src, c.state, c.stack, 0, d);
      }
    }
  }

  lemma {:induction false} ElementsLockstep(src: Source, outer: State, below: seq<Frame>, count: nat, d: Config)
    requires ExpectsValue(outer) && Consistent(outer, below)
    requires d.stack == below + [Frame(SavedState(outer), count)] && Nested(d.stack)
    requires d.state == ElementDelimiter || d.state == ArrayInitial
    requires d.pos <= |src.text| && (d.state == ArrayInitial ==> Peek(src.text, d.pos) != ']')
    ensures Consistent(AfterValue(outer), below)
    ensures Run(src, d) == Continue(src, ParseElements(src, d.pos, d.events, count), AfterValue(outer), below)
    decreases |src.text| - d.pos, 1
  {
    hide Run, ParseString, ParseValue, SkipWhitespace;
    AfterValueConsistent(outer, below);
    ValueLockstep(src, d);
    var value := ParseValue(src, d.pos, d.events);
    if value.Accepted? {
      ElementEnd(src, outer, below, count,
                 Config(Element, d.stack, SkipWhitespace(src.text, value.pos), value.events));
    }
  }

  lemma {:induction false} ElementEnd(src: Source, outer: State, below: seq<Frame>, count: nat, d: Config)
    requires ExpectsValue(outer) && Consistent(outer, below)
    requires d.stack == below + [Frame(SavedState(outer), count)] && Nested(d.stack)
    requires d.state == Element && d.pos <= |src.text|
    ensures Consistent(AfterValue(outer), below)
    ensures Run(src, d) ==
            match Peek(src.text, d.pos)
            case ',' => Continue(src, ParseElements(src, SkipWhitespace(src.text, d.pos + 1), d.events, Increment(count)),
                                 AfterValue(outer), below)
            case ']' => Continue(src, Send(src, d.pos + 1, d.events, EndArray(Increment(count))), AfterValue(outer), below)
            case _ => Rejected(d.events)
    decreases |src.text| - d.pos, 0
  {
    AfterValueConsistent(outer, below);
    var ch := Peek(src.text, d.pos);
    if ch == ',' {
      CommaStep(src, outer, below, count, d);
      ElementsLockstep(src, outer, below, Increment(count),
                       Config(ElementDelimiter, below + [Frame(SavedState(outer), Increment(count))],
                              SkipWhitespace(src.text, d.pos + 1), d.events));
    } else if ch == ']' {
      CloseStep(src, outer, below, count, d, true, false);
    }
  }

  /** Both parsers accept the same texts; they send the same events in the same order, with
      the same counts, whether they accept or stop, and end at the same position. */
  lemma ParsersAgree(src: Source)
    ensures IterativeParse(src) == Parse(src)
  {
    var c := Config(Start, [], SkipWhitespace(src.text, 0), []);
    if Peek(src.text, c.pos) != '\0' {
      ValueLockstep(src, c);
      var value := ParseValue(src, c.pos, []);
      if value.Accepted? {
        var d := Config(Finish, [], SkipWhitespace(src.text, value.pos), value.events);
        assert Run(src, c) == Run(src, d);
      }
    }
  }
}

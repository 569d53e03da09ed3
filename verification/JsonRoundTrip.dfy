/** Writing a tree and parsing the text rebuilds the tree. */
module JsonRoundTrip {
  import opened Wrappers
  import opened JsonText
  import opened JsonTree
  import opened JsonScalars
  import JsonParsers
  import JsonEquivalence
  import Itoa

  /** A handler that never stops the parser. */
  ghost predicate Patient(src: Source)
  {
    forall events :: src.accepts(events)
  }

  lemma SentEvents(src: Source, pos: nat, events: seq<Event>, event: Event)
    requires Patient(src)
    ensures Send(src, pos, events, event) == Accepted(pos, events + [event])
  {
  }

  predicate EndsValue(c: char)
  {
    c in {',', ']', '}', '\0'}
  }

  lemma NoSkip(text: string, pos: nat, part: string)
    requires At(text, pos, part) && part != "" && !IsWhitespace(part[0])
    ensures pos <= |text| && SkipWhitespace(text, pos) == pos && Peek(text, pos) == part[0]
  {
    AtChar(text, pos, part, 0);
  }

  /** No rendered value starts with whitespace or a closing bracket. */
  lemma RenderStart(v: Value)
    requires Representable(v)
    ensures Render(v) != ""
    ensures Render(v)[0] !in {' ', '\n', '\r', '\t', ']', '}', ',', ':', '\0'}
    ensures Render(v)[0] == '{' <==> v.ObjectValue?
    ensures Render(v)[0] == '[' <==> v.ArrayValue?
  {
    if v.Number? {
      NumeralFolds(if v.n < 0 then -v.n else v.n);
    }
  }

  lemma {:induction false} ValueParses(src: Source, pos: nat, v: Value, events: seq<Event>)
    requires Patient(src) && Representable(v)
    requires At(src.text, pos, Render(v)) && EndsValue(Peek(src.text, pos + |Render(v)|))
    ensures pos <= |src.text|
    ensures JsonParsers.ParseValue(src, pos, events) == Accepted(pos + |Render(v)|, events + Events(v, FromText))
    decreases v, 1
  {
    RenderStart(v);
    AtChar(src.text, pos, Render(v), 0);
    match v {
      case ObjectValue(members) => ObjectParses(src, pos, members, v, events);
      case ArrayValue(elements) => ArrayParses(src, pos, elements, v, events);
      case _ => ScalarParses(src, pos, v, events);
    }
  }

  lemma ScalarParses(src: Source, pos: nat, v: Value, events: seq<Event>)
    requires Patient(src) && Representable(v) && !v.ObjectValue? && !v.ArrayValue?
    requires At(src.text, pos, Render(v)) && EndsValue(Peek(src.text, pos + |Render(v)|))
    ensures pos <= |src.text|
    ensures JsonParsers.ParseValue(src, pos, events) == Accepted(pos + |Render(v)|, events + Events(v, FromText))
  {
    hide ParseNumber, ParseString, NumberEvent, Itoa.Integer, RenderString;
    match v {
      case Number(n) =>
        IntegerParses(src, pos, n, events);
        SentEvents(src, pos + |Render(v)|, events, NumberEvent(n, FromText));
      case StringValue(s) =>
        StringTokenParses(src, pos, s, events, false);
        SentEvents(src, pos + |Render(v)|, events, String(s));
      case NullValue =>
        AtChar(src.text, pos, "null", 0);
        SentEvents(src, pos + 4, events, Null);
      case BoolValue(b) =>
        AtChar(src.text, pos, Render(v), 0);
        SentEvents(src, pos + |Render(v)|, events, Bool(b));
    }
  }

  // ----- arrays -----------------------------------------------------------

  /** The text of the elements from one on, up to and with the closing bracket. */
  function ElementsText(elements: seq<Value>): string
  {
    RenderElements(elements, true) + "]"
  }

  lemma ElementsAfterComma(elements: seq<Value>)
    requires elements != []
    ensures RenderElements(elements, false) == "," + RenderElements(elements, true)
  {
    hide Render;
    var t := Render(elements[0]) + RenderElements(elements[1..], false);
    assert RenderElements(elements, false) == "," + t;
    assert RenderElements(elements, true) == "" + t == t;
  }

  /** What comes behind the first element. */
  function ElementsTail(elements: seq<Value>): string
    requires elements != []
  {
    if |elements| == 1 then "]" else "," + ElementsText(elements[1..])
  }

  lemma ElementsTailStarts(elements: seq<Value>)
    requires elements != []
    ensures var tail := ElementsTail(elements);
            && tail != "" && EndsValue(tail[0]) && !IsWhitespace(tail[0])
            && |tail| == (if |elements| == 1 then 1 else 1 + |ElementsText(elements[1..])|)
            && tail[0] == if |elements| == 1 then ']' else ','
    ensures |elements| > 1 ==> ElementsTail(elements) == "," + ElementsText(elements[1..])
  {
    hide ElementsText;
  }

  lemma ElementsTailIsRest(elements: seq<Value>)
    requires elements != []
    ensures ElementsTail(elements) == RenderElements(elements[1..], false) + "]"
  {
    var rest := elements[1..];
    if rest == [] {
      assert RenderElements(rest, false) == "";
    } else {
      ElementsAfterComma(rest);
      hide RenderElements;
      assert "," + RenderElements(rest, true) + "]" == "," + (RenderElements(rest, true) + "]");
    }
  }

  lemma Chained<T>(a: seq<T>, b: seq<T>, c: seq<T>)
    ensures a + b + c == a + (b + c) && [] + a == a == a + []
  {
  }

  lemma ElementsTextSplit(elements: seq<Value>)
    requires elements != []
    ensures ElementsText(elements) == Render(elements[0]) + ElementsTail(elements)
  {
    hide Render, ElementsTail;
    ElementsTailIsRest(elements);
    Chained(Render(elements[0]), RenderElements(elements[1..], false), "]");
  }

  /** The bracket behind an element ends the array. */
  lemma ElementsEnd(src: Source, pos: nat, events: seq<Event>, count: nat, end: nat, sent: seq<Event>)
    requires pos <= |src.text| && JsonParsers.ParseValue(src, pos, events) == Accepted(end, sent)
    requires end <= |src.text| && SkipWhitespace(src.text, end) == end && Peek(src.text, end) == ']'
    requires Patient(src) && count + 1 < JsonParsers.SIZE_LIMIT
    ensures JsonParsers.ParseElements(src, pos, events, count) == Accepted(end + 1, sent + [EndArray(count + 1)])
  {
    hide JsonParsers.ParseValue, SkipWhitespace;
    SentEvents(src, end + 1, sent, EndArray(count + 1));
  }

  /** A comma leads on to the next one. */
  lemma ElementsGoOn(src: Source, pos: nat, events: seq<Event>, count: nat, end: nat, sent: seq<Event>)
    requires pos <= |src.text| && JsonParsers.ParseValue(src, pos, events) == Accepted(end, sent)
    requires end < |src.text| && SkipWhitespace(src.text, end) == end && Peek(src.text, end) == ','
    requires SkipWhitespace(src.text, end + 1) == end + 1 && count + 1 < JsonParsers.SIZE_LIMIT
    ensures JsonParsers.ParseElements(src, pos, events, count) == JsonParsers.ParseElements(src, end + 1, sent, count + 1)
  {
    hide JsonParsers.ParseValue, SkipWhitespace;
  }

  lemma MoreElementsSend(elements: seq<Value>, events: seq<Event>)
    requires elements != []
    ensures events + Events(elements[0], FromText) + ElementEvents(elements[1..], FromText)
         == events + ElementEvents(elements, FromText)
  {
    hide Events;
    Chained(events, Events(elements[0], FromText), ElementEvents(elements[1..], FromText));
  }

  lemma OneElementSends(elements: seq<Value>, events: seq<Event>)
    requires |elements| == 1
    ensures events + Events(elements[0], FromText) == events + ElementEvents(elements, FromText)
  {
    hide Events;
    MoreElementsSend(elements, events);
    assert ElementEvents(elements[1..], FromText) == [];
  }

  lemma {:induction false} FirstElementParses(src: Source, pos: nat, elements: seq<Value>, events: seq<Event>) returns (end: nat)
    requires Patient(src) && elements != [] && Representable(elements[0])
    requires At(src.text, pos, ElementsText(elements))
    ensures pos <= |src.text|
    ensures JsonParsers.ParseValue(src, pos, events) == Accepted(end, events + Events(elements[0], FromText))
    ensures end <= |src.text| && SkipWhitespace(src.text, end) == end
    ensures At(src.text, end, ElementsTail(elements)) && ElementsTail(elements) != ""
    ensures Peek(src.text, end) == ElementsTail(elements)[0]
    ensures pos + |ElementsText(elements)| == end + |ElementsTail(elements)|
    decreases elements, 0
  {
    hide *;
    var v, tail := elements[0], ElementsTail(elements);
    end := pos + |Render(v)|;
    ElementsTailStarts(elements);
    ElementsTextSplit(elements);
    AtSplit(src.text, pos, Render(v), tail);
    NoSkip(src.text, end, tail);
    ValueParses(src, pos, v, events);
  }

  lemma OneElementParses(src: Source, pos: nat, elements: seq<Value>, count: nat, events: seq<Event>, end: nat)
    requires Patient(src) && |elements| == 1 && count + 1 < JsonParsers.SIZE_LIMIT && pos <= |src.text|
    requires JsonParsers.ParseValue(src, pos, events) == Accepted(end, events + Events(elements[0], FromText))
    requires end <= |src.text| && SkipWhitespace(src.text, end) == end && Peek(src.text, end) == ']'
    ensures JsonParsers.ParseElements(src, pos, events, count)
         == Accepted(end + 1, events + ElementEvents(elements, FromText) + [EndArray(count + 1)])
  {
    hide *;
    ElementsEnd(src, pos, events, count, end, events + Events(elements[0], FromText));
    OneElementSends(elements, events);
  }

  lemma {:induction false} ElementsParse(src: Source, pos: nat, elements: seq<Value>, count: nat, events: seq<Event>)
    requires Patient(src) && elements != [] && forall e <- elements :: Representable(e)
    requires count + |elements| < JsonParsers.SIZE_LIMIT
    requires At(src.text, pos, ElementsText(elements))
    ensures pos <= |src.text|
    ensures JsonParsers.ParseElements(src, pos, events, count)
         == Accepted(pos + |ElementsText(elements)|,
                     events + ElementEvents(elements, FromText) + [EndArray(count + |elements|)])
    decreases elements, 1
  {
    hide *;
    assert elements[0] in elements;
    var end := FirstElementParses(src, pos, elements, events);
    ElementsTailStarts(elements);
    if |elements| == 1 {
      OneElementParses(src, pos, elements, count, events, end);
    } else {
      var rest, sent := elements[1..], events + Events(elements[0], FromText);
      assert forall e <- rest :: e in elements;
      AtSplit(src.text, end, ",", ElementsText(rest));
      ElementStart(src.text, end + 1, rest);
      ElementsGoOn(src, pos, events, count, end, sent);
      ElementsParse(src, end + 1, rest, count + 1, sent);
      MoreElementsSend(elements, events);
    }
  }

  /** No whitespace and no closing bracket comes before an element. */
  lemma ElementStart(text: string, pos: nat, elements: seq<Value>)
    requires elements != [] && Representable(elements[0]) && At(text, pos, ElementsText(elements))
    ensures pos <= |text| && SkipWhitespace(text, pos) == pos && Peek(text, pos) != ']'
  {
    hide Render, At;
    ElementsTextSplit(elements);
    RenderStart(elements[0]);
    assert ElementsText(elements)[0] == Render(elements[0])[0];
    NoSkip(text, pos, ElementsText(elements));
  }

  lemma ArrayUnfolds(elements: seq<Value>, origin: Origin)
    ensures Render(ArrayValue(elements)) == "[" + ElementsText(elements)
    ensures Events(ArrayValue(elements), origin)
         == [StartArray] + ElementEvents(elements, origin) + [EndArray(|elements|)]
  {
    hide RenderElements, ElementEvents;
  }

  lemma {:induction false} ArrayParses(src: Source, pos: nat, elements: seq<Value>, v: Value, events: seq<Event>)
    requires v == ArrayValue(elements)
    requires Patient(src) && Representable(v) && At(src.text, pos, Render(v))
    ensures pos < |src.text|
    ensures JsonParsers.ParseArray(src, pos, events) == Accepted(pos + |Render(v)|, events + Events(v, FromText))
    decreases v, 0
  {
    hide JsonParsers.ParseElements, At, Render, Events, ElementsText;
    ArrayUnfolds(elements, FromText);
    AtSplit(src.text, pos, "[", ElementsText(elements));
    AtBounds(src.text, pos, "[");
    SentEvents(src, pos + 1, events, StartArray);
    var sent := events + [StartArray];
    if elements == [] {
      assert ElementsText(elements) == "]" by { EmptyTexts(); }
      NoSkip(src.text, pos + 1, "]");
      SentEvents(src, pos + 2, sent, EndArray(0));
    } else {
      ElementStart(src.text, pos + 1, elements);
      ElementsParse(src, pos + 1, elements, 0, sent);
    }
    assert events + Events(v, FromText)
        == sent + ElementEvents(elements, FromText) + [EndArray(|elements|)];
  }

  lemma EmptyTexts()
    ensures ElementsText([]) == "]" && MembersText([]) == "}"
  {
  }

  // ----- objects ----------------------------------------------------------

  function MembersText(members: seq<Member>): string
  {
    RenderMembers(members, true) + "}"
  }

  lemma MembersAfterComma(members: seq<Member>)
    requires members != []
    ensures RenderMembers(members, false) == "," + RenderMembers(members, true)
  {
    hide Render, RenderString;
    var t := RenderString(members[0].name) + ":" + Render(members[0].value) + RenderMembers(members[1..], false);
    assert RenderMembers(members, false) == "," + t;
    assert RenderMembers(members, true) == "" + t == t;
  }

  /** What comes behind the first member. */
  function MembersTail(members: seq<Member>): string
    requires members != []
  {
    if |members| == 1 then "}" else "," + MembersText(members[1..])
  }

  lemma TailStarts(members: seq<Member>)
    requires members != []
    ensures var tail := MembersTail(members);
            && tail != "" && EndsValue(tail[0]) && !IsWhitespace(tail[0])
            && |tail| == (if |members| == 1 then 1 else 1 + |MembersText(members[1..])|)
            && tail[0] == if |members| == 1 then '}' else ','
    ensures |members| > 1 ==> MembersTail(members) == "," + MembersText(members[1..])
  {
    hide MembersText;
  }

  lemma TailIsRest(members: seq<Member>)
    requires members != []
    ensures MembersTail(members) == RenderMembers(members[1..], false) + "}"
  {
    var rest := members[1..];
    if rest == [] {
      assert RenderMembers(rest, false) == "";
    } else {
      MembersAfterComma(rest);
      hide RenderMembers;
      assert "," + RenderMembers(rest, true) + "}" == "," + (RenderMembers(rest, true) + "}");
    }
  }

  lemma Nested(name: string, value: string, more: string, end: string)
    ensures "" + name + ":" + value + more + end == name + (":" + (value + (more + end)))
  {
  }

  lemma MembersTextSplit(members: seq<Member>)
    requires members != []
    ensures MembersText(members)
         == RenderString(members[0].name) + (":" + (Render(members[0].value) + MembersTail(members)))
  {
    hide Render, RenderString, MembersTail;
    TailIsRest(members);
    Nested(RenderString(members[0].name), Render(members[0].value), RenderMembers(members[1..], false), "}");
  }

  lemma NameParses(src: Source, pos: nat, name: string, after: string, events: seq<Event>)
    requires Patient(src) && At(src.text, pos, RenderString(name) + (":" + after))
    requires after != "" && !IsWhitespace(after[0])
    ensures pos <= |src.text|
    ensures JsonParsers.ParseName(src, pos, events) == Accepted(pos + |RenderString(name)| + 1, events + [Key(name)])
    ensures At(src.text, pos + |RenderString(name)| + 1, after)
  {
    hide RenderString, At, ParseString;
    AtSplit(src.text, pos, RenderString(name), ":" + after);
    var colon := pos + |RenderString(name)|;
    AtSplit(src.text, colon, ":", after);
    AtBounds(src.text, pos, RenderString(name));
    StringTokenParses(src, pos, name, events, true);
    SentEvents(src, colon, events, Key(name));
    NoSkip(src.text, colon, ":");
    NoSkip(src.text, colon + 1, after);
  }

  /** The text of the first member, up to the comma or bracket after it. */
  lemma {:induction false} MemberParses(src: Source, pos: nat, m: Member, tail: string, events: seq<Event>)
    requires Patient(src) && Representable(m.value) && tail != "" && EndsValue(tail[0])
    requires At(src.text, pos, RenderString(m.name) + (":" + (Render(m.value) + tail)))
    ensures pos <= |src.text|
    ensures var name := JsonParsers.ParseName(src, pos, events);
            var end := pos + |RenderString(m.name)| + 1 + |Render(m.value)|;
            && name.Accepted? && At(src.text, end, tail)
            && JsonParsers.ParseValue(src, name.pos, name.events)
               == Accepted(end, events + ([Key(m.name)] + Events(m.value, FromText)))
    decreases m.value, 2
  {
    hide JsonParsers.ParseValue, JsonParsers.ParseName, Render, RenderString, At, Events;
    var v := m.value;
    RenderStart(v);
    assert (Render(v) + tail)[0] == Render(v)[0];
    NameParses(src, pos, m.name, Render(v) + tail, events);
    var start := pos + |RenderString(m.name)| + 1;
    AtSplit(src.text, start, Render(v), tail);
    NoSkip(src.text, start + |Render(v)|, tail);
    ValueParses(src, start, v, events + [Key(m.name)]);
    assert events + [Key(m.name)] + Events(v, FromText) == events + ([Key(m.name)] + Events(v, FromText));
  }

  /** The bracket behind a member ends the object. */
  lemma MembersEnd(src: Source, pos: nat, events: seq<Event>, count: nat, end: nat, sent: seq<Event>)
    requires pos <= |src.text| && JsonParsers.ParseName(src, pos, events).Accepted?
    requires var name := JsonParsers.ParseName(src, pos, events);
             JsonParsers.ParseValue(src, name.pos, name.events) == Accepted(end, sent)
    requires end <= |src.text| && SkipWhitespace(src.text, end) == end && Peek(src.text, end) == '}'
    requires Patient(src) && count + 1 < JsonParsers.SIZE_LIMIT
    ensures JsonParsers.ParseMembers(src, pos, events, count) == Accepted(end + 1, sent + [EndObject(count + 1)])
  {
    hide JsonParsers.ParseValue, JsonParsers.ParseName, SkipWhitespace;
    SentEvents(src, end + 1, sent, EndObject(count + 1));
  }

  /** A comma leads on to the next one. */
  lemma MembersGoOn(src: Source, pos: nat, events: seq<Event>, count: nat, end: nat, sent: seq<Event>)
    requires pos <= |src.text| && JsonParsers.ParseName(src, pos, events).Accepted?
    requires var name := JsonParsers.ParseName(src, pos, events);
             JsonParsers.ParseValue(src, name.pos, name.events) == Accepted(end, sent)
    requires end < |src.text| && SkipWhitespace(src.text, end) == end && Peek(src.text, end) == ','
    requires SkipWhitespace(src.text, end + 1) == end + 1 && count + 1 < JsonParsers.SIZE_LIMIT
    ensures JsonParsers.ParseMembers(src, pos, events, count) == JsonParsers.ParseMembers(src, end + 1, sent, count + 1)
  {
    hide JsonParsers.ParseValue, JsonParsers.ParseName, SkipWhitespace;
  }

  lemma MembersTextSize(members: seq<Member>)
    requires members != []
    ensures |MembersText(members)|
         == |RenderString(members[0].name)| + 1 + |Render(members[0].value)| + |MembersTail(members)|
  {
    hide *;
    MembersTextSplit(members);
  }

  lemma {:induction false} FirstMemberParses(src: Source, pos: nat, members: seq<Member>, events: seq<Event>) returns (end: nat)
    requires Patient(src) && members != [] && Representable(members[0].value)
    requires At(src.text, pos, MembersText(members))
    ensures pos <= |src.text|
    ensures var m, name := members[0], JsonParsers.ParseName(src, pos, events);
            && name.Accepted?
            && JsonParsers.ParseValue(src, name.pos, name.events)
               == Accepted(end, events + ([Key(m.name)] + Events(m.value, FromText)))
    ensures end <= |src.text| && SkipWhitespace(src.text, end) == end
    ensures At(src.text, end, MembersTail(members)) && MembersTail(members) != ""
    ensures Peek(src.text, end) == MembersTail(members)[0]
    ensures pos + |MembersText(members)| == end + |MembersTail(members)|
    decreases members, 0
  {
    hide *;
    var m, tail := members[0], MembersTail(members);
    end := pos + |RenderString(m.name)| + 1 + |Render(m.value)|;
    TailStarts(members);
    MembersTextSplit(members);
    MembersTextSize(members);
    MemberParses(src, pos, m, tail, events);
    NoSkip(src.text, end, tail);
  }

  lemma OneMemberParses(src: Source, pos: nat, members: seq<Member>, count: nat, events: seq<Event>, end: nat)
    requires Patient(src) && |members| == 1 && count + 1 < JsonParsers.SIZE_LIMIT
    requires pos <= |src.text| && JsonParsers.ParseName(src, pos, events).Accepted?
    requires var m, name := members[0], JsonParsers.ParseName(src, pos, events);
             JsonParsers.ParseValue(src, name.pos, name.events)
             == Accepted(end, events + ([Key(m.name)] + Events(m.value, FromText)))
    requires end <= |src.text| && SkipWhitespace(src.text, end) == end && Peek(src.text, end) == '}'
    ensures JsonParsers.ParseMembers(src, pos, events, count)
         == Accepted(end + 1, events + MemberEvents(members, FromText) + [EndObject(count + 1)])
  {
    hide *;
    var m := members[0];
    MembersEnd(src, pos, events, count, end, events + ([Key(m.name)] + Events(m.value, FromText)));
    OneMemberSends(m, members[1..], members, events, EndObject(count + 1));
  }

  lemma {:induction false} MembersParse(src: Source, pos: nat, members: seq<Member>, count: nat, events: seq<Event>)
    requires Patient(src) && members != [] && forall m <- members :: Representable(m.value)
    requires count + |members| < JsonParsers.SIZE_LIMIT
    requires At(src.text, pos, MembersText(members))
    ensures pos <= |src.text|
    ensures JsonParsers.ParseMembers(src, pos, events, count)
         == Accepted(pos + |MembersText(members)|,
                     events + MemberEvents(members, FromText) + [EndObject(count + |members|)])
    decreases members, 1
  {
    hide *;
    assert members[0] in members;
    var end := FirstMemberParses(src, pos, members, events);
    TailStarts(members);
    if |members| == 1 {
      OneMemberParses(src, pos, members, count, events, end);
    } else {
      var m, rest := members[0], members[1..];
      assert forall n <- rest :: n in members;
      var sent := events + ([Key(m.name)] + Events(m.value, FromText));
      AtSplit(src.text, end, ",", MembersText(rest));
      MemberStart(src.text, end + 1, rest);
      MembersGoOn(src, pos, events, count, end, sent);
      MembersParse(src, end + 1, rest, count + 1, sent);
      MoreMembersSend(m, rest, members, events);
    }
  }

  lemma MoreMembersSend(m: Member, rest: seq<Member>, members: seq<Member>, events: seq<Event>)
    requires members != [] && members[0] == m && members[1..] == rest
    ensures events + ([Key(m.name)] + Events(m.value, FromText)) + MemberEvents(rest, FromText)
         == events + MemberEvents(members, FromText)
  {
    hide Events;
  }

  lemma OneMemberSends(m: Member, rest: seq<Member>, members: seq<Member>, events: seq<Event>, end: Event)
    requires members != [] && members[0] == m && members[1..] == rest == []
    ensures events + ([Key(m.name)] + Events(m.value, FromText)) + [end]
         == events + MemberEvents(members, FromText) + [end]
  {
    hide Events;
    MoreMembersSend(m, rest, members, events);
    assert MemberEvents(rest, FromText) == [];
  }

  lemma MemberStart(text: string, pos: nat, members: seq<Member>)
    requires members != [] && At(text, pos, MembersText(members))
    ensures pos <= |text| && SkipWhitespace(text, pos) == pos && Peek(text, pos) == '"'
  {
    hide Render, At;
    MembersTextSplit(members);
    NoSkip(text, pos, MembersText(members));
  }

  lemma ObjectUnfolds(members: seq<Member>, origin: Origin)
    ensures Render(ObjectValue(members)) == "{" + MembersText(members)
    ensures Events(ObjectValue(members), origin)
         == [StartObject] + MemberEvents(members, origin) + [EndObject(|members|)]
  {
    hide RenderMembers, MemberEvents;
  }

  lemma {:induction false} ObjectParses(src: Source, pos: nat, members: seq<Member>, v: Value, events: seq<Event>)
    requires v == ObjectValue(members)
    requires Patient(src) && Representable(v) && At(src.text, pos, Render(v))
    ensures pos < |src.text|
    ensures JsonParsers.ParseObject(src, pos, events) == Accepted(pos + |Render(v)|, events + Events(v, FromText))
    decreases v, 0
  {
    hide JsonParsers.ParseMembers, At, Render, Events, MembersText;
    ObjectUnfolds(members, FromText);
    AtSplit(src.text, pos, "{", MembersText(members));
    AtBounds(src.text, pos, "{");
    SentEvents(src, pos + 1, events, StartObject);
    var sent := events + [StartObject];
    if members == [] {
      assert MembersText(members) == "}" by { EmptyTexts(); }
      NoSkip(src.text, pos + 1, "}");
      SentEvents(src, pos + 2, sent, EndObject(0));
    } else {
      MemberStart(src.text, pos + 1, members);
      MembersParse(src, pos + 1, members, 0, sent);
    }
    assert events + Events(v, FromText)
        == sent + MemberEvents(members, FromText) + [EndObject(|members|)];
  }

  // ----- rebuilding the tree ----------------------------------------------

  lemma {:induction false} BuildConcat(stack: seq<Value>, a: seq<Event>, b: seq<Event>)
    ensures Build(stack, a + b) == if Build(stack, a).None? then None else Build(Build(stack, a).value, b)
    decreases |a|
  {
    hide BuildStep;
    if a == [] {
      assert a + b == b;
    } else {
      assert (a + b)[1..] == a[1..] + b;
      var next := BuildStep(stack, a[0]);
      if next.Some? {
        BuildConcat(next.value, a[1..], b);
      }
    }
  }

  lemma BuildOne(stack: seq<Value>, event: Event)
    ensures Build(stack, [event]) == BuildStep(stack, event)
  {
    hide BuildStep;
    var next := BuildStep(stack, event);
    if next.Some? {
      assert [event][1..] == [];
      assert Build(next.value, []) == next;
    }
  }

  /** The handler calls of a value push exactly that value, wherever the numbers came from. */
  lemma {:induction false} ValueBuilds(stack: seq<Value>, v: Value, origin: Origin)
    ensures Build(stack, Events(v, origin)) == Some(stack + [v])
    decreases v, 1
  {
    match v {
      case ArrayValue(elements) => ArrayBuilds(stack, elements, v, origin);
      case ObjectValue(members) => ObjectBuilds(stack, members, v, origin);
      case _ =>
        assert |Events(v, origin)| == 1;
        BuildOne(stack, Events(v, origin)[0]);
    }
  }

  lemma BuildThree(stack: seq<Value>, first: Event, middle: seq<Event>, last: Event,
                   open: seq<Value>, full: seq<Value>)
    requires BuildStep(stack, first) == Some(open) && Build(open, middle) == Some(full)
    ensures Build(stack, [first] + middle + [last]) == BuildStep(full, last)
  {
    hide BuildStep;
    BuildOne(stack, first);
    BuildConcat(stack, [first], middle);
    BuildConcat(stack, [first] + middle, [last]);
    BuildOne(full, last);
  }

  lemma {:induction false} ArrayBuilds(stack: seq<Value>, elements: seq<Value>, v: Value, origin: Origin)
    requires v == ArrayValue(elements)
    ensures Build(stack, Events(v, origin)) == Some(stack + [v])
    decreases v, 0
  {
    hide Build, Events, ElementEvents;
    ArrayUnfolds(elements, origin);
    var open := stack + [ArrayValue([])];
    ElementsBuild(open, elements, origin);
    BuildThree(stack, StartArray, ElementEvents(elements, origin), EndArray(|elements|), open, open + elements);
    assert (open + elements)[..|stack|] == stack;
    assert (open + elements)[|stack| + 1..] == elements;
  }

  lemma {:induction false} ObjectBuilds(stack: seq<Value>, members: seq<Member>, v: Value, origin: Origin)
    requires v == ObjectValue(members)
    ensures Build(stack, Events(v, origin)) == Some(stack + [v])
    decreases v, 0
  {
    hide Build, Events, MemberEvents, PairUp, Flatten;
    ObjectUnfolds(members, origin);
    var open, entries := stack + [ObjectValue([])], Flatten(members);
    MembersBuild(open, members, origin);
    BuildThree(stack, StartObject, MemberEvents(members, origin), EndObject(|members|), open, open + entries);
    assert (open + entries)[..|stack|] == stack;
    assert (open + entries)[|stack| + 1..] == entries;
    PairUpFlatten(members);
  }

  lemma {:induction false} ElementsBuild(stack: seq<Value>, elements: seq<Value>, origin: Origin)
    ensures Build(stack, ElementEvents(elements, origin)) == Some(stack + elements)
    decreases elements, 0
  {
    hide Events, BuildStep;
    if elements == [] {
      assert stack + elements == stack;
    } else {
      ValueBuilds(stack, elements[0], origin);
      BuildConcat(stack, Events(elements[0], origin), ElementEvents(elements[1..], origin));
      ElementsBuild(stack + [elements[0]], elements[1..], origin);
      assert stack + [elements[0]] + elements[1..] == stack + elements;
    }
  }

  /** Members as they lie on the stack: each name, then its value. */
  function Flatten(members: seq<Member>): (r: seq<Value>)
    ensures |r| == 2 * |members|
  {
    if members == [] then [] else [StringValue(members[0].name), members[0].value] + Flatten(members[1..])
  }

  lemma FlattenFirst(members: seq<Member>)
    requires members != []
    ensures Flatten(members) == [StringValue(members[0].name), members[0].value] + Flatten(members[1..])
  {
  }

  lemma {:induction false} PairUpFlatten(members: seq<Member>)
    ensures PairUp(Flatten(members)) == Some(members)
    decreases |members|
  {
    if members != [] {
      hide Flatten;
      FlattenFirst(members);
      PairUpFlatten(members[1..]);
      assert Flatten(members)[2..] == Flatten(members[1..]);
      assert [Member(members[0].name, members[0].value)] + members[1..] == members;
    }
  }

  lemma {:induction false} MembersBuild(stack: seq<Value>, members: seq<Member>, origin: Origin)
    ensures Build(stack, MemberEvents(members, origin)) == Some(stack + Flatten(members))
    decreases members, 0
  {
    hide Events;
    if members == [] {
      assert stack + Flatten(members) == stack;
    } else {
      var name, v := members[0].name, members[0].value;
      var named := stack + [StringValue(name)];
      BuildOne(stack, Key(name));
      ValueBuilds(named, v, origin);
      BuildConcat(stack, [Key(name)], Events(v, origin));
      BuildConcat(stack, [Key(name)] + Events(v, origin), MemberEvents(members[1..], origin));
      MembersBuild(named + [v], members[1..], origin);
      assert named + [v] + Flatten(members[1..]) == stack + Flatten(members);
    }
  }

  // ----- the whole round trip ---------------------------------------------

  lemma TextParses(v: Value, src: Source)
    requires Representable(v) && Patient(src) && src.text == Render(v)
    ensures JsonParsers.Parse(src) == Accepted(|Render(v)|, Events(v, FromText))
  {
    hide JsonParsers.ParseValue, Render, Events;
    RenderStart(v);
    assert At(src.text, 0, Render(v));
    NoSkip(src.text, 0, Render(v));
    ValueParses(src, 0, v, []);
    assert [] + Events(v, FromText) == Events(v, FromText);
    assert SkipWhitespace(src.text, |src.text|) == |src.text|;
  }

  /** A text parsed into a document, whose handler never stops the parser. */
  function IntoDocument(text: string, doubleEnd: nat -> Option<nat>): Source
  {
    Source(text, doubleEnd, events => true)
  }

  /** Either parser reads the text of a tree to its end and sends events that rebuild the tree. */
  lemma RoundTrip(v: Value, doubleEnd: nat -> Option<nat>)
    requires Representable(v)
    ensures var src := IntoDocument(Render(v), doubleEnd);
            var events := Events(v, FromText);
            && JsonParsers.Parse(src) == JsonParsers.IterativeParse(src) == Accepted(|Render(v)|, events)
            && Build([], events) == Some([v])
  {
    var src := IntoDocument(Render(v), doubleEnd);
    TextParses(v, src);
    ValueBuilds([], v, FromText);
    assert [] + [v] == [v];
    JsonEquivalence.ParsersAgree(src);
  }
}

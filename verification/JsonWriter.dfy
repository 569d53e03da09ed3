/** The event writer of utils/rapidjson/writer.h and the traversal that drives it
    (utils/rapidjson/document.h). */
module JsonWriter {
  import opened Wrappers
  import opened JsonText
  import opened JsonTree
  import Itoa
  import JsonParsers

  datatype Level = Level(valueCount: nat, inArray: bool)

  datatype State = State(os: string, levels: seq<Level>, hasRoot: bool)

  const EMPTY := State("", [], false)

  // ----- one event --------------------------------------------------------

  /** The separator a value needs before it in its scope. */
  function Separator(level: Level): string
  {
    if level.valueCount == 0 then ""
    else if level.inArray || level.valueCount % 2 == 0 then "," else ":"
  }

  function Prefix(st: State): State
  {
    if st.levels == [] then st.(hasRoot := true)
    else
      var n := |st.levels| - 1;
      var top := st.levels[n];
      st.(os := st.os + Separator(top), levels := st.levels[n := top.(valueCount := top.valueCount + 1)])
  }

  /** What Prefix asserts: one root, and a string wherever an object expects a name. */
  predicate MayPrefix(st: State, isString: bool)
  {
    if st.levels == [] then !st.hasRoot
    else
      var top := st.levels[|st.levels| - 1];
      !top.inArray && top.valueCount % 2 == 0 ==> isString
  }

  function Put(st: State, text: string): State
  {
    st.(os := st.os + text)
  }

  function Open(st: State, inArray: bool): State
  {
    var p := Prefix(st);
    p.(os := p.os + (if inArray then "[" else "{"), levels := p.levels + [Level(0, inArray)])
  }

  /** Every assertion of the handler method for the event holds. Doubles are not modelled. */
  predicate Legal(st: State, event: Event)
  {
    match event
    case Double(_) => false
    case EndObject(_) =>
      st.levels != [] && var top := st.levels[|st.levels| - 1]; !top.inArray && top.valueCount % 2 == 0
    case EndArray(_) => st.levels != [] && st.levels[|st.levels| - 1].inArray
    case Int(n) => MayPrefix(st, false) && -0x8000_0000 <= n < 0x8000_0000
    case Uint(n) => MayPrefix(st, false) && 0 <= n < 0x1_0000_0000
    case Int64(n) => MayPrefix(st, false) && -0x8000_0000_0000_0000 <= n < 0x8000_0000_0000_0000
    case Uint64(n) => MayPrefix(st, false) && 0 <= n < 0x1_0000_0000_0000_0000
    case String(_) | Key(_) => MayPrefix(st, true)
    case Null | Bool(_) | StartObject | StartArray => MayPrefix(st, false)
  }

  function WriteStep(st: State, event: Event): State
    requires Legal(st, event)
  {
    match event
    case Null => Put(Prefix(st), "null")
    case Bool(b) => Put(Prefix(st), if b then "true" else "false")
    case Int(n) => Put(Prefix(st), Itoa.Integer(n))
    case Uint(n) => Put(Prefix(st), Itoa.Integer(n))
    case Int64(n) => Put(Prefix(st), Itoa.Integer(n))
    case Uint64(n) => Put(Prefix(st), Itoa.Integer(n))
    case String(s) => Put(Prefix(st), RenderString(s))
    case Key(s) => Put(Prefix(st), RenderString(s))
    case StartObject => Open(st, false)
    case StartArray => Open(st, true)
    case EndObject(_) => State(st.os + "}", st.levels[..|st.levels| - 1], st.hasRoot)
    case EndArray(_) => State(st.os + "]", st.levels[..|st.levels| - 1], st.hasRoot)
  }

  // ----- a run of events --------------------------------------------------

  predicate AllLegal(st: State, events: seq<Event>)
    decreases |events|
  {
    events == [] || (Legal(st, events[0]) && AllLegal(WriteStep(st, events[0]), events[1..]))
  }

  function WriteAll(st: State, events: seq<Event>): State
    requires AllLegal(st, events)
    decreases |events|
  {
    if events == [] then st else WriteAll(WriteStep(st, events[0]), events[1..])
  }

  /** From one state the events are all legal and lead to another. */
  ghost predicate Leads(st: State, events: seq<Event>, end: State)
  {
    AllLegal(st, events) && WriteAll(st, events) == end
  }

  lemma {:induction false} LeadsConcat(st: State, a: seq<Event>, mid: State, b: seq<Event>, end: State)
    requires Leads(st, a, mid) && Leads(mid, b, end)
    ensures Leads(st, a + b, end)
    decreases |a|
  {
    hide Legal, WriteStep;
    if a == [] {
      assert a + b == b;
    } else {
      assert (a + b)[1..] == a[1..] + b;
      LeadsConcat(WriteStep(st, a[0]), a[1..], mid, b, end);
    }
  }

  lemma LeadsOne(st: State, event: Event)
    requires Legal(st, event)
    ensures Leads(st, [event], WriteStep(st, event))
  {
    hide Legal, WriteStep;
    assert [event][1..] == [];
    assert AllLegal(WriteStep(st, event), []);
    assert WriteAll(WriteStep(st, event), []) == WriteStep(st, event);
  }

  lemma LeadsNothing(st: State)
    ensures Leads(st, [], st)
  {
  }

  /** Writing a value adds its separator and its text, counts it, and breaks no assertion. */
  lemma {:induction false} ValueWrites(st: State, v: Value)
    requires Representable(v) && MayPrefix(st, v.StringValue?)
    ensures Leads(st, Events(v, FromTree), Put(Prefix(st), Render(v)))
    decreases v, 1
  {
    match v {
      case ArrayValue(elements) => ArrayWrites(st, elements, v);
      case ObjectValue(members) => ObjectWrites(st, members, v);
      case NullValue | BoolValue(_) | Number(_) | StringValue(_) => LeadsOne(st, Events(v, FromTree)[0]);
      case DoubleValue(_) => assert false;
    }
  }

  lemma {:induction false} ArrayWrites(st: State, elements: seq<Value>, v: Value)
    requires v == ArrayValue(elements) && Representable(v) && MayPrefix(st, false)
    ensures Leads(st, Events(v, FromTree), Put(Prefix(st), Render(v)))
    decreases v, 0
  {
    hide Leads, RenderElements, ElementEvents, Prefix;
    var open := Open(st, true);
    LeadsOne(st, StartArray);
    ElementsWrite(open, Prefix(st).levels, 0, elements);
    var full := State(open.os + RenderElements(elements, true),
                      Prefix(st).levels + [Level(|elements|, true)], open.hasRoot);
    LeadsConcat(st, [StartArray], open, ElementEvents(elements, FromTree), full);
    LeadsOne(full, EndArray(|elements|));
    var end := WriteStep(full, EndArray(|elements|));
    LeadsConcat(st, [StartArray] + ElementEvents(elements, FromTree), full, [EndArray(|elements|)], end);
    assert full.levels[..|full.levels| - 1] == Prefix(st).levels;
    assert end.os == Prefix(st).os + ("[" + RenderElements(elements, true) + "]");
    assert end == Put(Prefix(st), Render(v));
  }

  lemma {:induction false} ElementsWrite(st: State, below: seq<Level>, count: nat, elements: seq<Value>)
    requires st.levels == below + [Level(count, true)]
    requires forall e <- elements :: Representable(e)
    ensures Leads(st, ElementEvents(elements, FromTree),
                  State(st.os + RenderElements(elements, count == 0),
                        below + [Level(count + |elements|, true)], st.hasRoot))
    decreases elements, 0
  {
    hide Events, Render, Leads;
    if elements == [] {
      LeadsNothing(st);
      assert st.os + "" == st.os;
    } else {
      var v, rest := elements[0], elements[1..];
      var mid := Put(Prefix(st), Render(v));
      ValueWrites(st, v);
      assert mid.levels == below + [Level(count + 1, true)];
      ElementsWrite(mid, below, count + 1, rest);
      assert mid.os == st.os + (Comma(count == 0) + Render(v));
      assert mid.os + RenderElements(rest, false) == st.os + RenderElements(elements, count == 0);
      LeadsConcat(st, Events(v, FromTree), mid, ElementEvents(rest, FromTree),
                  State(st.os + RenderElements(elements, count == 0),
                        below + [Level(count + |elements|, true)], st.hasRoot));
    }
  }

  lemma {:induction false} ObjectWrites(st: State, members: seq<Member>, v: Value)
    requires v == ObjectValue(members) && Representable(v) && MayPrefix(st, false)
    ensures Leads(st, Events(v, FromTree), Put(Prefix(st), Render(v)))
    decreases v, 0
  {
    hide Leads, RenderMembers, MemberEvents, Prefix;
    var open := Open(st, false);
    LeadsOne(st, StartObject);
    MembersWrite(open, Prefix(st).levels, 0, members);
    var full := State(open.os + RenderMembers(members, true),
                      Prefix(st).levels + [Level(2 * |members|, false)], open.hasRoot);
    LeadsConcat(st, [StartObject], open, MemberEvents(members, FromTree), full);
    LeadsOne(full, EndObject(|members|));
    var end := WriteStep(full, EndObject(|members|));
    LeadsConcat(st, [StartObject] + MemberEvents(members, FromTree), full, [EndObject(|members|)], end);
    assert full.levels[..|full.levels| - 1] == Prefix(st).levels;
    assert end.os == Prefix(st).os + ("{" + RenderMembers(members, true) + "}");
    assert end == Put(Prefix(st), Render(v));
  }

  lemma NameIsWritten(st: State, below: seq<Level>, count: nat, name: string)
    requires st.levels == below + [Level(2 * count, false)]
    ensures Legal(st, Key(name))
    ensures WriteStep(st, Key(name)) == State(st.os + (Comma(count == 0) + RenderString(name)),
                                              below + [Level(2 * count + 1, false)], st.hasRoot)
  {
    hide RenderString;
    assert st.levels[..|st.levels| - 1] == below;
    assert st.os + Comma(count == 0) + RenderString(name) == st.os + (Comma(count == 0) + RenderString(name));
  }

  lemma ValueIsWritten(st: State, below: seq<Level>, count: nat, text: string)
    requires st.levels == below + [Level(2 * count + 1, false)]
    ensures MayPrefix(st, true) && MayPrefix(st, false)
    ensures Put(Prefix(st), text) == State(st.os + (":" + text), below + [Level(2 * count + 2, false)], st.hasRoot)
  {
    assert st.levels[..|st.levels| - 1] == below;
    assert st.os + ":" + text == st.os + (":" + text);
  }

  lemma {:induction false} MemberWrites(st: State, below: seq<Level>, count: nat, m: Member)
    requires st.levels == below + [Level(2 * count, false)] && Representable(m.value)
    ensures Leads(st, [Key(m.name)] + Events(m.value, FromTree),
                  State(st.os + (Comma(count == 0) + RenderString(m.name) + ":" + Render(m.value)),
                        below + [Level(2 * count + 2, false)], st.hasRoot))
    decreases m.value, 2
  {
    hide *;
    NameIsWritten(st, below, count, m.name);
    var named := WriteStep(st, Key(m.name));
    LeadsOne(st, Key(m.name));
    ValueIsWritten(named, below, count, Render(m.value));
    ValueWrites(named, m.value);
    var start, text := Comma(count == 0) + RenderString(m.name), Render(m.value);
    assert st.os + start + (":" + text) == st.os + (start + ":" + text);
    LeadsConcat(st, [Key(m.name)], named, Events(m.value, FromTree), Put(Prefix(named), text));
  }

  lemma {:induction false} MembersWrite(st: State, below: seq<Level>, count: nat, members: seq<Member>)
    requires st.levels == below + [Level(2 * count, false)]
    requires forall m <- members :: Representable(m.value)
    ensures Leads(st, MemberEvents(members, FromTree),
                  State(st.os + RenderMembers(members, count == 0),
                        below + [Level(2 * (count + |members|), false)], st.hasRoot))
    decreases members, 0
  {
    hide Events, Render, RenderString, Leads;
    if members == [] {
      LeadsNothing(st);
      assert st.os + "" == st.os;
    } else {
      var m, rest := members[0], members[1..];
      var own := Comma(count == 0) + RenderString(m.name) + ":" + Render(m.value);
      var mid := State(st.os + own, below + [Level(2 * count + 2, false)], st.hasRoot);
      MemberWrites(st, below, count, m);
      MembersWrite(mid, below, count + 1, rest);
      assert mid.os + RenderMembers(rest, false) == st.os + RenderMembers(members, count == 0);
      LeadsConcat(st, [Key(m.name)] + Events(m.value, FromTree), mid, MemberEvents(rest, FromTree),
                  State(st.os + RenderMembers(members, count == 0),
                        below + [Level(2 * (count + |members|), false)], st.hasRoot));
    }
  }

  /** A whole document written from the empty state is the rendered tree. */
  lemma TreeWrites(v: Value)
    requires Representable(v)
    ensures Leads(EMPTY, Events(v, FromTree), State(Render(v), [], true))
  {
    ValueWrites(EMPTY, v);
    assert "" + Render(v) == Render(v);
  }

  // ----- the writer object ------------------------------------------------

  class Writer {
    var os: string
    var levels: seq<Level>
    var hasRoot: bool

    constructor ()
      ensures Current() == EMPTY
    {
      os, levels, hasRoot := "", [], false;
    }

    ghost function Current(): State
      reads this
    {
      State(os, levels, hasRoot)
    }

    method WritePrefix()
      modifies this
      ensures Current() == Prefix(old(Current()))
    {
      if |levels| != 0 {
        var n := |levels| - 1;
        var level := levels[n];
        if level.valueCount > 0 {
          if level.inArray {
            os := os + ",";
          } else {
            os := os + (if level.valueCount % 2 == 0 then "," else ":");
          }
        }
        levels := levels[n := level.(valueCount := level.valueCount + 1)];
      } else {
        hasRoot := true;
      }
    }

    method Null()
      requires Legal(Current(), Event.Null)
      modifies this
      ensures Current() == WriteStep(old(Current()), Event.Null)
    {
      WritePrefix();
      os := os + "null";
    }

    method Bool(b: bool)
      requires Legal(Current(), Event.Bool(b))
      modifies this
      ensures Current() == WriteStep(old(Current()), Event.Bool(b))
    {
      WritePrefix();
      os := os + (if b then "true" else "false");
    }

    method Int(i: int)
      requires Legal(Current(), Event.Int(i))
      modifies this
      ensures Current() == WriteStep(old(Current()), Event.Int(i))
    {
      WritePrefix();
      os := Itoa.I32toa(i, os);
    }

    method Uint(u: int)
      requires Legal(Current(), Event.Uint(u))
      modifies this
      ensures Current() == WriteStep(old(Current()), Event.Uint(u))
    {
      WritePrefix();
      os := Itoa.U32toa(u, os);
    }

    method Int64(i64: int)
      requires Legal(Current(), Event.Int64(i64))
      modifies this
      ensures Current() == WriteStep(old(Current()), Event.Int64(i64))
    {
      WritePrefix();
      os := Itoa.I64toa(i64, os);
    }

    method Uint64(u64: int)
      requires Legal(Current(), Event.Uint64(u64))
      modifies this
      ensures Current() == WriteStep(old(Current()), Event.Uint64(u64))
    {
      WritePrefix();
      os := Itoa.U64toa(u64, os);
    }

    method WriteChar(c: char)
      modifies this`os
      ensures os == old(os) + EscapeChar(c)
    {
      if EscapeLetter(c).Some? {
        os := os + ['\\'] + [EscapeLetter(c).value];
        if EscapeLetter(c) == Some('u') {
          os := os + ['0'] + ['0'] + [HexDigit(c as int / 16)] + [HexDigit(c as int % 16)];
        }
      } else {
        os := os + [c];
      }
    }

    method WriteString(s: string)
      modifies this`os
      ensures os == old(os) + RenderString(s)
    {
      hide EscapeChar;
      os := os + "\"";
      ghost var start := os;
      for i := 0 to |s|
        invariant os == start + EscapeText(s[..i])
      {
        EscapeTextAppend(s[..i], s[i]);
        assert s[..i] + [s[i]] == s[..i + 1];
        WriteChar(s[i]);
      }
      assert s[..|s|] == s;
      os := os + "\"";
    }

    method String(s: string)
      requires Legal(Current(), Event.String(s))
      modifies this
      ensures Current() == WriteStep(old(Current()), Event.String(s))
    {
      WritePrefix();
      WriteString(s);
    }

    method Key(s: string)
      requires Legal(Current(), Event.Key(s))
      modifies this
      ensures Current() == WriteStep(old(Current()), Event.Key(s))
    {
      String(s);
    }

    method StartObject()
      requires Legal(Current(), Event.StartObject)
      modifies this
      ensures Current() == WriteStep(old(Current()), Event.StartObject)
    {
      WritePrefix();
      levels := levels + [Level(0, false)];
      os := os + "{";
    }

    method EndObject(memberCount: nat)
      requires Legal(Current(), Event.EndObject(memberCount))
      modifies this
      ensures Current() == WriteStep(old(Current()), Event.EndObject(memberCount))
    {
      levels := levels[..|levels| - 1];
      os := os + "}";
    }

    method StartArray()
      requires Legal(Current(), Event.StartArray)
      modifies this
      ensures Current() == WriteStep(old(Current()), Event.StartArray)
    {
      WritePrefix();
      levels := levels + [Level(0, true)];
      os := os + "[";
    }

    method EndArray(elementCount: nat)
      requires Legal(Current(), Event.EndArray(elementCount))
      modifies this
      ensures Current() == WriteStep(old(Current()), Event.EndArray(elementCount))
    {
      levels := levels[..|levels| - 1];
      os := os + "]";
    }
  }

  lemma {:induction false} EscapeTextAppend(s: string, c: char)
    ensures EscapeText(s + [c]) == EscapeText(s) + EscapeChar(c)
    decreases |s|
  {
    hide EscapeChar;
    if s == "" {
      assert s + [c] == [c];
      assert [c][1..] == "";
      assert EscapeText([c]) == EscapeChar(c) + "";
    } else {
      assert (s + [c])[1..] == s[1..] + [c];
      EscapeTextAppend(s[1..], c);
    }
  }

  // ----- the traversal ----------------------------------------------------

  lemma {:induction false} RenderElementsAppend(elements: seq<Value>, e: Value, first: bool)
    ensures RenderElements(elements + [e], first)
         == RenderElements(elements, first) + Comma(first && elements == []) + Render(e)
    decreases |elements|
  {
    hide Render;
    var all := elements + [e];
    if elements == [] {
      assert all == [e] && all[1..] == [];
      assert RenderElements(all, first) == Comma(first) + Render(e) + "";
    } else {
      assert all[1..] == elements[1..] + [e];
      RenderElementsAppend(elements[1..], e, false);
      assert all[0] == elements[0];
    }
  }

  lemma {:induction false} RenderMembersAppend(members: seq<Member>, m: Member, first: bool)
    ensures RenderMembers(members + [m], first)
         == RenderMembers(members, first)
            + (Comma(first && members == []) + RenderString(m.name) + ":" + Render(m.value))
    decreases |members|
  {
    hide Render, RenderString;
    var all := members + [m];
    if members == [] {
      assert all == [m] && all[1..] == [];
      assert RenderMembers(all, first) == Comma(first) + RenderString(m.name) + ":" + Render(m.value) + "";
    } else {
      assert all[1..] == members[1..] + [m];
      RenderMembersAppend(members[1..], m, false);
      assert all[0] == members[0];
    }
  }

  /** Sends a tree to the writer, recursing into members and elements. The writer gains the
      separator and the text of the tree; no assertion in it fails. */
  method Accept(v: Value, w: Writer)
    requires Representable(v) && MayPrefix(w.Current(), v.StringValue?)
    modifies w
    ensures w.Current() == Put(Prefix(old(w.Current())), Render(v))
    decreases v, 1
  {
    hide Prefix, RenderString, Itoa.Integer, RenderElements, RenderMembers;
    match v {
      case NullValue => w.Null();
      case BoolValue(b) => w.Bool(b);
      case Number(n) =>
        if -0x8000_0000 <= n < 0x8000_0000 {
          w.Int(n);
        } else if 0 <= n < 0x1_0000_0000 {
          w.Uint(n);
        } else if n < 0x8000_0000_0000_0000 {
          w.Int64(n);
        } else {
          w.Uint64(n);
        }
      case StringValue(s) => w.String(s);
      case ObjectValue(members) => AcceptObject(members, v, w);
      case ArrayValue(elements) => AcceptArray(elements, v, w);
      case DoubleValue(_) => assert false;
    }
  }

  /** Inside an array after its first elements, opened from a state whose prefix is p. */
  ghost function InArray(p: State, elements: seq<Value>): State
  {
    State(p.os + "[" + RenderElements(elements, true), p.levels + [Level(|elements|, true)], p.hasRoot)
  }

  lemma InArraySteps(p: State, elements: seq<Value>, e: Value)
    ensures var st := InArray(p, elements);
            MayPrefix(st, e.StringValue?) && Put(Prefix(st), Render(e)) == InArray(p, elements + [e])
    ensures InArray(p, []) == State(p.os + "[", p.levels + [Level(0, true)], p.hasRoot)
  {
    hide Render;
    RenderElementsAppend(elements, e, true);
    var st := InArray(p, elements);
    assert Put(Prefix(st), Render(e)).levels == p.levels + [Level(|elements| + 1, true)];
    assert p.os + "[" + RenderElements([], true) == p.os + "[";
  }

  lemma InArrayEnds(p: State, elements: seq<Value>)
    ensures var st := InArray(p, elements);
            Legal(st, Event.EndArray(|elements|))
            && WriteStep(st, Event.EndArray(|elements|)) == Put(p, Render(ArrayValue(elements)))
    ensures InArray(p, []) == State(p.os + "[", p.levels + [Level(0, true)], p.hasRoot)
  {
    hide RenderElements;
    assert RenderElements([], true) == "" by { EmptyRuns(); }
    var st := InArray(p, elements);
    assert st.levels[..|st.levels| - 1] == p.levels;
    assert p.os + ("[" + RenderElements(elements, true) + "]") == st.os + "]";
  }

  method AcceptArray(elements: seq<Value>, ghost v: Value, w: Writer)
    requires v == ArrayValue(elements) && Representable(v) && MayPrefix(w.Current(), false)
    modifies w
    ensures w.Current() == Put(Prefix(old(w.Current())), Render(v))
    decreases v, 0
  {
    hide Render, InArray, Prefix, MayPrefix;
    ghost var p := Prefix(w.Current());
    w.StartArray();
    InArrayEnds(p, elements);
    assert elements[..0] == [];
    for i := 0 to |elements|
      invariant w.Current() == InArray(p, elements[..i])
    {
      InArraySteps(p, elements[..i], elements[i]);
      assert elements[..i] + [elements[i]] == elements[..i + 1];
      Accept(elements[i], w);
    }
    assert elements[..|elements|] == elements;
    w.EndArray(|elements|);
  }

  lemma EmptyRuns()
    ensures RenderElements([], true) == "" && RenderMembers([], true) == ""
  {
  }

  /** Inside an object after its first members, and after one more name when named is set. */
  ghost function InObject(p: State, members: seq<Member>, name: Option<string>): State
  {
    var text := p.os + "{" + RenderMembers(members, true);
    if name.None? then State(text, p.levels + [Level(2 * |members|, false)], p.hasRoot)
    else State(text + Comma(members == []) + RenderString(name.value),
               p.levels + [Level(2 * |members| + 1, false)], p.hasRoot)
  }

  lemma InObjectSteps(p: State, members: seq<Member>, m: Member)
    ensures var st := InObject(p, members, None);
            && MayPrefix(st, true)
            && Put(Prefix(st), RenderString(m.name)) == InObject(p, members, Some(m.name))
    ensures var st := InObject(p, members, Some(m.name));
            && MayPrefix(st, m.value.StringValue?)
            && Put(Prefix(st), Render(m.value)) == InObject(p, members + [m], None)
  {
    hide Render, RenderString, RenderMembers;
    RenderMembersAppend(members, m, true);
    var st, named := InObject(p, members, None), InObject(p, members, Some(m.name));
    assert Put(Prefix(st), RenderString(m.name)).levels == p.levels + [Level(2 * |members| + 1, false)];
    assert Put(Prefix(named), Render(m.value)).levels == p.levels + [Level(2 * (|members| + 1), false)];
    assert Put(Prefix(named), Render(m.value)).os
        == p.os + "{" + (RenderMembers(members, true)
                         + (Comma(members == []) + RenderString(m.name) + ":" + Render(m.value)));
  }

  lemma InObjectEnds(p: State, members: seq<Member>)
    ensures var st := InObject(p, members, None);
            Legal(st, Event.EndObject(|members|))
            && WriteStep(st, Event.EndObject(|members|)) == Put(p, Render(ObjectValue(members)))
    ensures InObject(p, [], None) == State(p.os + "{", p.levels + [Level(0, false)], p.hasRoot)
  {
    hide RenderMembers;
    assert RenderMembers([], true) == "" by { EmptyRuns(); }
    var st := InObject(p, members, None);
    assert st.levels[..|st.levels| - 1] == p.levels;
    assert p.os + ("{" + RenderMembers(members, true) + "}") == st.os + "}";
  }

  method AcceptObject(members: seq<Member>, ghost v: Value, w: Writer)
    requires v == ObjectValue(members) && Representable(v) && MayPrefix(w.Current(), false)
    modifies w
    ensures w.Current() == Put(Prefix(old(w.Current())), Render(v))
    decreases v, 0
  {
    hide Render, RenderString, InObject, Prefix, MayPrefix;
    ghost var p := Prefix(w.Current());
    w.StartObject();
    InObjectEnds(p, members);
    assert members[..0] == [];
    for i := 0 to |members|
      invariant w.Current() == InObject(p, members[..i], None)
    {
      var m := members[i];
      InObjectSteps(p, members[..i], m);
      assert members[..i] + [m] == members[..i + 1];
      w.Key(m.name);
      Accept(m.value, w);
    }
    assert members[..|members|] == members;
    w.EndObject(|members|);
  }

  /** The text of a tree, written from an empty writer. */
  method Stringify(v: Value) returns (text: string)
    requires Representable(v)
    ensures text == Render(v)
  {
    var w := new Writer();
    Accept(v, w);
    assert "" + Render(v) == Render(v);
    text := w.os;
  }
}

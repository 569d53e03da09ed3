/** The document object of utils/rapidjson/document.h: a parse handler that keeps the values
    under construction on one flat stack. */
module JsonDocument {
  import opened Wrappers
  import opened JsonText
  import opened JsonTree
  import JsonParsers
  import JsonReader
  import JsonRoundTrip
  import JsonWriter
  import NumberTheory

  class Document {
    var stack: seq<Value>

    constructor ()
      ensures stack == []
    {
      stack := [];
    }

    method Push(v: Value)
      modifies this
      ensures stack == old(stack) + [v]
    {
      stack := stack + [v];
    }

    /** Replaces the open object below its 2 * memberCount entries by the object of those members. */
    method EndObject(memberCount: nat)
      requires BuildStep(stack, Event.EndObject(memberCount)).Some?
      modifies this
      ensures BuildStep(old(stack), Event.EndObject(memberCount)) == Some(stack)
    {
      var base := |stack| - 2 * memberCount;
      var entries := stack[base..];
      assert |entries| == 2 * memberCount;
      var members: seq<Member> := [];
      var i := memberCount;
      while i > 0
        invariant 0 <= i <= memberCount && stack == old(stack)
        invariant PairUp(entries[2 * i..]) == Some(members)
      {
        i := i - 1;
        PairUpStep(entries, i);
        members := [Member(entries[2 * i].s, entries[2 * i + 1])] + members;
      }
      assert entries[0..] == entries;
      stack := stack[..base - 1] + [ObjectValue(members)];
    }

    method EndArray(elementCount: nat)
      requires BuildStep(stack, Event.EndArray(elementCount)).Some?
      modifies this
      ensures BuildStep(old(stack), Event.EndArray(elementCount)) == Some(stack)
    {
      var base := |stack| - elementCount;
      stack := stack[..base - 1] + [ArrayValue(stack[base..])];
    }

    method Handle(event: Event)
      requires BuildStep(stack, event).Some?
      modifies this
      ensures BuildStep(old(stack), event) == Some(stack)
    {
      match event {
        case Null => Push(NullValue);
        case Bool(b) => Push(BoolValue(b));
        case Int(n) => Push(Number(n));
        case Uint(n) => Push(Number(n));
        case Int64(n) => Push(Number(n));
        case Uint64(n) => Push(Number(n));
        case Double(lexeme) => Push(DoubleValue(lexeme));
        case String(s) => Push(StringValue(s));
        case Key(s) => Push(StringValue(s));
        case StartObject => Push(ObjectValue([]));
        case StartArray => Push(ArrayValue([]));
        case EndObject(count) => EndObject(count);
        case EndArray(count) => EndArray(count);
      }
    }
  }

  /** Where the entries pair up as a whole, every name is a string and every tail pairs up too. */
  lemma {:induction false} PairUpTail(entries: seq<Value>, k: nat)
    requires |entries| % 2 == 0 && 2 * k <= |entries| && PairUp(entries).Some?
    ensures PairUp(entries[2 * k..]).Some?
    decreases k
  {
    if k == 0 {
      assert entries[0..] == entries;
    } else {
      PairUpTail(entries[2..], k - 1);
      assert entries[2..][2 * (k - 1)..] == entries[2 * k..];
    }
  }

  lemma PairUpStep(entries: seq<Value>, k: nat)
    requires |entries| % 2 == 0 && 2 * k < |entries| && PairUp(entries).Some?
    ensures entries[2 * k].StringValue? && PairUp(entries[2 * k + 2..]).Some?
    ensures PairUp(entries[2 * k..])
         == Some([Member(entries[2 * k].s, entries[2 * k + 1])] + PairUp(entries[2 * k + 2..]).value)
  {
    PairUpTail(entries, k);
    assert entries[2 * k..][2..] == entries[2 * k + 2..];
  }

  // ----- counting entries -------------------------------------------------

  /** The innermost open container gets k more entries. */
  function Bumped(open: seq<nat>, k: nat): seq<nat>
  {
    if open == [] then [] else open[..|open| - 1] + [open[|open| - 1] + k]
  }

  /** No array and no object is closed after 2^32 or more entries; open holds the entries so far
      of those that are open. */
  predicate CountsFit(open: seq<nat>, events: seq<Event>)
    decreases |events|
  {
    events != [] ==>
      match events[0]
      case StartObject => CountsFit(open + [0], events[1..])
      case StartArray => CountsFit(open + [0], events[1..])
      case EndObject(_) =>
        && open != [] && open[|open| - 1] < JsonParsers.SIZE_LIMIT
        && CountsFit(Bumped(open[..|open| - 1], 1), events[1..])
      case EndArray(_) =>
        && open != [] && open[|open| - 1] < JsonParsers.SIZE_LIMIT
        && CountsFit(Bumped(open[..|open| - 1], 1), events[1..])
      case Key(_) => CountsFit(open, events[1..])
      case _ => CountsFit(Bumped(open, 1), events[1..])
  }

  /** The events are k entries, and the containers among them fit or not. */
  ghost predicate Counts(events: seq<Event>, k: nat, fits: bool)
  {
    forall open: seq<nat>, rest :: CountsFit(open, events + rest) <==> fits && CountsFit(Bumped(open, k), rest)
  }

  lemma {:induction false} BumpedTwice(open: seq<nat>, j: nat, k: nat)
    ensures Bumped(Bumped(open, j), k) == Bumped(open, j + k)
    ensures Bumped(open, 0) == open && Bumped(open + [0], k) == open + [k]
  {
  }

  lemma {:induction false} CountsConcat(a: seq<Event>, j: nat, f: bool, b: seq<Event>, k: nat, g: bool)
    requires Counts(a, j, f) && Counts(b, k, g)
    ensures Counts(a + b, j + k, f && g)
  {
    hide CountsFit, Bumped;
    forall open: seq<nat>, rest: seq<Event>
      ensures CountsFit(open, a + b + rest) <==> f && g && CountsFit(Bumped(open, j + k), rest)
    {
      assert a + b + rest == a + (b + rest);
      BumpedTwice(open, j, k);
    }
  }

  predicate IsScalar(event: Event)
  {
    !event.StartArray? && !event.StartObject? && !event.EndArray? && !event.EndObject? && !event.Key?
  }

  lemma {:induction false} CountsStep(open: seq<nat>, event: Event, rest: seq<Event>)
    ensures IsScalar(event) ==> (CountsFit(open, [event] + rest) <==> CountsFit(Bumped(open, 1), rest))
    ensures event.Key? ==> (CountsFit(open, [event] + rest) <==> CountsFit(open, rest))
    ensures event.StartArray? || event.StartObject? ==> (CountsFit(open, [event] + rest) <==> CountsFit(open + [0], rest))
  {
    assert ([event] + rest)[1..] == rest;
  }

  lemma {:induction false} CountsEnd(open: seq<nat>, k: nat, event: Event, rest: seq<Event>)
    requires event.EndArray? || event.EndObject?
    ensures CountsFit(open + [k], [event] + rest) <==> k < JsonParsers.SIZE_LIMIT && CountsFit(Bumped(open, 1), rest)
  {
    assert ([event] + rest)[1..] == rest && (open + [k])[..|open|] == open;
  }

  lemma {:induction false} CountsOne(event: Event)
    ensures IsScalar(event) ==> Counts([event], 1, true)
    ensures event.Key? ==> Counts([event], 0, true)
  {
    hide CountsFit, Bumped;
    forall open: seq<nat>, rest: seq<Event>
      ensures IsScalar(event) ==> (CountsFit(open, [event] + rest) <==> CountsFit(Bumped(open, 1), rest))
      ensures event.Key? ==> (CountsFit(open, [event] + rest) <==> CountsFit(Bumped(open, 0), rest))
    {
      CountsStep(open, event, rest);
      BumpedTwice(open, 0, 0);
    }
  }

  lemma {:induction false} CountsContainer(first: Event, middle: seq<Event>, last: Event, k: nat, fits: bool)
    requires first.StartArray? || first.StartObject?
    requires last.EndArray? || last.EndObject?
    requires Counts(middle, k, fits)
    ensures Counts([first] + middle + [last], 1, fits && k < JsonParsers.SIZE_LIMIT)
  {
    hide CountsFit, Bumped;
    var events, all := [first] + middle + [last], fits && k < JsonParsers.SIZE_LIMIT;
    forall open: seq<nat>, rest: seq<Event> {:trigger CountsFit(open, events + rest)}
      ensures CountsFit(open, events + rest) <==> all && CountsFit(Bumped(open, 1), rest)
    {
      assert events + rest == [first] + (middle + ([last] + rest));
      CountsStep(open, first, middle + ([last] + rest));
      BumpedTwice(open, 0, k);
      CountsEnd(open, k, last, rest);
    }
  }

  // ----- growth of the stack ----------------------------------------------

  /** The stack grows by n values at least, and by more where a count does not fit. */
  ghost predicate Grows(events: seq<Event>, n: nat, fits: bool)
  {
    forall stack :: Build(stack, events).Some? ==>
      |stack| + n <= |Build(stack, events).value| && (!fits ==> |stack| + n < |Build(stack, events).value|)
  }

  lemma {:induction false} GrowsConcat(a: seq<Event>, m: nat, f: bool, b: seq<Event>, n: nat, g: bool)
    requires Grows(a, m, f) && Grows(b, n, g)
    ensures Grows(a + b, m + n, f && g)
  {
    hide Build;
    forall stack | Build(stack, a + b).Some?
      ensures |stack| + m + n <= |Build(stack, a + b).value|
      ensures !(f && g) ==> |stack| + m + n < |Build(stack, a + b).value|
    {
      JsonRoundTrip.BuildConcat(stack, a, b);
    }
  }

  lemma {:induction false} GrowsOne(event: Event)
    requires IsScalar(event) || event.Key?
    ensures Grows([event], 1, true)
  {
    forall stack
      ensures Build(stack, [event]).Some? ==> |Build(stack, [event]).value| == |stack| + 1
    {
      JsonRoundTrip.BuildOne(stack, event);
    }
  }

  /** What a container leaves on the stack when its count c stands for k entries. */
  lemma {:induction false} GrowsContainer(first: Event, middle: seq<Event>, last: Event, k: nat, fits: bool)
    requires var c := k % JsonParsers.SIZE_LIMIT;
             || (first == StartArray && last == EndArray(c) && Grows(middle, k, fits))
             || (first == StartObject && last == EndObject(c) && Grows(middle, 2 * k, fits))
    ensures Grows([first] + middle + [last], 1, fits && k < JsonParsers.SIZE_LIMIT)
  {
    hide Build;
    forall stack | Build(stack, [first] + middle + [last]).Some?
      ensures |stack| + 1 <= |Build(stack, [first] + middle + [last]).value|
      ensures !(fits && k < JsonParsers.SIZE_LIMIT) ==> |stack| + 1 < |Build(stack, [first] + middle + [last]).value|
    {
      ContainerSteps(stack, first, middle, last);
      ModSmaller(k);
    }
  }

  lemma ModSmaller(k: nat)
    ensures k % JsonParsers.SIZE_LIMIT <= k
    ensures k >= JsonParsers.SIZE_LIMIT ==> k % JsonParsers.SIZE_LIMIT < k
    ensures k < JsonParsers.SIZE_LIMIT ==> k % JsonParsers.SIZE_LIMIT == k
  {
  }

  lemma {:induction false} ContainerSteps(stack: seq<Value>, first: Event, middle: seq<Event>, last: Event)
    requires first.StartArray? || first.StartObject?
    requires last.EndArray? || last.EndObject?
    requires Build(stack, [first] + middle + [last]).Some?
    ensures var open := stack + [if first.StartArray? then ArrayValue([]) else ObjectValue([])];
            && Build(open, middle).Some?
            && |Build(stack, [first] + middle + [last]).value|
            == |Build(open, middle).value| - (if last.EndArray? then last.count else 2 * last.count)
  {
    hide Build, PairUp;
    JsonRoundTrip.BuildConcat(stack, [first] + middle, [last]);
    JsonRoundTrip.BuildConcat(stack, [first], middle);
    JsonRoundTrip.BuildOne(stack, first);
    var open := stack + [if first.StartArray? then ArrayValue([]) else ObjectValue([])];
    JsonRoundTrip.BuildOne(Build(open, middle).value, last);
  }

  // ----- every accepted text is one tree ----------------------------------

  /** The events push v and nothing else, from any stack. */
  ghost predicate Pushes(events: seq<Event>, v: seq<Value>)
  {
    forall stack :: Build(stack, events) == Some(stack + v)
  }

  /** The events spell k entries: they push their values when all counts fit, and leave more on
      the stack when one does not. */
  ghost predicate Spells(events: seq<Event>, values: seq<Value>, k: nat, fits: bool)
  {
    Counts(events, k, fits) && Grows(events, |values|, fits) && (fits ==> Pushes(events, values))
  }

  lemma {:induction false} PushesConcat(a: seq<Event>, v: seq<Value>, b: seq<Event>, w: seq<Value>)
    requires Pushes(a, v) && Pushes(b, w)
    ensures Pushes(a + b, v + w)
  {
    hide Build;
    forall stack
      ensures Build(stack, a + b) == Some(stack + (v + w))
    {
      JsonRoundTrip.BuildConcat(stack, a, b);
      assert stack + v + w == stack + (v + w);
    }
  }

  lemma {:induction false} PushesOne(event: Event, v: Value)
    requires forall stack :: BuildStep(stack, event) == Some(stack + [v])
    ensures Pushes([event], [v])
  {
    forall stack
      ensures Build(stack, [event]) == Some(stack + [v])
    {
      JsonRoundTrip.BuildOne(stack, event);
    }
  }

  lemma {:induction false} PushesArray(middle: seq<Event>, elements: seq<Value>)
    requires Pushes(middle, elements)
    ensures Pushes([StartArray] + middle + [EndArray(|elements|)], [ArrayValue(elements)])
  {
    forall stack
      ensures Build(stack, [StartArray] + middle + [EndArray(|elements|)]) == Some(stack + [ArrayValue(elements)])
    {
      hide Build;
      var open := stack + [ArrayValue([])];
      JsonRoundTrip.BuildThree(stack, StartArray, middle, EndArray(|elements|), open, open + elements);
      assert (open + elements)[..|stack|] == stack;
      assert (open + elements)[|stack| + 1..] == elements;
    }
  }

  lemma {:induction false} PushesObject(middle: seq<Event>, members: seq<Member>)
    requires Pushes(middle, JsonRoundTrip.Flatten(members))
    ensures Pushes([StartObject] + middle + [EndObject(|members|)], [ObjectValue(members)])
  {
    JsonRoundTrip.PairUpFlatten(members);
    var entries := JsonRoundTrip.Flatten(members);
    forall stack
      ensures Build(stack, [StartObject] + middle + [EndObject(|members|)]) == Some(stack + [ObjectValue(members)])
    {
      hide Build, PairUp, JsonRoundTrip.Flatten;
      var open := stack + [ObjectValue([])];
      JsonRoundTrip.BuildThree(stack, StartObject, middle, EndObject(|members|), open, open + entries);
      assert (open + entries)[..|stack|] == stack;
      assert (open + entries)[|stack| + 1..] == entries;
    }
  }

  lemma {:induction false} SpellsConcat(a: seq<Event>, v: seq<Value>, j: nat, f: bool,
                                        b: seq<Event>, w: seq<Value>, k: nat, g: bool)
    requires Spells(a, v, j, f) && Spells(b, w, k, g)
    ensures Spells(a + b, v + w, j + k, f && g)
  {
    hide Counts, Grows, Pushes;
    CountsConcat(a, j, f, b, k, g);
    GrowsConcat(a, |v|, f, b, |w|, g);
    if f && g {
      PushesConcat(a, v, b, w);
    }
  }

  lemma {:induction false} SpellsNothing()
    ensures Spells([], [], 0, true)
  {
    hide CountsFit;
    forall open: seq<nat>, rest: seq<Event>
      ensures CountsFit(open, [] + rest) <==> CountsFit(Bumped(open, 0), rest)
    {
      assert [] + rest == rest;
      BumpedTwice(open, 0, 0);
    }
    assert forall stack: seq<Value> :: stack + [] == stack;
  }

  lemma {:induction false} SpellsOne(event: Event, v: Value)
    requires IsScalar(event) || event.Key?
    requires forall stack :: BuildStep(stack, event) == Some(stack + [v])
    ensures Spells([event], [v], if event.Key? then 0 else 1, true)
  {
    hide Counts, Grows, Pushes;
    CountsOne(event);
    GrowsOne(event);
    PushesOne(event, v);
  }

  lemma {:induction false} SpellsArray(middle: seq<Event>, elements: seq<Value>, fits: bool)
    requires Spells(middle, elements, |elements|, fits)
    ensures Spells([StartArray] + middle + [EndArray(|elements| % JsonParsers.SIZE_LIMIT)], [ArrayValue(elements)], 1,
                   fits && |elements| < JsonParsers.SIZE_LIMIT)
  {
    hide Counts, Grows, Pushes;
    var last := EndArray(|elements| % JsonParsers.SIZE_LIMIT);
    CountsContainer(StartArray, middle, last, |elements|, fits);
    GrowsContainer(StartArray, middle, last, |elements|, fits);
    if fits && |elements| < JsonParsers.SIZE_LIMIT {
      PushesArray(middle, elements);
    }
  }

  lemma {:induction false} SpellsObject(middle: seq<Event>, members: seq<Member>, fits: bool)
    requires Spells(middle, JsonRoundTrip.Flatten(members), |members|, fits)
    ensures Spells([StartObject] + middle + [EndObject(|members| % JsonParsers.SIZE_LIMIT)], [ObjectValue(members)], 1,
                   fits && |members| < JsonParsers.SIZE_LIMIT)
  {
    hide Counts, Grows, Pushes;
    var last := EndObject(|members| % JsonParsers.SIZE_LIMIT);
    JsonRoundTrip.PairUpFlatten(members);
    CountsContainer(StartObject, middle, last, |members|, fits);
    GrowsContainer(StartObject, middle, last, |members|, fits);
    if fits && |members| < JsonParsers.SIZE_LIMIT {
      PushesObject(middle, members);
    }
  }

  /** What an accepted value spells. Short texts have no container that large. */
  lemma {:induction false} ValueIsTree(src: Source, pos: nat, events: seq<Event>)
      returns (sent: seq<Event>, v: Value, fits: bool)
    requires pos <= |src.text|
    requires JsonParsers.ParseValue(src, pos, events).Accepted?
    ensures JsonParsers.ParseValue(src, pos, events).events == events + sent && Spells(sent, [v], 1, fits)
    ensures |src.text| < JsonParsers.SIZE_LIMIT ==> fits
    decreases |src.text| - pos, 0
  {
    hide Spells;
    var c := Peek(src.text, pos);
    if c == '[' {
      sent, v, fits := ArrayIsTree(src, pos, events);
    } else if c == '{' {
      sent, v, fits := ObjectIsTree(src, pos, events);
    } else {
      var event := ScalarEvent(src, pos, events);
      sent, v, fits := [event], BuildStep([], event).value[0], true;
      SpellsOne(event, v);
    }
  }

  /** A scalar sends exactly one event, which pushes one value. */
  lemma ScalarEvent(src: Source, pos: nat, events: seq<Event>) returns (event: Event)
    requires pos <= |src.text| && Peek(src.text, pos) !in {'[', '{'}
    requires JsonParsers.ParseValue(src, pos, events).Accepted?
    ensures JsonParsers.ParseValue(src, pos, events).events == events + [event] && IsScalar(event)
  {
    var o := JsonParsers.ParseValue(src, pos, events);
    event := o.events[|events|];
  }

  lemma {:induction false} ArrayIsTree(src: Source, pos: nat, events: seq<Event>)
      returns (sent: seq<Event>, v: Value, fits: bool)
    requires pos < |src.text|
    requires JsonParsers.ParseArray(src, pos, events).Accepted?
    ensures JsonParsers.ParseArray(src, pos, events).events == events + sent && Spells(sent, [v], 1, fits)
    ensures |src.text| < JsonParsers.SIZE_LIMIT ==> fits
    decreases |src.text| - pos - 1, 2
  {
    hide JsonParsers.ParseElements, Spells, SkipWhitespace;
    var p := SkipWhitespace(src.text, pos + 1);
    var middle, elements := [], [];
    fits := true;
    if Peek(src.text, p) == ']' {
      SpellsNothing();
    } else {
      middle, elements, fits := ElementsAreTrees(src, p, events + [StartArray], 0);
    }
    var c := |elements| % JsonParsers.SIZE_LIMIT;
    SpellsArray(middle, elements, fits);
    sent, v, fits := [StartArray] + middle + [EndArray(c)], ArrayValue(elements), fits && |elements| < JsonParsers.SIZE_LIMIT;
    assert events + sent == events + [StartArray] + middle + [EndArray(c)];
    assert events + sent == events + [StartArray] + [EndArray(0)] || |elements| > 0;
  }

  lemma {:induction false} ElementsAreTrees(src: Source, pos: nat, events: seq<Event>, count: nat)
      returns (sent: seq<Event>, elements: seq<Value>, fits: bool)
    requires pos <= |src.text|
    requires JsonParsers.ParseElements(src, pos, events, count).Accepted?
    ensures JsonParsers.ParseElements(src, pos, events, count).events
         == events + sent + [EndArray((count + |elements|) % JsonParsers.SIZE_LIMIT)]
    ensures elements != [] && pos + |elements| <= |src.text| && Spells(sent, elements, |elements|, fits)
    ensures |src.text| < JsonParsers.SIZE_LIMIT ==> fits
    decreases |src.text| - pos, 1
  {
    hide JsonParsers.ParseValue, Spells, SkipWhitespace;
    var own, v, one := ValueIsTree(src, pos, events);
    var value := JsonParsers.ParseValue(src, pos, events);
    var end := SkipWhitespace(src.text, value.pos);
    if Peek(src.text, end) == ',' {
      var start := SkipWhitespace(src.text, end + 1);
      var more, rest, others := ElementsAreTrees(src, start, value.events, JsonParsers.Increment(count));
      sent, elements, fits := own + more, [v] + rest, one && others;
      SpellsConcat(own, [v], 1, one, more, rest, |rest|, others);
      NumberTheory.ModAdd(count + 1, |rest|, JsonParsers.SIZE_LIMIT);
      assert events + sent == events + own + more;
    } else {
      sent, elements, fits := own, [v], one;
    }
  }

  lemma {:induction false} ObjectIsTree(src: Source, pos: nat, events: seq<Event>)
      returns (sent: seq<Event>, v: Value, fits: bool)
    requires pos < |src.text|
    requires JsonParsers.ParseObject(src, pos, events).Accepted?
    ensures JsonParsers.ParseObject(src, pos, events).events == events + sent && Spells(sent, [v], 1, fits)
    ensures |src.text| < JsonParsers.SIZE_LIMIT ==> fits
    decreases |src.text| - pos - 1, 2
  {
    hide JsonParsers.ParseMembers, Spells, SkipWhitespace, JsonRoundTrip.Flatten;
    var p := SkipWhitespace(src.text, pos + 1);
    var middle: seq<Event>, members: seq<Member> := [], [];
    fits := true;
    if Peek(src.text, p) == '}' {
      SpellsNothing();
      FlattenNothing();
    } else {
      middle, members, fits := MembersAreTrees(src, p, events + [StartObject], 0);
    }
    var c := |members| % JsonParsers.SIZE_LIMIT;
    SpellsObject(middle, members, fits);
    sent, v, fits := [StartObject] + middle + [EndObject(c)], ObjectValue(members), fits && |members| < JsonParsers.SIZE_LIMIT;
    assert events + sent == events + [StartObject] + middle + [EndObject(c)];
    assert events + sent == events + [StartObject] + [EndObject(0)] || |members| > 0;
  }

  lemma FlattenNothing()
    ensures JsonRoundTrip.Flatten([]) == []
  {
  }

  lemma NameEvent(src: Source, pos: nat, events: seq<Event>) returns (name: string)
    requires pos <= |src.text| && JsonParsers.ParseName(src, pos, events).Accepted?
    ensures JsonParsers.ParseName(src, pos, events).events == events + [Key(name)]
  {
    name := JsonParsers.ParseName(src, pos, events).events[|events|].s;
  }

  /** A name, its value, and the position after both. */
  lemma {:induction false} MemberIsTree(src: Source, pos: nat, events: seq<Event>)
      returns (sent: seq<Event>, m: Member, fits: bool)
    requires pos <= |src.text|
    requires JsonParsers.ParseName(src, pos, events).Accepted?
    requires var name := JsonParsers.ParseName(src, pos, events);
             JsonParsers.ParseValue(src, name.pos, name.events).Accepted?
    ensures var name := JsonParsers.ParseName(src, pos, events);
            JsonParsers.ParseValue(src, name.pos, name.events).events == events + sent
    ensures Spells(sent, JsonRoundTrip.Flatten([m]), 1, fits)
    ensures |src.text| < JsonParsers.SIZE_LIMIT ==> fits
    decreases |src.text| - pos, 0
  {
    hide JsonParsers.ParseValue, JsonParsers.ParseName, Spells;
    var name := NameEvent(src, pos, events);
    var start := JsonParsers.ParseName(src, pos, events);
    var inner, v, one := ValueIsTree(src, start.pos, start.events);
    sent, m, fits := [Key(name)] + inner, Member(name, v), one;
    SpellsOne(Key(name), StringValue(name));
    SpellsConcat([Key(name)], [StringValue(name)], 0, true, inner, [v], 1, one);
    assert JsonRoundTrip.Flatten([m]) == [StringValue(name)] + [v] by { assert [m][1..] == []; }
    assert start.events + inner == events + sent;
  }

  lemma {:induction false} MembersAreTrees(src: Source, pos: nat, events: seq<Event>, count: nat)
      returns (sent: seq<Event>, members: seq<Member>, fits: bool)
    requires pos <= |src.text|
    requires JsonParsers.ParseMembers(src, pos, events, count).Accepted?
    ensures JsonParsers.ParseMembers(src, pos, events, count).events
         == events + sent + [EndObject((count + |members|) % JsonParsers.SIZE_LIMIT)]
    ensures members != [] && pos + |members| <= |src.text| && Spells(sent, JsonRoundTrip.Flatten(members), |members|, fits)
    ensures |src.text| < JsonParsers.SIZE_LIMIT ==> fits
    decreases |src.text| - pos, 1
  {
    hide JsonParsers.ParseValue, JsonParsers.ParseName, Spells, SkipWhitespace, JsonRoundTrip.Flatten;
    var own, m, one := MemberIsTree(src, pos, events);
    var name := JsonParsers.ParseName(src, pos, events);
    var value := JsonParsers.ParseValue(src, name.pos, name.events);
    var end := SkipWhitespace(src.text, value.pos);
    if Peek(src.text, end) == ',' {
      var start := SkipWhitespace(src.text, end + 1);
      var more, rest, others := MembersAreTrees(src, start, value.events, JsonParsers.Increment(count));
      sent, members, fits := own + more, [m] + rest, one && others;
      SpellsConcat(own, JsonRoundTrip.Flatten([m]), 1, one, more, JsonRoundTrip.Flatten(rest), |rest|, others);
      FlattenCons(m, rest);
      NumberTheory.ModAdd(count + 1, |rest|, JsonParsers.SIZE_LIMIT);
      assert events + sent == events + own + more;
    } else {
      sent, members, fits := own, [m], one;
    }
  }

  lemma FlattenCons(m: Member, rest: seq<Member>)
    ensures JsonRoundTrip.Flatten([m] + rest) == JsonRoundTrip.Flatten([m]) + JsonRoundTrip.Flatten(rest)
  {
    assert [m][1..] == [];
    assert ([m] + rest)[1..] == rest;
  }

  /** The events of an accepted text leave exactly one value on the stack, if and only if no
      array or object of the text has 2^32 or more entries. */
  lemma {:induction false} AcceptedTextIsOneTree(src: Source) returns (v: Value)
    requires JsonParsers.Parse(src).Accepted?
    ensures var events := JsonParsers.Parse(src).events;
            && (CountsFit([], events) ==> Build([], events) == Some([v]))
            && (CountsFit([], events) <==> exists w :: Build([], events) == Some([w]))
    ensures |src.text| < JsonParsers.SIZE_LIMIT ==> CountsFit([], JsonParsers.Parse(src).events)
  {
    hide CountsFit, Build;
    var sent, fits;
    sent, v, fits := ValueIsTree(src, SkipWhitespace(src.text, 0), []);
    assert [] + sent == sent && [] + [v] == [v] && sent + [] == sent;
    NothingCounts();
    CountsWhole(sent, fits);
  }

  lemma CountsWhole(sent: seq<Event>, fits: bool)
    requires Counts(sent, 1, fits)
    ensures CountsFit([], sent) <==> fits
  {
    hide CountsFit;
    NothingCounts();
    var open: seq<nat>, rest: seq<Event> := [], [];
    assert CountsFit(open, sent + rest) <==> fits && CountsFit(Bumped(open, 1), rest);
    assert sent + rest == sent;
  }

  lemma NothingCounts()
    ensures CountsFit([], [])
  {
  }

  // ----- parsing into a document ------------------------------------------

  lemma {:induction false} BuildPrefix(stack: seq<Value>, events: seq<Event>, i: nat)
    requires i < |events| && Build(stack, events).Some?
    ensures Build(stack, events[..i]).Some? && BuildStep(Build(stack, events[..i]).value, events[i]).Some?
    ensures Build(stack, events[..i + 1]) == BuildStep(Build(stack, events[..i]).value, events[i])
  {
    hide Build, BuildStep;
    assert events == events[..i] + ([events[i]] + events[i + 1..]);
    JsonRoundTrip.BuildConcat(stack, events[..i], [events[i]] + events[i + 1..]);
    var s := Build(stack, events[..i]).value;
    JsonRoundTrip.BuildConcat(s, [events[i]], events[i + 1..]);
    JsonRoundTrip.BuildOne(s, events[i]);
    assert events[..i + 1] == events[..i] + [events[i]];
    JsonRoundTrip.BuildConcat(stack, events[..i], [events[i]]);
  }

  /** Either parser fills the document, unless an array or object of an accepted text has 2^32
      or more entries. The text of a tree gives back that tree. */
  method ParseDocument(text: string, doubleEnd: nat -> Option<nat>, iterative: bool) returns (r: Option<Value>)
    requires var o := JsonParsers.Parse(JsonRoundTrip.IntoDocument(text, doubleEnd)); o.Accepted? ==> CountsFit([], o.events)
    ensures var o := JsonParsers.Parse(JsonRoundTrip.IntoDocument(text, doubleEnd));
            if o.Rejected? then r == None else r.Some? && Build([], o.events) == Some([r.value])
    ensures forall v :: Representable(v) && text == Render(v) ==> r == Some(v)
  {
    var src := JsonRoundTrip.IntoDocument(text, doubleEnd);
    var reader := new JsonReader.Reader(src);
    if iterative {
      reader.IterativeParse();
    } else {
      reader.Parse();
    }
    JsonRoundTrip.JsonEquivalence.ParsersAgree(src);
    forall v | Representable(v) && text == Render(v)
      ensures JsonParsers.Parse(src) == Accepted(|text|, Events(v, FromText))
      ensures Build([], Events(v, FromText)) == Some([v])
    {
      JsonRoundTrip.RoundTrip(v, doubleEnd);
    }
    if reader.hasError {
      return None;
    }
    ghost var root := AcceptedTextIsOneTree(src);
    var d := new Document();
    var events := reader.events;
    assert events[..0] == [];
    for i := 0 to |events|
      invariant Build([], events[..i]) == Some(d.stack)
    {
      BuildPrefix([], events, i);
      d.Handle(events[i]);
    }
    assert events[..|events|] == events;
    r := Some(d.stack[0]);
  }

  /** Writing a tree and parsing the text, by either parser, gives the tree back. */
  method WriteThenParse(v: Value, doubleEnd: nat -> Option<nat>, iterative: bool) returns (r: Option<Value>)
    requires Representable(v)
    ensures r == Some(v)
  {
    var text := JsonWriter.Stringify(v);
    JsonRoundTrip.RoundTrip(v, doubleEnd);
    ghost var root := AcceptedTextIsOneTree(JsonRoundTrip.IntoDocument(text, doubleEnd));
    r := ParseDocument(text, doubleEnd, iterative);
  }
}

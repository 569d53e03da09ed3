/** The recursive-descent parser and the table-driven pushdown parser of
    utils/rapidjson/reader.h as functions, for the default parse flags. */
module JsonParsers {
  import opened JsonText

  const SIZE_LIMIT := 0x1_0000_0000

  /** Member and element counts are 32-bit. */
  function Increment(count: nat): nat
  {
    (count + 1) % SIZE_LIMIT
  }

  // ----- recursive descent ------------------------------------------------

  function ParseValue(src: Source, pos: nat, events: seq<Event>): (o: Outcome)
    requires pos <= |src.text|
    ensures o.Accepted? ==> pos < o.pos <= |src.text|
    decreases |src.text| - pos, 0
  {
    match Peek(src.text, pos)
    case 'n' => ParseWord(src, pos, events, "null", Null)
    case 't' => ParseWord(src, pos, events, "true", Bool(true))
    case 'f' => ParseWord(src, pos, events, "false", Bool(false))
    case '"' => ParseString(src, pos, events, false)
    case '{' => ParseObject(src, pos, events)
    case '[' => ParseArray(src, pos, events)
    case _ => ParseNumber(src, pos, events)
  }

  function ParseObject(src: Source, pos: nat, events: seq<Event>): (o: Outcome)
    requires pos < |src.text|
    ensures o.Accepted? ==> pos < o.pos <= |src.text|
    decreases |src.text| - pos - 1, 2
  {
    var start := Send(src, pos + 1, events, StartObject);
    if start.Rejected? then start
    else
      var p := SkipWhitespace(src.text, pos + 1);
      if Peek(src.text, p) == '}' then Send(src, p + 1, start.events, EndObject(0))
      else ParseMembers(src, p, start.events, 0)
  }

  /** A member name and its colon, up to where the member's value starts. */
  function ParseName(src: Source, pos: nat, events: seq<Event>): (o: Outcome)
    requires pos <= |src.text|
    ensures o.Accepted? ==> pos < o.pos <= |src.text|
  {
    if Peek(src.text, pos) != '"' then Rejected(events)
    else
      var name := ParseString(src, pos, events, true);
      if name.Rejected? then name
      else
        var colon := SkipWhitespace(src.text, name.pos);
        if Peek(src.text, colon) != ':' then Rejected(name.events)
        else Accepted(SkipWhitespace(src.text, colon + 1), name.events)
  }

  /** Members up to the closing bracket, after count of them; pos is at the first name. */
  function ParseMembers(src: Source, pos: nat, events: seq<Event>, count: nat): (o: Outcome)
    requires pos <= |src.text|
    ensures o.Accepted? ==> pos < o.pos <= |src.text|
    decreases |src.text| - pos, 1
  {
    var name := ParseName(src, pos, events);
    if name.Rejected? then name
    else
      var value := ParseValue(src, name.pos, name.events);
      if value.Rejected? then value
      else
        var end := SkipWhitespace(src.text, value.pos);
        match Peek(src.text, end)
        case ',' => ParseMembers(src, SkipWhitespace(src.text, end + 1), value.events, Increment(count))
        case '}' => Send(src, end + 1, value.events, EndObject(Increment(count)))
        case _ => Rejected(value.events)
  }

  function ParseArray(src: Source, pos: nat, events: seq<Event>): (o: Outcome)
    requires pos < |src.text|
    ensures o.Accepted? ==> pos < o.pos <= |src.text|
    decreases |src.text| - pos - 1, 2
  {
    var start := Send(src, pos + 1, events, StartArray);
    if start.Rejected? then start
    else
      var p := SkipWhitespace(src.text, pos + 1);
      if Peek(src.text, p) == ']' then Send(src, p + 1, start.events, EndArray(0))
      else ParseElements(src, p, start.events, 0)
  }

  /** Elements up to the closing bracket, after count of them; pos is at the next element. */
  function ParseElements(src: Source, pos: nat, events: seq<Event>, count: nat): (o: Outcome)
    requires pos <= |src.text|
    ensures o.Accepted? ==> pos < o.pos <= |src.text|
    decreases |src.text| - pos, 1
  {
    var value := ParseValue(src, pos, events);
    if value.Rejected? then value
    else
      var end := SkipWhitespace(src.text, value.pos);
      match Peek(src.text, end)
      case ',' => ParseElements(src, SkipWhitespace(src.text, end + 1), value.events, Increment(count))
      case ']' => Send(src, end + 1, value.events, EndArray(Increment(count)))
      case _ => Rejected(value.events)
  }

  function Parse(src: Source): (o: Outcome)
    ensures o.Accepted? ==> o.pos <= |src.text|
  {
    var p := SkipWhitespace(src.text, 0);
    if Peek(src.text, p) == '\0' then Rejected([])
    else
      var value := ParseValue(src, p, []);
      if value.Rejected? then value
      else
        var end := SkipWhitespace(src.text, value.pos);
        if Peek(src.text, end) != '\0' then Rejected(value.events) else Accepted(end, value.events)
  }

  // ----- the pushdown automaton -------------------------------------------

  datatype State =
    | Finish | Error | Start
    | ObjectInitial | MemberKey | MemberValue | ObjectFinish
    | ArrayInitial | Element | ArrayFinish
    | SingleValue
    | ElementDelimiter | MemberDelimiter | KeyValueDelimiter

  datatype Token =
    | LeftBracket | RightBracket | LeftCurlyBracket | RightCurlyBracket
    | Comma | Colon | StringToken | FalseToken | TrueToken | NullToken | NumberToken

  function Tokenize(c: char): Token
  {
    match c
    case '[' => LeftBracket
    case ']' => RightBracket
    case '{' => LeftCurlyBracket
    case '}' => RightCurlyBracket
    case ',' => Comma
    case ':' => Colon
    case '"' => StringToken
    case 'f' => FalseToken
    case 't' => TrueToken
    case 'n' => NullToken
    case _ => NumberToken
  }

  /** The row of a state in which a value is expected; single is the state after a scalar. */
  function PredictValue(token: Token, single: State, closing: State): State
  {
    match token
    case LeftBracket => ArrayInitial
    case RightBracket => closing
    case LeftCurlyBracket => ObjectInitial
    case RightCurlyBracket | Comma | Colon => Error
    case StringToken | FalseToken | TrueToken | NullToken | NumberToken => single
  }

  function Predict(state: State, token: Token): State
  {
    match state
    case Start => PredictValue(token, SingleValue, Error)
    case KeyValueDelimiter => PredictValue(token, MemberValue, Error)
    case ArrayInitial | ElementDelimiter => PredictValue(token, Element, ArrayFinish)
    case ObjectInitial | MemberDelimiter =>
      if token.RightCurlyBracket? then ObjectFinish else if token.StringToken? then MemberKey else Error
    case MemberKey => if token.Colon? then KeyValueDelimiter else Error
    case MemberValue =>
      if token.RightCurlyBracket? then ObjectFinish else if token.Comma? then MemberDelimiter else Error
    case Element =>
      if token.RightBracket? then ArrayFinish else if token.Comma? then ElementDelimiter else Error
    case Finish | Error | ObjectFinish | ArrayFinish | SingleValue => Error
  }

  /** What an open object or array pushed: the state to return to and the count so far. */
  datatype Frame = Frame(back: State, count: nat)

  /** The stack never underflows: every open scope has a frame, and only the outermost returns to Start. */
  ghost predicate Nested(stack: seq<Frame>)
    decreases |stack|
  {
    && |stack| > 0
    && var top := stack[|stack| - 1];
       if |stack| == 1 then top.back == Start
       else (top.back == Element || top.back == MemberValue) && Nested(stack[..|stack| - 1])
  }

  ghost predicate Consistent(state: State, stack: seq<Frame>)
  {
    match state
    case Start | Finish => stack == []
    case ObjectInitial | MemberKey | MemberValue | ArrayInitial | Element
       | ElementDelimiter | MemberDelimiter | KeyValueDelimiter => Nested(stack)
    case Error | ObjectFinish | ArrayFinish | SingleValue => false
  }

  datatype Config = Config(state: State, stack: seq<Frame>, pos: nat, events: seq<Event>)
  datatype Move = Next(config: Config) | Stop(events: seq<Event>)

  /** The state an opening bracket saves for its closing bracket. */
  function SavedState(state: State): State
  {
    match state
    case ArrayInitial | ElementDelimiter => Element
    case KeyValueDelimiter => MemberValue
    case _ => state
  }

  function AfterScope(back: State): State
  {
    if back == Start then Finish else back
  }

  function Advance(o: Outcome, state: State, stack: seq<Frame>): Move
  {
    if o.Rejected? then Stop(o.events) else Next(Config(state, stack, o.pos, o.events))
  }

  function Open(src: Source, c: Config, dst: State, event: Event): Move
  {
    Advance(Send(src, c.pos + 1, c.events, event), dst, c.stack + [Frame(SavedState(c.state), 0)])
  }

  function Close(src: Source, c: Config, filled: bool, isObject: bool): Move
    requires Nested(c.stack)
  {
    var top := c.stack[|c.stack| - 1];
    var count := if filled then Increment(top.count) else top.count;
    Advance(Send(src, c.pos + 1, c.events, if isObject then EndObject(count) else EndArray(count)),
            AfterScope(top.back), c.stack[..|c.stack| - 1])
  }

  function CountOne(c: Config, dst: State): Move
    requires Nested(c.stack)
  {
    var n := |c.stack| - 1;
    Next(Config(dst, c.stack[n := c.stack[n].(count := Increment(c.stack[n].count))], c.pos + 1, c.events))
  }

  /** One transition on the token at the position, towards the predicted state dst. */
  function Transit(src: Source, c: Config): (m: Move)
    requires Consistent(c.state, c.stack) && c.pos < |src.text|
    ensures m.Next? ==> c.pos < m.config.pos <= |src.text|
  {
    var dst := Predict(c.state, Tokenize(src.text[c.pos]));
    match dst
    case ObjectInitial => Open(src, c, dst, StartObject)
    case ArrayInitial => Open(src, c, dst, StartArray)
    case MemberKey => Advance(ParseString(src, c.pos, c.events, true), dst, c.stack)
    case KeyValueDelimiter => Next(Config(dst, c.stack, c.pos + 1, c.events))
    case MemberValue | Element => Advance(ParseValue(src, c.pos, c.events), dst, c.stack)
    case MemberDelimiter | ElementDelimiter => CountOne(c, dst)
    case ObjectFinish =>
      if c.state == MemberDelimiter then Stop(c.events)
      else Close(src, c, c.state == MemberValue, true)
    case ArrayFinish =>
      if c.state == ElementDelimiter then Stop(c.events)
      else Close(src, c, c.state == Element, false)
    case SingleValue => Advance(ParseValue(src, c.pos, c.events), Finish, c.stack)
    case Error | Finish | Start => Stop(c.events)
  }

  lemma CountConsistent(c: Config, dst: State)
    requires Nested(c.stack) && dst in {MemberDelimiter, ElementDelimiter}
    ensures var m := CountOne(c, dst); m.Next? && Consistent(m.config.state, m.config.stack)
  {
    var n := |c.stack| - 1;
    assert c.stack[n := c.stack[n].(count := Increment(c.stack[n].count))][..n] == c.stack[..n];
  }

  lemma OpenConsistent(src: Source, c: Config, dst: State, event: Event)
    requires Consistent(c.state, c.stack) && dst in {ObjectInitial, ArrayInitial}
    requires c.state in {Start, ArrayInitial, ElementDelimiter, KeyValueDelimiter}
    ensures var m := Open(src, c, dst, event); m.Next? ==> Consistent(m.config.state, m.config.stack)
  {
    var pushed := c.stack + [Frame(SavedState(c.state), 0)];
    assert pushed[..|pushed| - 1] == c.stack;
  }

  lemma CloseConsistent(src: Source, c: Config, filled: bool, isObject: bool)
    requires Nested(c.stack)
    ensures var m := Close(src, c, filled, isObject); m.Next? ==> Consistent(m.config.state, m.config.stack)
  {
  }

  /** Every transition keeps the stack consistent with the state. */
  lemma TransitConsistent(src: Source, c: Config)
    requires Consistent(c.state, c.stack) && c.pos < |src.text|
    ensures var m := Transit(src, c); m.Next? ==> Consistent(m.config.state, m.config.stack)
  {
    hide ParseValue, ParseString, Nested, Open, Close, CountOne;
    var dst := Predict(c.state, Tokenize(src.text[c.pos]));
    match dst {
      case ObjectInitial => OpenConsistent(src, c, dst, StartObject);
      case ArrayInitial => OpenConsistent(src, c, dst, StartArray);
      case MemberDelimiter | ElementDelimiter => CountConsistent(c, dst);
      case ObjectFinish => CloseConsistent(src, c, c.state == MemberValue, true);
      case ArrayFinish => CloseConsistent(src, c, c.state == Element, false);
      case _ =>
    }
  }

  /** Runs the automaton from a configuration whose position is past any whitespace. */
  function Run(src: Source, c: Config): (o: Outcome)
    requires Consistent(c.state, c.stack) && c.pos <= |src.text|
    decreases |src.text| - c.pos
  {
    if Peek(src.text, c.pos) == '\0' then
      if c.state == Finish then Accepted(c.pos, c.events) else Rejected(c.events)
    else
      TransitConsistent(src, c);
      match Transit(src, c)
      case Stop(events) => Rejected(events)
      case Next(d) => Run(src, d.(pos := SkipWhitespace(src.text, d.pos)))
  }

  function IterativeParse(src: Source): Outcome
  {
    Run(src, Config(Start, [], SkipWhitespace(src.text, 0), []))
  }
}

/** JSON trees: the events their traversal sends (utils/rapidjson/document.h), the text the
    writer gives them (utils/rapidjson/writer.h), and the stack machine that rebuilds them. */
module JsonTree {
  import opened Wrappers
  import opened JsonText
  import Itoa
  import JsonParsers

  /** An integer is its value; the type flags of the source are a function of it. A double is
      known only by the literal it was read from. */
  datatype Value =
    | NullValue
    | BoolValue(b: bool)
    | Number(n: int)
    | DoubleValue(lexeme: string)
    | StringValue(s: string)
    | ObjectValue(members: seq<Member>)
    | ArrayValue(elements: seq<Value>)

  datatype Member = Member(name: string, value: Value)

  /** No doubles; integers fit 64 bits, counts and lengths fit 32. */
  ghost predicate Representable(v: Value)
  {
    match v
    case NullValue | BoolValue(_) => true
    case Number(n) => -0x8000_0000_0000_0000 <= n < 0x1_0000_0000_0000_0000
    case DoubleValue(_) => false
    case StringValue(s) => |s| < JsonParsers.SIZE_LIMIT
    case ObjectValue(members) =>
      |members| < JsonParsers.SIZE_LIMIT && forall m <- members :: Representable(m.value)
    case ArrayValue(elements) =>
      |elements| < JsonParsers.SIZE_LIMIT && forall e <- elements :: Representable(e)
  }

  // ----- traversal --------------------------------------------------------

  /** Accept asks the value for the narrowest signed type first; the parser reports what it read. */
  datatype Origin = FromTree | FromText

  function NumberEvent(n: int, origin: Origin): Event
  {
    match origin
    case FromTree =>
      if -0x8000_0000 <= n < 0x8000_0000 then Int(n)
      else if 0 <= n < 0x1_0000_0000 then Uint(n)
      else if n < 0x8000_0000_0000_0000 then Int64(n)
      else Uint64(n)
    case FromText =>
      if n >= 0 then (if n < 0x1_0000_0000 then Uint(n) else Uint64(n))
      else if n >= -0x8000_0000 then Int(n) else Int64(n)
  }

  function Events(v: Value, origin: Origin): seq<Event>
    decreases v
  {
    match v
    case NullValue => [Null]
    case BoolValue(b) => [Bool(b)]
    case Number(n) => [NumberEvent(n, origin)]
    case DoubleValue(lexeme) => [Double(lexeme)]
    case StringValue(s) => [String(s)]
    case ObjectValue(members) => [StartObject] + MemberEvents(members, origin) + [EndObject(|members|)]
    case ArrayValue(elements) => [StartArray] + ElementEvents(elements, origin) + [EndArray(|elements|)]
  }

  function MemberEvents(members: seq<Member>, origin: Origin): seq<Event>
    decreases members
  {
    if members == [] then []
    else [Key(members[0].name)] + Events(members[0].value, origin) + MemberEvents(members[1..], origin)
  }

  function ElementEvents(elements: seq<Value>, origin: Origin): seq<Event>
    decreases elements
  {
    if elements == [] then [] else Events(elements[0], origin) + ElementEvents(elements[1..], origin)
  }

  // ----- text -------------------------------------------------------------

  function HexDigit(d: nat): char
    requires d < 16
  {
    if d < 10 then (d + '0' as int) as char else (d - 10 + 'A' as int) as char
  }

  /** The letter that escapes a character, if it has to be escaped. */
  function EscapeLetter(c: char): Option<char>
  {
    if c == '"' then Some('"')
    else if c == '\\' then Some('\\')
    else if c == 8 as char then Some('b')
    else if c == '\t' then Some('t')
    else if c == '\n' then Some('n')
    else if c == 12 as char then Some('f')
    else if c == '\r' then Some('r')
    else if c < ' ' then Some('u')
    else None
  }

  function EscapeChar(c: char): string
  {
    match EscapeLetter(c)
    case None => [c]
    case Some(e) =>
      if e == 'u' && c < ' ' then ['\\', 'u', '0', '0', HexDigit(c as int / 16), HexDigit(c as int % 16)]
      else ['\\', e]
  }

  function EscapeText(s: string): string
  {
    if s == "" then "" else EscapeChar(s[0]) + EscapeText(s[1..])
  }

  function RenderString(s: string): string
  {
    "\"" + EscapeText(s) + "\""
  }

  function Render(v: Value): string
    decreases v
  {
    match v
    case NullValue => "null"
    case BoolValue(b) => if b then "true" else "false"
    case Number(n) => Itoa.Integer(n)
    case DoubleValue(lexeme) => lexeme
    case StringValue(s) => RenderString(s)
    case ObjectValue(members) => "{" + RenderMembers(members, true) + "}"
    case ArrayValue(elements) => "[" + RenderElements(elements, true) + "]"
  }

  function Comma(first: bool): string
  {
    if first then "" else ","
  }

  function RenderMembers(members: seq<Member>, first: bool): string
    decreases members
  {
    if members == [] then ""
    else
      Comma(first) + RenderString(members[0].name) + ":" + Render(members[0].value)
      + RenderMembers(members[1..], false)
  }

  function RenderElements(elements: seq<Value>, first: bool): string
    decreases elements
  {
    if elements == [] then ""
    else Comma(first) + Render(elements[0]) + RenderElements(elements[1..], false)
  }

  // ----- rebuilding -------------------------------------------------------

  /** The names and values of the members whose 2 * |values| entries lie on the stack. */
  function PairUp(values: seq<Value>): (r: Option<seq<Member>>)
    requires |values| % 2 == 0
    ensures r.Some? ==> |r.value| == |values| / 2
  {
    if values == [] then Some([])
    else
      var rest := PairUp(values[2..]);
      if values[0].StringValue? && rest.Some? then Some([Member(values[0].s, values[1])] + rest.value) else None
  }

  /** What one handler call does to the document's stack; None stands for an underflow or a
      member name that is not a string. */
  function BuildStep(stack: seq<Value>, event: Event): Option<seq<Value>>
  {
    match event
    case Null => Some(stack + [NullValue])
    case Bool(b) => Some(stack + [BoolValue(b)])
    case Int(n) => Some(stack + [Number(n)])
    case Uint(n) => Some(stack + [Number(n)])
    case Int64(n) => Some(stack + [Number(n)])
    case Uint64(n) => Some(stack + [Number(n)])
    case Double(lexeme) => Some(stack + [DoubleValue(lexeme)])
    case String(s) => Some(stack + [StringValue(s)])
    case Key(s) => Some(stack + [StringValue(s)])
    case StartObject => Some(stack + [ObjectValue([])])
    case StartArray => Some(stack + [ArrayValue([])])
    case EndObject(count) =>
      var base := |stack| - 2 * count;
      if base < 1 then None
      else
        var members := PairUp(stack[base..]);
        if members.None? then None else Some(stack[..base - 1] + [ObjectValue(members.value)])
    case EndArray(count) =>
      var base := |stack| - count;
      if base < 1 then None else Some(stack[..base - 1] + [ArrayValue(stack[base..])])
  }

  function Build(stack: seq<Value>, events: seq<Event>): Option<seq<Value>>
    decreases |events|
  {
    if events == [] then Some(stack)
    else
      var next := BuildStep(stack, events[0]);
      if next.None? then None else Build(next.value, events[1..])
  }
}

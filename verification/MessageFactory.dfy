/** The text form of messages, with its checksum (src/communicate/message_factory.cpp,
    src/communicate/message.cpp). One char is one byte; the hash behind the sign is a
    parameter. */
module MessageFactory {
  import opened Wrappers
  import opened JsonText
  import opened JsonScalars
  import Itoa

  const MSG_HEAD := "MSG"
  const MSG_TAIL := "GSM"
  const MSG_VERSION := 0
  const LINE_END := "\r\n"

  const INT_LIMIT := 0x8000_0000

  datatype Entry = Entry(key: string, value: string)

  // ----- options ----------------------------------------------------------

  /** The first entry of a key is updated, or a new one is added at the end. */
  function Added(options: seq<Entry>, key: string, value: string): seq<Entry>
  {
    if options == [] then [Entry(key, value)]
    else if options[0].key == key then [Entry(key, value)] + options[1..]
    else [options[0]] + Added(options[1..], key, value)
  }

  function Found(options: seq<Entry>, key: string): Option<string>
  {
    if options == [] then None
    else if options[0].key == key then Some(options[0].value)
    else Found(options[1..], key)
  }

  /** The search for a key, from one place to the next. */
  lemma AddedAt(options: seq<Entry>, i: nat, key: string, value: string)
    requires i < |options|
    ensures options[i].key == key ==> options[..i] + Added(options[i..], key, value) == options[i := Entry(key, value)]
    ensures options[i].key != key ==>
              options[..i] + Added(options[i..], key, value) == options[..i + 1] + Added(options[i + 1..], key, value)
  {
    assert options[i..][1..] == options[i + 1..];
  }

  lemma NothingToUpdate(options: seq<Entry>, key: string, value: string)
    ensures options[..|options|] + Added(options[|options|..], key, value) == options + [Entry(key, value)]
  {
  }

  ghost predicate Distinct(options: seq<Entry>)
  {
    forall i, j :: 0 <= i < j < |options| ==> options[i].key != options[j].key
  }

  /** What was added is found, and other keys keep their values. */
  lemma {:induction false} AddedIsFound(options: seq<Entry>, key: string, value: string, other: string)
    ensures Found(Added(options, key, value), other) == if other == key then Some(value) else Found(options, other)
    decreases |options|
  {
    if options != [] && options[0].key != key {
      AddedIsFound(options[1..], key, value, other);
      var r := Added(options, key, value);
      assert r[1..] == Added(options[1..], key, value);
    } else if options != [] {
      var r := Added(options, key, value);
      assert r[1..] == options[1..];
    } else {
      assert [Entry(key, value)][1..] == [];
    }
  }

  lemma {:induction false} AddedKeys(options: seq<Entry>, key: string, value: string)
    ensures forall e <- Added(options, key, value) :: e in options || e == Entry(key, value)
    ensures forall e <- Added(options, key, value) :: e.key == key || e.key in Keys(options)
    decreases |options|
  {
    if options != [] && options[0].key != key {
      AddedKeys(options[1..], key, value);
      assert forall e <- options[1..] :: e in options;
    }
  }

  ghost function Keys(options: seq<Entry>): set<string>
  {
    set e | e in options :: e.key
  }

  lemma {:induction false} AddedStaysDistinct(options: seq<Entry>, key: string, value: string)
    requires Distinct(options)
    ensures Distinct(Added(options, key, value))
    decreases |options|
  {
    if options != [] && options[0].key != key {
      var rest := options[1..];
      assert forall i, j :: 0 <= i < j < |rest| ==> rest[i] == options[i + 1] && rest[j] == options[j + 1];
      AddedStaysDistinct(rest, key, value);
      AddedKeys(rest, key, value);
      var r := Added(rest, key, value);
      forall e <- r
        ensures e.key != options[0].key
      {
        if e.key != key {
          assert e in rest;
          var i :| 0 <= i < |rest| && rest[i] == e;
          assert options[i + 1] == e;
        }
      }
    } else if options != [] {
      assert forall i :: 0 < i < |options| ==> Added(options, key, value)[i] == options[i];
    }
  }

  /** A new key goes to the end; a known value changes nothing. */
  lemma {:induction false} AddedAtEnd(options: seq<Entry>, key: string, value: string)
    ensures (forall e <- options :: e.key != key) ==> Added(options, key, value) == options + [Entry(key, value)]
    ensures Found(options, key) == Some(value) ==> Added(options, key, value) == options
    decreases |options|
  {
    if options != [] {
      assert forall e <- options[1..] :: e in options;
      AddedAtEnd(options[1..], key, value);
      assert options == [options[0]] + options[1..];
    }
  }

  function AddedAll(before: seq<Entry>, options: seq<Entry>): seq<Entry>
    decreases |options|
  {
    if options == [] then before else AddedAll(Added(before, options[0].key, options[0].value), options[1..])
  }

  /** Entries with different keys are added one behind the other. */
  lemma {:induction false} AddedAllAtEnd(before: seq<Entry>, options: seq<Entry>)
    requires Distinct(before + options)
    ensures AddedAll(before, options) == before + options
    decreases |options|
  {
    if options == [] {
      assert before + options == before;
    } else {
      var e := options[0];
      assert (before + options)[|before|] == e;
      forall f | f in before
        ensures f.key != e.key
      {
        var j :| 0 <= j < |before| && before[j] == f;
        assert (before + options)[j] == f;
      }
      AddedAtEnd(before, e.key, e.value);
      assert before + [e] + options[1..] == before + options;
      AddedAllAtEnd(before + [e], options[1..]);
    }
  }

  class Message {
    var tid: int
    var kind: int
    var options: seq<Entry>
    var data: string

    constructor ()
      ensures tid == -1 && kind == 0 && options == [] && data == ""
    {
      tid, kind, options, data := -1, 0, [], "";
    }

    method AddOption(key: string, value: string)
      modifies this`options
      ensures options == Added(old(options), key, value)
    {
      hide Added;
      ghost var before := options;
      assert before[0..] == before;
      for i := 0 to |options|
        invariant options == before && Added(before, key, value) == before[..i] + Added(before[i..], key, value)
      {
        AddedAt(before, i, key, value);
        if options[i].key == key {
          options := options[i := Entry(key, value)];
          return;
        }
      }
      NothingToUpdate(before, key, value);
      options := options + [Entry(key, value)];
    }

    /** The value of a key, or none where the source throws. */
    method GetValue(key: string) returns (value: Option<string>)
      ensures value == Found(options, key)
    {
      assert options[0..] == options;
      for i := 0 to |options|
        invariant Found(options, key) == Found(options[i..], key)
      {
        assert options[i..][1..] == options[i + 1..];
        if options[i].key == key {
          return Some(options[i].value);
        }
      }
      return None;
    }

    /** Appends bytes and keeps the size option up to date. */
    method PushData(buf: string)
      modifies this`data, this`options
      ensures data == old(data) + buf && options == Added(old(options), "size", Itoa.Decimal(|data|))
    {
      ghost var before := data;
      for i := 0 to |buf|
        invariant data == before + buf[..i] && options == old(options)
      {
        data := data + [buf[i]];
      }
      assert buf[..|buf|] == buf;
      AddOption("size", Itoa.Decimal(|data|));
    }

    method Clear()
      modifies this
      ensures tid == 0 && kind == 1 && options == [] && data == ""
    {
      data, options, tid, kind := "", [], 0, 1;
    }

    method SetHead(newTid: int, newKind: int)
      modifies this`tid, this`kind
      ensures tid == newTid && kind == newKind
    {
      tid, kind := newTid, newKind;
    }
  }

  // ----- the checksum -----------------------------------------------------

  /** A char as a signed byte. */
  function SignedByte(c: char): int
  {
    var b := c as int % 256;
    if b < 128 then b else b - 256
  }

  function Wrap16(n: int): (r: int)
    ensures -32768 <= r < 32768
  {
    (n + 32768) % 65536 - 32768
  }

  function Wrap32(n: int): (r: int)
    ensures -INT_LIMIT <= r < INT_LIMIT
    ensures -INT_LIMIT <= n < INT_LIMIT ==> r == n
  {
    (n + INT_LIMIT) % (2 * INT_LIMIT) - INT_LIMIT
  }

  /** The remainder of the division that rounds towards zero. */
  function Remainder(n: int, m: int): int
    requires m > 0
  {
    if n >= 0 then n % m else -(-n % m)
  }

  function SumHash(s: string): int
  {
    if s == "" then 0 else Remainder(Wrap16(SumHash(s[..|s| - 1]) + SignedByte(s[|s| - 1])), 65535)
  }

  function Total(s: string): int
  {
    if s == "" then 0 else Total(s[..|s| - 1]) + SignedByte(s[|s| - 1])
  }

  /** The remainder never acts, so the checksum is the sum of the signed bytes in 16 bits. */
  lemma {:induction false} ChecksumIsSum(s: string)
    ensures SumHash(s) == Wrap16(Total(s))
    decreases |s|
  {
    hide Wrap16, Remainder, SignedByte;
    if s == "" {
      WrapSmall(0);
    } else {
      ChecksumIsSum(s[..|s| - 1]);
      WrapTwice(Total(s[..|s| - 1]), SignedByte(s[|s| - 1]));
      RemainderIdle(Wrap16(SumHash(s[..|s| - 1]) + SignedByte(s[|s| - 1])));
    }
  }

  lemma WrapSmall(n: int)
    requires -32768 <= n < 32768
    ensures Wrap16(n) == n
  {
  }

  lemma RemainderIdle(n: int)
    requires -32768 <= n < 32768
    ensures Remainder(n, 65535) == n
  {
  }

  lemma WrapTwice(a: int, b: int)
    ensures Wrap16(Wrap16(a) + b) == Wrap16(a + b)
  {
    var k := (a + 32768) / 65536;
    assert a == k * 65536 + Wrap16(a);
    assert (a + b + 32768) == k * 65536 + (Wrap16(a) + b + 32768);
  }

  /** The sum of the bytes up to an index and that one, or of all; none where the source
      throws. */
  function SumTo(raw: string, endIndex: int): Option<int>
  {
    if endIndex < 0 || endIndex > |raw| then None
    else Some(SumHash(raw[..if endIndex < |raw| then endIndex + 1 else |raw|]))
  }

  /** The checksum of a text whose last index is passed on as a signed 32-bit number. */
  function Checksum(raw: string): Option<int>
  {
    SumTo(raw, Wrap32(|raw| - 1))
  }

  /** Up to 2^31 bytes it is the sum of all; of more, it is thrown at or sums a part. */
  lemma ChecksumCovers(raw: string)
    ensures 0 < |raw| <= INT_LIMIT ==> Checksum(raw) == Some(SumHash(raw))
    ensures Checksum(raw).None? <==> Wrap32(|raw| - 1) < 0
  {
    assert raw[..|raw|] == raw;
  }

  method CalculateOptionsHash(raw: string, endIndex: int) returns (sum: Option<int>)
    ensures sum == SumTo(raw, endIndex)
  {
    if endIndex < 0 || endIndex > |raw| {
      return None;
    }
    hide SignedByte, Wrap16, Remainder;
    var total, index := 0, 0;
    assert raw[..0] == "";
    while index < |raw|
      invariant 0 <= index <= |raw| && index <= endIndex && total == SumHash(raw[..index])
      decreases |raw| - index
    {
      assert raw[..index + 1][..index] == raw[..index];
      total := Wrap16(total + SignedByte(raw[index]));
      total := Remainder(total, 65535);
      index := index + 1;
      if index - 1 >= endIndex {
        break;
      }
    }
    return Some(total);
  }

  // ----- encoding ---------------------------------------------------------

  function HeadText(tid: int, kind: int): string
  {
    MSG_HEAD + " " + Itoa.Integer(MSG_VERSION) + " " + Itoa.Integer(kind) + " " + Itoa.Integer(tid) + LINE_END
  }

  function EntryText(e: Entry): string
  {
    "\"" + e.key + "\":\"" + e.value + "\"" + LINE_END
  }

  function EntriesText(options: seq<Entry>): string
  {
    if options == [] then "" else EntryText(options[0]) + EntriesText(options[1..])
  }

  /** Everything before the checksum. */
  function Summed(tid: int, kind: int, options: seq<Entry>): string
  {
    HeadText(tid, kind) + EntriesText(options)
  }

  function WithChecksum(tid: int, kind: int, options: seq<Entry>, sum: int, data: string): string
  {
    Summed(tid, kind, options) + Itoa.Integer(sum) + LINE_END + LINE_END + data + LINE_END + MSG_TAIL
  }

  /** The text of a message with its own checksum. */
  function Text(tid: int, kind: int, options: seq<Entry>, data: string): string
  {
    WithChecksum(tid, kind, options, SumHash(Summed(tid, kind, options)), data)
  }

  /** Signs the message and writes it into an empty buffer; none where the source throws. */
  method EncodeMessage(msg: Message, hash: string -> string) returns (text: Option<string>)
    modifies msg`options
    ensures msg.options == Added(old(msg.options), "sign", hash(msg.data))
    ensures var sum := Checksum(Summed(msg.tid, msg.kind, msg.options));
            text == if sum.Some? then Some(WithChecksum(msg.tid, msg.kind, msg.options, sum.value, msg.data)) else None
  {
    hide HeadText, EntryText, SumHash, Itoa.Integer;
    msg.AddOption("sign", hash(msg.data));
    var raw := HeadText(msg.tid, msg.kind);
    ghost var head := raw;
    assert msg.options[0..] == msg.options;
    for i := 0 to |msg.options|
      invariant raw + EntriesText(msg.options[i..]) == head + EntriesText(msg.options)
    {
      assert msg.options[i..][1..] == msg.options[i + 1..];
      ghost var before, rest := raw, EntriesText(msg.options[i + 1..]);
      raw := raw + EntryText(msg.options[i]);
      assert before + (EntryText(msg.options[i]) + rest) == raw + rest;
    }
    assert msg.options[|msg.options|..] == [];
    assert raw == Summed(msg.tid, msg.kind, msg.options);
    var sum := CalculateOptionsHash(raw, Wrap32(|raw| - 1));
    if sum.None? {
      return None;
    }
    raw := raw + Itoa.Integer(sum.value);
    raw := raw + LINE_END + LINE_END;
    raw := raw + msg.data + LINE_END;
    raw := raw + MSG_TAIL;
    return Some(raw);
  }

  lemma HeadIsNotEmpty(tid: int, kind: int)
    ensures HeadText(tid, kind) != "" && forall options :: Summed(tid, kind, options) != ""
  {
  }

  // ----- decoding ---------------------------------------------------------

  /** What a section gives and where it ends; the source refuses with minus one, or goes wrong
      by reading past the end or by an exception that nobody catches. */
  datatype Decoded<T> = Done(value: T, next: nat) | Refused | Broken

  /** The bytes up to a stop, and the position after it. */
  function Until(raw: string, i: nat, stop: char): (r: Option<Piece>)
    ensures r.Some? ==> i < r.value.next <= |raw|
    decreases |raw| - i
  {
    if i >= |raw| then None
    else if raw[i] == stop then Some(Piece("", i + 1))
    else match Until(raw, i + 1, stop)
      case Some(p) => Some(Piece([raw[i]] + p.text, p.next))
      case None => None
  }

  function DigitPrefix(s: string): (d: string)
    ensures AllDigits(d)
  {
    if s == "" || !IsDigit(s[0]) then "" else [s[0]] + DigitPrefix(s[1..])
  }

  predicate IsSpace(c: char)
  {
    c == ' ' || '\t' <= c <= '\r'
  }

  /** A decimal number with leading blanks, a sign, and anything after it; none when there is
      no digit or when it does not fit 32 bits. */
  function Stoi(s: string): Option<int>
    decreases |s|
  {
    if s != "" && IsSpace(s[0]) then Stoi(s[1..])
    else
      var minus := s != "" && s[0] == '-';
      var digits := DigitPrefix(if s != "" && (s[0] == '-' || s[0] == '+') then s[1..] else s);
      var n: int := if minus then -(Fold(0, digits) as int) else Fold(0, digits);
      if digits == "" || !(-0x8000_0000 <= n < 0x8000_0000) then None else Some(n)
  }

  datatype Head = Head(tid: int, kind: int)

  /** Compares byte by byte; the first difference refuses. */
  function Expect(raw: string, i: nat, s: string): (r: Decoded<()>)
    ensures r.Done? ==> r.next == i + |s| && At(raw, i, s)
    decreases |s|
  {
    if s == "" then (if i <= |raw| then Done((), i) else Broken)
    else if i >= |raw| then Broken
    else if raw[i] != s[0] then Refused
    else
      var r := Expect(raw, i + 1, s[1..]);
      if r.Done? then
        assert raw[i..i + |s|] == [raw[i]] + raw[i + 1..i + |s|];
        r
      else r
  }

  function DecodeHead(raw: string): Decoded<Head>
  {
    match Expect(raw, 0, MSG_HEAD + " ")
    case Refused => Refused
    case Broken => Broken
    case Done(_, i) =>
      match Until(raw, i, ' ')
      case None => Broken
      case Some(version) =>
        var v := Stoi(version.text);
        if v.None? then Broken
        else if Wrap16(v.value) != MSG_VERSION then Refused
        else match Until(raw, version.next, ' ')
          case None => Broken
          case Some(kind) =>
            match Until(raw, kind.next, '\r')
            case None => Broken
            case Some(tid) =>
              var k, t := Stoi(kind.text), Stoi(tid.text);
              if k.None? || t.None? then Broken
              else match Expect(raw, tid.next, "\n")
                case Refused => Refused
                case Broken => Broken
                case Done(_, end) => Done(Head(t.value, Wrap16(k.value)), end)
  }

  /** A C string ends at its first zero. */
  function CString(s: string): string
  {
    if s == "" || s[0] == '\0' then "" else [s[0]] + CString(s[1..])
  }

  /** One option behind its opening quote. */
  function DecodeEntry(raw: string, i: nat): (r: Decoded<Entry>)
    ensures r.Done? ==> i < r.next <= |raw|
  {
    match Until(raw, i, '\"')
    case None => Broken
    case Some(key) =>
      match Expect(raw, key.next, ":\"")
      case Refused => Refused
      case Broken => Broken
      case Done(_, j) =>
        match Until(raw, j, '\"')
        case None => Broken
        case Some(value) =>
          match Expect(raw, value.next, LINE_END)
          case Refused => Refused
          case Broken => Broken
          case Done(_, end) => Done(Entry(CString(key.text), CString(value.text)), end)
  }

  /** Options as long as a quote opens one; the position is that of the byte that does not. */
  function DecodeEntries(raw: string, i: nat, options: seq<Entry>): (r: Decoded<seq<Entry>>)
    ensures r.Done? ==> r.next < |raw|
    decreases |raw| - i
  {
    if i >= |raw| then Broken
    else if raw[i] != '\"' then Done(options, i)
    else match DecodeEntry(raw, i + 1)
      case Done(e, next) => DecodeEntries(raw, next, Added(options, e.key, e.value))
      case Refused => Refused
      case Broken => Broken
  }

  /** Options are added to those already there; the checksum must be the sum of all bytes
      before it. */
  function DecodeOptions(raw: string, offset: nat, before: seq<Entry>): Decoded<seq<Entry>>
  {
    match DecodeEntries(raw, offset, before)
    case Refused => Refused
    case Broken => Broken
    case Done(options, i) =>
      match Until(raw, i, '\r')
      case None => Broken
      case Some(sum) =>
        match Expect(raw, sum.next, "\n")
        case Refused => Refused
        case Broken => Broken
        case Done(_, j) =>
          var n := Stoi(sum.text);
          var check := SumTo(raw, Wrap32(i - 1));
          if n.None? || check.None? then Broken
          else if Wrap16(n.value) != check.value then Refused
          else match Expect(raw, j, LINE_END)
            case Refused => Refused
            case Broken => Broken
            case Done(_, end) => Done(options, end)
  }

  function DecodeBody(raw: string, offset: nat, options: seq<Entry>): Decoded<string>
  {
    match Found(options, "size")
    case None => Broken
    case Some(text) =>
      var size := Stoi(text);
      if size.None? || size.value < 0 || offset + size.value > |raw| then Broken
      else match Expect(raw, offset + size.value, LINE_END)
        case Refused => Refused
        case Broken => Broken
        case Done(_, end) => Done(raw[offset..offset + size.value], end)
  }

  datatype Contents = Contents(tid: int, kind: int, options: seq<Entry>, data: string)

  function Decode(raw: string): Decoded<Contents>
  {
    match DecodeHead(raw)
    case Refused => Refused
    case Broken => Broken
    case Done(head, i) =>
      match DecodeOptions(raw, i, [])
      case Refused => Refused
      case Broken => Broken
      case Done(options, j) =>
        match DecodeBody(raw, j, options)
        case Refused => Refused
        case Broken => Broken
        case Done(data, k) =>
          match Expect(raw, k, MSG_TAIL)
          case Refused => Refused
          case Broken => Broken
          case Done(_, end) => Done(Contents(head.tid, head.kind, Added(options, "size", Itoa.Decimal(|data|)), data), end)
  }

  // ----- round trip -------------------------------------------------------

  ghost predicate Clean(s: string)
  {
    '\"' !in s && '\0' !in s
  }

  ghost predicate Writable(tid: int, kind: int, options: seq<Entry>, data: string)
  {
    && -0x8000_0000 <= tid < 0x8000_0000 && -32768 <= kind < 32768 && |data| < 0x8000_0000
    && Distinct(options) && (forall e <- options :: Clean(e.key) && Clean(e.value))
    && Found(options, "size") == Some(Itoa.Decimal(|data|))
  }

  /** Head and options are counted in a signed 32-bit number. */
  predicate Countable(tid: int, kind: int, options: seq<Entry>)
  {
    |Summed(tid, kind, options)| <= INT_LIMIT
  }

  lemma {:induction false} UntilFinds(raw: string, i: nat, s: string, stop: char)
    requires At(raw, i, s + [stop]) && stop !in s
    ensures Until(raw, i, stop) == Some(Piece(s, i + |s| + 1))
    decreases |s|
  {
    hide At;
    AtBounds(raw, i, s + [stop]);
    AtChar(raw, i, s + [stop], 0);
    if s != "" {
      assert s[0] in s;
      assert forall c <- s[1..] :: c in s;
      assert [s[0]] + s[1..] == s;
      assert s + [stop] == [s[0]] + (s[1..] + [stop]);
      AtSplit(raw, i, [s[0]], s[1..] + [stop]);
      UntilFinds(raw, i + 1, s[1..], stop);
    }
  }

  lemma {:induction false} DigitsPrefix(s: string)
    requires AllDigits(s)
    ensures DigitPrefix(s) == s
    decreases |s|
  {
    if s != "" {
      DigitsPrefix(s[1..]);
    }
  }

  /** Printed integers are read back, and hold no other stop. */
  lemma IntegerReturns(n: int)
    requires -0x8000_0000 <= n < 0x8000_0000
    ensures Stoi(Itoa.Integer(n)) == Some(n)
    ensures ' ' !in Itoa.Integer(n) && '\r' !in Itoa.Integer(n) && '\"' !in Itoa.Integer(n)
    ensures Itoa.Integer(n) != "" && Itoa.Integer(n)[0] != '\"'
  {
    hide Itoa.Decimal, Fold;
    var m := if n < 0 then -n else n;
    NumeralFolds(m);
    var d := Itoa.Decimal(m);
    DigitsPrefix(d);
    assert forall c <- d :: IsDigit(c);
    assert d[0] in d;
    if n < 0 {
      assert Itoa.Integer(n)[1..] == d;
      forall c | c in Itoa.Integer(n)
        ensures c == '-' || IsDigit(c)
      {
      }
    }
  }

  lemma {:induction false} ExpectFinds(raw: string, i: nat, s: string)
    requires At(raw, i, s)
    ensures Expect(raw, i, s) == Done((), i + |s|)
    decreases |s|
  {
    hide At;
    AtBounds(raw, i, s);
    if s != "" {
      AtChar(raw, i, s, 0);
      assert s == [s[0]] + s[1..];
      AtSplit(raw, i, [s[0]], s[1..]);
      ExpectFinds(raw, i + 1, s[1..]);
    }
  }

  lemma {:induction false} CleanCString(s: string)
    requires '\0' !in s
    ensures CString(s) == s
    decreases |s|
  {
    if s != "" {
      assert s[0] in s;
      assert forall c <- s[1..] :: c in s;
      CleanCString(s[1..]);
    }
  }

  lemma HeadReturns(raw: string, tid: int, kind: int)
    requires At(raw, 0, HeadText(tid, kind))
    requires -0x8000_0000 <= tid < 0x8000_0000 && -32768 <= kind < 32768
    ensures DecodeHead(raw) == Done(Head(tid, kind), |HeadText(tid, kind)|)
  {
    hide At, Until, Expect, Stoi, Itoa.Integer;
    var v, k, t := Itoa.Integer(MSG_VERSION), Itoa.Integer(kind), Itoa.Integer(tid);
    IntegerReturns(MSG_VERSION);
    IntegerReturns(kind);
    IntegerReturns(tid);
    WrapSmall(MSG_VERSION);
    WrapSmall(kind);
    assert HeadText(tid, kind) == (MSG_HEAD + " ") + ((v + [' ']) + ((k + [' ']) + ((t + ['\r']) + "\n")));
    AtSplit(raw, 0, MSG_HEAD + " ", (v + [' ']) + ((k + [' ']) + ((t + ['\r']) + "\n")));
    AtSplit(raw, 4, v + [' '], (k + [' ']) + ((t + ['\r']) + "\n"));
    AtSplit(raw, 4 + |v| + 1, k + [' '], (t + ['\r']) + "\n");
    AtSplit(raw, 4 + |v| + 1 + |k| + 1, t + ['\r'], "\n");
    ExpectFinds(raw, 0, MSG_HEAD + " ");
    UntilFinds(raw, 4, v, ' ');
    UntilFinds(raw, 4 + |v| + 1, k, ' ');
    UntilFinds(raw, 4 + |v| + 1 + |k| + 1, t, '\r');
    ExpectFinds(raw, 4 + |v| + 1 + |k| + 1 + |t| + 1, "\n");
  }

  lemma EntryReturns(raw: string, i: nat, e: Entry)
    requires At(raw, i, EntryText(e)) && Clean(e.key) && Clean(e.value)
    ensures DecodeEntry(raw, i + 1) == Done(e, i + |EntryText(e)|)
  {
    hide At, Until, Expect;
    var k, v := e.key + ['\"'], e.value + ['\"'];
    assert EntryText(e) == "\"" + (k + (":\"" + (v + LINE_END)));
    AtSplit(raw, i, "\"", k + (":\"" + (v + LINE_END)));
    AtSplit(raw, i + 1, k, ":\"" + (v + LINE_END));
    AtSplit(raw, i + 1 + |k|, ":\"", v + LINE_END);
    AtSplit(raw, i + 1 + |k| + 2, v, LINE_END);
    UntilFinds(raw, i + 1, e.key, '\"');
    ExpectFinds(raw, i + 1 + |k|, ":\"");
    UntilFinds(raw, i + 1 + |k| + 2, e.value, '\"');
    ExpectFinds(raw, i + 1 + |k| + 2 + |v|, LINE_END);
    CleanCString(e.key);
    CleanCString(e.value);
  }

  /** Entries are added one after the other. */
  lemma {:induction false} EntriesReturn(raw: string, i: nat, before: seq<Entry>, options: seq<Entry>)
    requires At(raw, i, EntriesText(options))
    requires forall e <- options :: Clean(e.key) && Clean(e.value)
    requires var end := i + |EntriesText(options)|; end < |raw| && raw[end] != '\"'
    ensures DecodeEntries(raw, i, before) == Done(AddedAll(before, options), i + |EntriesText(options)|)
    decreases |options|
  {
    hide At, DecodeEntry, EntryText;
    AtBounds(raw, i, EntriesText(options));
    if options != [] {
      var e, rest := options[0], options[1..];
      AtSplit(raw, i, EntryText(e), EntriesText(rest));
      EntryStarts(raw, i, e);
      EntryReturns(raw, i, e);
      EntriesReturn(raw, i + |EntryText(e)|, Added(before, e.key, e.value), rest);
    }
  }

  lemma EntryStarts(raw: string, i: nat, e: Entry)
    requires At(raw, i, EntryText(e))
    ensures i < |raw| && raw[i] == '\"' && EntryText(e) != ""
  {
    AtChar(raw, i, EntryText(e), 0);
  }

  /** Everything behind the options: checksum, blank line, data and tail. */
  function AfterOptions(sum: int, data: string): string
  {
    Itoa.Integer(sum) + ['\r'] + ("\n" + (LINE_END + (data + (LINE_END + MSG_TAIL))))
  }

  lemma SumFits(s: string)
    ensures -32768 <= SumHash(s) < 32768
  {
    ChecksumIsSum(s);
  }

  lemma TailParts(raw: string, i: nat, sum: int, data: string)
    requires At(raw, i, AfterOptions(sum, data))
    ensures var j := i + |Itoa.Integer(sum)| + 1;
            && At(raw, i, Itoa.Integer(sum) + ['\r']) && At(raw, j, "\n") && At(raw, j + 1, LINE_END)
            && At(raw, j + 3, data) && At(raw, j + 3 + |data|, LINE_END) && At(raw, j + 5 + |data|, MSG_TAIL)
  {
    hide At, Itoa.Integer;
    var j := i + |Itoa.Integer(sum)| + 1;
    AtSplit(raw, i, Itoa.Integer(sum) + ['\r'], "\n" + (LINE_END + (data + (LINE_END + MSG_TAIL))));
    AtSplit(raw, j, "\n", LINE_END + (data + (LINE_END + MSG_TAIL)));
    AtSplit(raw, j + 1, LINE_END, data + (LINE_END + MSG_TAIL));
    AtSplit(raw, j + 3, data, LINE_END + MSG_TAIL);
    AtSplit(raw, j + 3 + |data|, LINE_END, MSG_TAIL);
  }

  lemma OptionsReturn(raw: string, tid: int, kind: int, options: seq<Entry>, data: string)
    requires raw == Summed(tid, kind, options) + AfterOptions(SumHash(Summed(tid, kind, options)), data)
    requires Distinct(options) && forall e <- options :: Clean(e.key) && Clean(e.value)
    requires Countable(tid, kind, options)
    ensures var summed := Summed(tid, kind, options);
            DecodeOptions(raw, |HeadText(tid, kind)|, []) == Done(options, |summed| + |Itoa.Integer(SumHash(summed))| + 4)
  {
    hide At, Until, Expect, Stoi, Itoa.Integer, HeadText, EntriesText, SumHash, DecodeEntries, AfterOptions;
    var head, entries, summed := HeadText(tid, kind), EntriesText(options), Summed(tid, kind, options);
    var sum := SumHash(summed);
    SumFits(summed);
    IntegerReturns(sum);
    WrapSmall(sum);
    HeadIsNotEmpty(tid, kind);
    assert raw == head + (entries + AfterOptions(sum, data));
    AtWhole(raw);
    AtSplit(raw, 0, head, entries + AfterOptions(sum, data));
    AtSplit(raw, |head|, entries, AfterOptions(sum, data));
    TailParts(raw, |summed|, sum, data);
    AtChar(raw, |summed|, Itoa.Integer(sum) + ['\r'], 0);
    AtBounds(raw, |summed|, Itoa.Integer(sum) + ['\r']);
    assert [] + options == options;
    AddedAllAtEnd([], options);
    EntriesReturn(raw, |head|, [], options);
    var j := |summed| + |Itoa.Integer(sum)| + 1;
    UntilFinds(raw, |summed|, Itoa.Integer(sum), '\r');
    ExpectFinds(raw, j, "\n");
    ExpectFinds(raw, j + 1, LINE_END);
    assert raw[..|summed|] == summed;
  }

  lemma AtWhole(raw: string)
    ensures At(raw, 0, raw)
  {
    assert raw[0..|raw|] == raw;
  }

  /** Decoding an encoded message gives its contents back, whatever bytes the data are. */
  lemma TextReturns(tid: int, kind: int, options: seq<Entry>, data: string)
    requires Writable(tid, kind, options, data) && Countable(tid, kind, options)
    ensures var raw := Text(tid, kind, options, data);
            Decode(raw) == Done(Contents(tid, kind, options, data), |raw|)
  {
    hide At, Expect, Stoi, Itoa.Integer, HeadText, EntriesText, SumHash, DecodeHead, DecodeOptions, Itoa.Decimal;
    var raw, summed := Text(tid, kind, options, data), Summed(tid, kind, options);
    var sum := SumHash(summed);
    assert raw == summed + AfterOptions(sum, data);
    AtWhole(raw);
    AtSplit(raw, 0, summed, AfterOptions(sum, data));
    AtSplit(raw, 0, HeadText(tid, kind), EntriesText(options));
    HeadReturns(raw, tid, kind);
    OptionsReturn(raw, tid, kind, options, data);
    TailParts(raw, |summed|, sum, data);
    var offset := |summed| + |Itoa.Integer(sum)| + 4;
    BodyReturns(raw, offset, options, data);
    ExpectFinds(raw, offset + |data| + 2, MSG_TAIL);
    AddedAtEnd(options, "size", Itoa.Decimal(|data|));
  }

  lemma BodyReturns(raw: string, offset: nat, options: seq<Entry>, data: string)
    requires Found(options, "size") == Some(Itoa.Decimal(|data|)) && |data| < 0x8000_0000
    requires At(raw, offset, data) && At(raw, offset + |data|, LINE_END)
    ensures DecodeBody(raw, offset, options) == Done(data, offset + |data| + 2)
  {
    hide Stoi, Expect, Itoa.Decimal;
    IntegerReturns(|data|);
    ExpectFinds(raw, offset + |data|, LINE_END);
  }

  /** The whole way: sign, encode, decode, check the sign. */
  lemma MessageReturns(tid: int, kind: int, options: seq<Entry>, data: string, hash: string -> string)
    requires Writable(tid, kind, options, data) && Clean(hash(data))
    requires Countable(tid, kind, Added(options, "sign", hash(data)))
    ensures var signed := Added(options, "sign", hash(data));
            && Writable(tid, kind, signed, data) && Checksum(Summed(tid, kind, signed)) == Some(SumHash(Summed(tid, kind, signed)))
            && Decode(Text(tid, kind, signed, data)).Done?
            && Decode(Text(tid, kind, signed, data)).value == Contents(tid, kind, signed, data)
            && Found(signed, "sign") == Some(hash(data))
  {
    hide Decode, Text, Itoa.Decimal, Summed, SumHash, Checksum, Added, Found, Distinct;
    var signed := Added(options, "sign", hash(data));
    AddedStaysDistinct(options, "sign", hash(data));
    AddedKeys(options, "sign", hash(data));
    AddedIsFound(options, "sign", hash(data), "size");
    AddedIsFound(options, "sign", hash(data), "sign");
    TextReturns(tid, kind, signed, data);
    HeadIsNotEmpty(tid, kind);
    ChecksumCovers(Summed(tid, kind, signed));
  }

  // ----- the decoder with its message -------------------------------------

  /** Reads byte by byte up to a stop. */
  method ReadUntil(raw: string, from: nat, stop: char) returns (r: Option<Piece>)
    ensures r == Until(raw, from, stop)
  {
    var text, i := "", from;
    BehindMore("", stop, Until(raw, from, stop));
    while i < |raw|
      invariant from <= i
      invariant Until(raw, from, stop) == Behind(text, Until(raw, i, stop))
      decreases |raw| - i
    {
      if raw[i] == stop {
        assert text + "" == text;
        return Some(Piece(text, i + 1));
      }
      BehindMore(text, raw[i], Until(raw, i + 1, stop));
      text := text + [raw[i]];
      i := i + 1;
    }
    return None;
  }

  function Behind(text: string, rest: Option<Piece>): Option<Piece>
  {
    match rest
    case Some(p) => Some(Piece(text + p.text, p.next))
    case None => None
  }

  lemma BehindMore(text: string, c: char, rest: Option<Piece>)
    ensures Behind(text + [c], rest) == Behind(text, match rest case Some(p) => Some(Piece([c] + p.text, p.next)) case None => None)
    ensures Behind("", rest) == rest
  {
    if rest.Some? {
      assert (text + [c]) + rest.value.text == text + ([c] + rest.value.text);
      assert "" + rest.value.text == rest.value.text;
    }
  }

  /** Adds the options one by one; the position left is that of the checksum. */
  method DecodeEntriesInto(raw: string, offset: nat, msg: Message) returns (r: Decoded<()>)
    modifies msg`options
    ensures var d := DecodeEntries(raw, offset, old(msg.options));
            && (d.Done? ==> r == Done((), d.next) && msg.options == d.value)
            && (d.Refused? ==> r == Refused) && (d.Broken? ==> r == Broken)
  {
    hide DecodeEntry;
    var i := offset;
    while i < |raw| && raw[i] == '\"'
      invariant DecodeEntries(raw, offset, old(msg.options)) == DecodeEntries(raw, i, msg.options)
      decreases |raw| - i
    {
      match DecodeEntry(raw, i + 1)
      case Refused => return Refused;
      case Broken => return Broken;
      case Done(e, next) =>
        msg.AddOption(e.key, e.value);
        i := next;
    }
    r := if i < |raw| then Done((), i) else Broken;
  }

  /** Fills a cleared message; none where the source goes wrong. */
  method DecodeMessage(raw: string, msg: Message) returns (ok: Option<bool>)
    modifies msg
    ensures ok == Some(true) <==> Decode(raw).Done?
    ensures ok == None <==> Decode(raw).Broken?
    ensures ok == Some(true) ==> Contents(msg.tid, msg.kind, msg.options, msg.data) == Decode(raw).value
  {
    hide DecodeHead, DecodeEntries, Expect, Until, Stoi, SumHash;
    msg.Clear();
    var head := DecodeHead(raw);
    match head
    case Refused => return Some(false);
    case Broken => return None;
    case Done(h, offset) =>
      msg.SetHead(h.tid, h.kind);
      var entries := DecodeEntriesInto(raw, offset, msg);
      match entries
      case Refused => return Some(false);
      case Broken => return None;
      case Done(_, i) =>
        var sum := ReadUntil(raw, i, '\r');
        if sum.None? {
          return None;
        }
        var end := Expect(raw, sum.value.next, "\n");
        if !end.Done? {
          return if end.Refused? then Some(false) else None;
        }
        var n := Stoi(sum.value.text);
        var check := CalculateOptionsHash(raw, Wrap32(i - 1));
        if n.None? || check.None? {
          return None;
        }
        if check.value != Wrap16(n.value) {
          return Some(false);
        }
        var blank := Expect(raw, end.next, LINE_END);
        if !blank.Done? {
          return if blank.Refused? then Some(false) else None;
        }
        ok := DecodeBodyInto(raw, blank.next, msg);
  }

  /** The data, whose length the size option gives, and the tail. */
  method DecodeBodyInto(raw: string, offset: nat, msg: Message) returns (ok: Option<bool>)
    requires msg.data == ""
    modifies msg`data, msg`options
    ensures var d := DecodeBody(raw, offset, old(msg.options));
            var t := if d.Done? then Expect(raw, d.next, MSG_TAIL) else if d.Refused? then Refused else Broken;
            && (ok == Some(true) <==> t.Done?) && (ok == None <==> t.Broken?)
            && (t.Done? ==> msg.data == d.value && msg.options == Added(old(msg.options), "size", Itoa.Decimal(|d.value|)))
  {
    hide Expect, Stoi;
    var text := msg.GetValue("size");
    if text.None? {
      return None;
    }
    var size := Stoi(text.value);
    if size.None? || size.value < 0 || offset + size.value > |raw| {
      return None;
    }
    msg.PushData(raw[offset..offset + size.value]);
    var end := Expect(raw, offset + size.value, LINE_END);
    if !end.Done? {
      return if end.Refused? then Some(false) else None;
    }
    var tail := Expect(raw, end.next, MSG_TAIL);
    ok := if tail.Done? then Some(true) else if tail.Refused? then Some(false) else None;
  }

  /** Whether the sign option is the hash of the data; none when there is no sign. */
  method CheckMessageSign(msg: Message, hash: string -> string) returns (ok: Option<bool>)
    ensures ok == match Found(msg.options, "sign") case Some(sign) => Some(hash(msg.data) == sign) case None => None
  {
    var sign := msg.GetValue("sign");
    if sign.None? {
      return None;
    }
    return Some(hash(msg.data) == sign.value);
  }

  /** A message goes through the text form and its sign checks. */
  method SendAndReceive(sent: Message, received: Message, hash: string -> string) returns (ok: Option<bool>, signed: Option<bool>)
    requires sent != received && Clean(hash(sent.data))
    requires Writable(sent.tid, sent.kind, sent.options, sent.data)
    requires Countable(sent.tid, sent.kind, Added(sent.options, "sign", hash(sent.data)))
    modifies sent, received
    ensures ok == Some(true) && signed == Some(true)
    ensures received.tid == old(sent.tid) && received.kind == old(sent.kind) && received.data == old(sent.data)
    ensures received.options == Added(old(sent.options), "sign", hash(old(sent.data)))
  {
    hide Decode, Writable, Added, WithChecksum, Checksum, SumHash, Summed;
    MessageReturns(sent.tid, sent.kind, sent.options, sent.data, hash);
    var raw := EncodeMessage(sent, hash);
    ok := DecodeMessage(raw.value, received);
    signed := CheckMessageSign(received, hash);
  }
}

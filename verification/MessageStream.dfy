/** The stream parser with the decoders it is shipped with (src/communicate/message_parser.cpp
    on src/communicate/message_factory.cpp): which texts it finds messages in. */
module MessageStream {
  import opened Wrappers
  import opened JsonText
  import opened JsonScalars
  import opened MessageFactory
  import opened MessageSections
  import Itoa
  import NumberTheory
  import P = MessageParser

  // ----- the decoders -----------------------------------------------------

  /** An unsigned 64-bit number with leading blanks, a sign that negates within the word, and
      anything after it; none when there is no digit or when the digits do not fit. */
  function Stoul(s: string): Option<nat>
    decreases |s|
  {
    if s != "" && IsSpace(s[0]) then Stoul(s[1..])
    else
      var digits := DigitPrefix(if s != "" && (s[0] == '-' || s[0] == '+') then s[1..] else s);
      var n := Fold(0, digits);
      if digits == "" || n >= P.WRAP then None
      else if s[0] == '-' && n > 0 then Some(P.WRAP - n)
      else Some(n)
  }

  function DecodeHeadInto(text: string, m: Contents): P.Outcome<Contents>
  {
    match DecodeHead(text)
    case Done(h, _) => P.Filled(m.(tid := h.tid, kind := h.kind))
    case Refused => P.Refused
    case Broken => P.Broken
  }

  function DecodeOptionsInto(text: string, m: Contents): P.Outcome<Contents>
  {
    match DecodeOptions(text, 0, m.options)
    case Done(options, _) => P.Filled(m.(options := options))
    case Refused => P.Refused
    case Broken => P.Broken
  }

  function WithData(m: Contents, data: string): Contents
  {
    m.(data := m.data + data, options := Added(m.options, "size", Itoa.Decimal(|m.data + data|)))
  }

  function DecodeBodyInto(text: string, m: Contents): P.Outcome<Contents>
  {
    match DecodeBody(text, 0, m.options)
    case Done(data, _) => P.Filled(WithData(m, data))
    case Refused => P.Refused
    case Broken => P.Broken
  }

  function DecodeTail(text: string, m: Contents): P.Outcome<Contents>
  {
    match Expect(text, 0, MSG_TAIL)
    case Done(_, _) => P.Filled(m)
    case Refused => P.Refused
    case Broken => P.Broken
  }

  function SizeOf(m: Contents): Option<nat>
  {
    match Found(m.options, "size")
    case Some(text) => Stoul(text)
    case None => None
  }

  function Cleared(): Contents
  {
    Contents(0, 1, [], "")
  }

  /** A new message holds the date of its making; one that was cleared does not. */
  function Shipped(date: string): P.Decoders<Contents>
  {
    P.Decoders(Contents(-1, 0, [Entry("date", date)], ""), Cleared(),
               DecodeHeadInto, DecodeOptionsInto, DecodeBodyInto, DecodeTail, SizeOf)
  }

  // ----- texts ------------------------------------------------------------

  /** The text of a message with any checksum. */
  function TextOf(c: Contents, sum: int): string
  {
    WithChecksum(c.tid, c.kind, c.options, sum, c.data)
  }

  /** What the encoder writes: the checksum covers head and options. */
  lemma EncodedText(c: Contents)
    ensures Text(c.tid, c.kind, c.options, c.data) == TextOf(c, SumHash(Summed(c.tid, c.kind, c.options)))
  {
  }

  ghost predicate Inline(options: seq<Entry>)
  {
    forall e <- options :: Clean(e.key) && Clean(e.value) && '\r' !in e.key && '\r' !in e.value
  }

  ghost predicate Streamable(c: Contents)
  {
    Writable(c.tid, c.kind, c.options, c.data) && Inline(c.options) && Countable(c.tid, c.kind, c.options)
  }

  /** What the parser makes of a message: its options follow the date. */
  function Received(date: string, c: Contents): Contents
  {
    c.(options := AddedAll([Entry("date", date)], c.options))
  }

  // ----- first line and options -------------------------------------------

  function HeadLine(tid: int, kind: int): string
  {
    " " + Itoa.Integer(MSG_VERSION) + " " + Itoa.Integer(kind) + " " + Itoa.Integer(tid)
  }

  lemma FirstLineRead(date: string, current: Option<Contents>, msgs: seq<Contents>, tid: int, kind: int, rest: string)
    requires -0x8000_0000 <= tid < 0x8000_0000 && -32768 <= kind < 32768
    ensures var d := Shipped(date);
            var m := P.Message(d, Start(current, msgs)).(tid := tid, kind := kind);
            P.Run(d, Start(current, msgs), HeadText(tid, kind) + rest) == P.Run(d, InOptions(m, msgs), rest)
  {
    hide P.Run, DecodeHead, Itoa.Integer;
    var d, line := Shipped(date), HeadLine(tid, kind);
    assert HeadText(tid, kind) == "MSG" + line + "\r\n";
    IntegerReturns(MSG_VERSION);
    IntegerReturns(kind);
    IntegerReturns(tid);
    assert '\r' !in line;
    AtWhole(HeadText(tid, kind));
    HeadReturns(HeadText(tid, kind), tid, kind);
    HeadRead(d, current, msgs, line, P.Message(d, Start(current, msgs)).(tid := tid, kind := kind), rest);
  }

  lemma {:induction false} EntriesRead(d: P.Decoders<Contents>, s: P.State<Contents>, options: seq<Entry>, rest: string)
    requires s.head == 0 && s.option == -4 && s.tail < 0 && s.current.Some? && !s.broken && Inline(options)
    ensures P.Run(d, s, EntriesText(options) + rest) == P.Run(d, s.(temp := s.temp + EntriesText(options)), rest)
    decreases |options|
  {
    hide P.Run;
    if options == [] {
      assert "" + rest == rest && s.temp + "" == s.temp;
    } else {
      var e, more := options[0], EntriesText(options[1..]);
      var line := "\"" + e.key + "\":\"" + e.value + "\"";
      assert EntriesText(options) + rest == line + "\r\n" + (more + rest);
      LineRead(d, s, line, more + rest);
      EntriesRead(d, s.(temp := s.temp + (line + "\r\n")), options[1..], rest);
      assert s.temp + (line + "\r\n") + more == s.temp + EntriesText(options);
    }
  }

  lemma SumRead(d: P.Decoders<Contents>, s: P.State<Contents>, sum: int, rest: string)
    requires s.head == 0 && s.option == -4 && s.tail < 0 && s.current.Some? && !s.broken
    requires -0x8000_0000 <= sum < 0x8000_0000
    ensures P.Run(d, s, Itoa.Integer(sum) + "\r\n" + rest) == P.Run(d, s.(temp := s.temp + (Itoa.Integer(sum) + "\r\n")), rest)
  {
    hide P.Run, Itoa.Decimal;
    IntegerReturns(sum);
    var digits := Itoa.Decimal(if sum < 0 then -sum else sum);
    NumeralFolds(if sum < 0 then -sum else sum);
    assert digits[0] in digits;
    if sum < 0 {
      assert Itoa.Integer(sum) + "\r\n" + rest == "-" + (digits + "\r\n" + rest);
      SignRead(d, s, digits + "\r\n" + rest);
      LineRead(d, s.(temp := s.temp + "-"), digits, rest);
      assert s.temp + "-" + (digits + "\r\n") == s.temp + (Itoa.Integer(sum) + "\r\n");
    } else {
      LineRead(d, s, digits, rest);
    }
  }

  /** Decoded alone, the options are accepted if and only if the checksum is theirs alone. */
  lemma OptionsDecode(before: seq<Entry>, options: seq<Entry>, sum: int)
    requires options != [] && Inline(options) && |EntriesText(options)| <= INT_LIMIT && -32768 <= sum < 32768
    ensures var text := EntriesText(options) + (Itoa.Integer(sum) + "\r\n") + "\r\n";
            DecodeOptions(text, 0, before) ==
            if sum == SumHash(EntriesText(options)) then Done(AddedAll(before, options), |text|) else Refused
  {
    hide At, Until, Expect, Stoi, Itoa.Integer, EntryText, SumHash, DecodeEntries;
    var entries, numeral := EntriesText(options), Itoa.Integer(sum);
    var text := entries + (numeral + "\r\n") + "\r\n";
    IntegerReturns(sum);
    WrapSmall(sum);
    assert text == entries + ((numeral + ['\r']) + ("\n" + LINE_END));
    AtWhole(text);
    AtSplit(text, 0, entries, (numeral + ['\r']) + ("\n" + LINE_END));
    AtSplit(text, |entries|, numeral + ['\r'], "\n" + LINE_END);
    AtSplit(text, |entries| + |numeral| + 1, "\n", LINE_END);
    AtChar(text, |entries|, numeral + ['\r'], 0);
    AtBounds(text, |entries|, numeral + ['\r']);
    EntriesReturn(text, 0, before, options);
    AtSplit(text, 0, EntryText(options[0]), EntriesText(options[1..]));
    EntryStarts(text, 0, options[0]);
    UntilFinds(text, |entries|, numeral, '\r');
    ExpectFinds(text, |entries| + |numeral| + 1, "\n");
    ExpectFinds(text, |entries| + |numeral| + 2, LINE_END);
    assert text[..|entries|] == entries;
  }

  lemma OptionsRead(date: string, m: Contents, msgs: seq<Contents>, options: seq<Entry>, sum: int, rest: string)
    requires options != [] && Inline(options) && |EntriesText(options)| <= INT_LIMIT && -32768 <= sum < 32768
    ensures var d := Shipped(date);
            P.Run(d, InOptions(m, msgs), EntriesText(options) + (Itoa.Integer(sum) + "\r\n" + ("\r\n" + rest))) ==
              if sum == SumHash(EntriesText(options))
              then P.Run(d, BeforeBody(m.(options := AddedAll(m.options, options)), msgs), rest)
              else P.Run(d, Start(Some(Cleared()), msgs), rest)
  {
    hide P.Run, Itoa.Integer, EntriesText, DecodeOptions, SumHash;
    var d, s := Shipped(date), InOptions(m, msgs);
    var text := EntriesText(options);
    EntriesRead(d, s, options, Itoa.Integer(sum) + "\r\n" + ("\r\n" + rest));
    assert s.temp + text == text;
    SumRead(d, s.(temp := text), sum, "\r\n" + rest);
    OptionsDecode(m.options, options, sum);
    EmptyLineRead(d, s.(temp := text + (Itoa.Integer(sum) + "\r\n")), m, rest);
  }

  // ----- whole messages ---------------------------------------------------

  /** After its options a message is read on if and only if the checksum is that of the
      options alone; otherwise the parser starts again behind them. */
  lemma AcceptedExactly(date: string, current: Option<Contents>, msgs: seq<Contents>, c: Contents, sum: int, rest: string)
    requires -0x8000_0000 <= c.tid < 0x8000_0000 && -32768 <= c.kind < 32768
    requires c.options != [] && Inline(c.options) && |EntriesText(c.options)| <= INT_LIMIT && -32768 <= sum < 32768
    ensures var d := Shipped(date);
            var m := P.Message(d, Start(current, msgs));
            P.Run(d, Start(current, msgs), Summed(c.tid, c.kind, c.options) + (Itoa.Integer(sum) + "\r\n" + ("\r\n" + rest))) ==
              if sum == SumHash(EntriesText(c.options))
              then P.Run(d, BeforeBody(Contents(c.tid, c.kind, AddedAll(m.options, c.options), m.data), msgs), rest)
              else P.Run(d, Start(Some(Cleared()), msgs), rest)
  {
    hide P.Run, Itoa.Integer, EntriesText, HeadText, SumHash;
    var d := Shipped(date);
    var m := P.Message(d, Start(current, msgs));
    var more := Itoa.Integer(sum) + "\r\n" + ("\r\n" + rest);
    assert Summed(c.tid, c.kind, c.options) + more == HeadText(c.tid, c.kind) + (EntriesText(c.options) + more);
    FirstLineRead(date, current, msgs, c.tid, c.kind, EntriesText(c.options) + more);
    OptionsRead(date, m.(tid := c.tid, kind := c.kind), msgs, c.options, sum, rest);
  }

  lemma StoulReturns(n: nat)
    requires n < P.WRAP
    ensures Stoul(Itoa.Decimal(n)) == Some(n)
  {
    hide Itoa.Decimal, Fold;
    NumeralFolds(n);
    var digits := Itoa.Decimal(n);
    DigitsPrefix(digits);
    assert digits[0] in digits;
  }

  lemma {:induction false} OthersFound(before: seq<Entry>, options: seq<Entry>, key: string)
    requires forall e <- options :: e.key != key
    ensures Found(AddedAll(before, options), key) == Found(before, key)
    decreases |options|
  {
    if options != [] {
      var e := options[0];
      assert forall f <- options[1..] :: f in options;
      OthersFound(Added(before, e.key, e.value), options[1..], key);
      AddedIsFound(before, e.key, e.value, key);
    }
  }

  /** Options that are added keep their values. */
  lemma {:induction false} AddedAllFound(before: seq<Entry>, options: seq<Entry>, key: string)
    requires Distinct(options) && Found(options, key).Some?
    ensures Found(AddedAll(before, options), key) == Found(options, key)
    decreases |options|
  {
    var e, rest := options[0], options[1..];
    assert forall i, j :: 0 <= i < j < |rest| ==> rest[i] == options[i + 1] && rest[j] == options[j + 1];
    if e.key == key {
      forall f | f in rest
        ensures f.key != key
      {
        var i :| 0 <= i < |rest| && rest[i] == f;
        assert options[i + 1] == f;
      }
      OthersFound(Added(before, e.key, e.value), rest, key);
      AddedIsFound(before, e.key, e.value, key);
    } else {
      AddedAllFound(Added(before, e.key, e.value), rest, key);
    }
  }

  /** Body and tail of a message whose size option is the length of its data. */
  lemma RestRead(date: string, m: Contents, msgs: seq<Contents>, data: string, rest: string)
    requires Found(m.options, "size") == Some(Itoa.Decimal(|data|)) && |data| < 0x8000_0000 && m.data == ""
    ensures var d := Shipped(date);
            P.Run(d, BeforeBody(m, msgs), data + "\r\n" + ("GSM" + rest)) == P.Run(d, Start(None, msgs + [m.(data := data)]), rest)
  {
    hide P.Run, Itoa.Decimal, Stoi, Stoul, DecodeBody, Expect;
    var d, n := Shipped(date), m.(data := data);
    StoulReturns(|data|);
    AtWhole(data + "\r\n");
    AtSplit(data + "\r\n", 0, data, "\r\n");
    BodyReturns(data + "\r\n", 0, m.options, data);
    AddedAtEnd(m.options, "size", Itoa.Decimal(|data|));
    assert m.data + data == data;
    BodyRead(d, m, msgs, data, n, "GSM" + rest);
    AtWhole("GSM");
    ExpectFinds("GSM", 0, "GSM");
    TailRead(d, n, msgs, rest);
  }

  lemma SizeIsThere(c: Contents)
    requires Streamable(c)
    ensures c.options != [] && |EntriesText(c.options)| <= INT_LIMIT
  {
  }

  /** A message between messages is found and put in the queue, if and only if its checksum is
      that of the options alone; otherwise the parser starts again behind the options. */
  lemma MessageRead(date: string, msgs: seq<Contents>, c: Contents, sum: int, rest: string)
    requires Streamable(c) && -32768 <= sum < 32768
    ensures var d := Shipped(date);
            P.Run(d, Start(None, msgs), TextOf(c, sum) + rest) ==
              if sum == SumHash(EntriesText(c.options))
              then P.Run(d, Start(None, msgs + [Received(date, c)]), rest)
              else P.Run(d, Start(Some(Cleared()), msgs), c.data + "\r\n" + ("GSM" + rest))
  {
    hide P.Run, Itoa.Integer, Itoa.Decimal, EntriesText, Summed, SumHash;
    var d, more := Shipped(date), c.data + "\r\n" + ("GSM" + rest);
    assert TextOf(c, sum) + rest == Summed(c.tid, c.kind, c.options) + (Itoa.Integer(sum) + "\r\n" + ("\r\n" + more));
    SizeIsThere(c);
    AcceptedExactly(date, None, msgs, c, sum, more);
    AddedAllFound([Entry("date", date)], c.options, "size");
    var m := Contents(c.tid, c.kind, AddedAll([Entry("date", date)], c.options), "");
    RestRead(date, m, msgs, c.data, rest);
  }

  // ----- streams ----------------------------------------------------------

  /** A message the parser finds: its checksum covers the options alone. */
  function Streamed(c: Contents): string
  {
    TextOf(c, SumHash(EntriesText(c.options)))
  }

  function StreamOf(sent: seq<Contents>): string
  {
    if sent == [] then "" else Streamed(sent[0]) + StreamOf(sent[1..])
  }

  function AllReceived(date: string, sent: seq<Contents>): seq<Contents>
  {
    if sent == [] then [] else [Received(date, sent[0])] + AllReceived(date, sent[1..])
  }

  lemma {:induction false} StreamRead(date: string, msgs: seq<Contents>, sent: seq<Contents>)
    requires forall c <- sent :: Streamable(c)
    ensures P.Run(Shipped(date), Start(None, msgs), StreamOf(sent)) == Start(None, msgs + AllReceived(date, sent))
    decreases |sent|
  {
    hide P.Run, Start, Streamed, Received, Streamable, Shipped;
    if sent == [] {
      P.NothingToRun(Shipped(date), Start<Contents>(None, msgs));
      assert msgs + [] == msgs;
    } else {
      var c, more := sent[0], sent[1..];
      assert forall b <- more :: b in sent;
      OneRead(date, msgs, c, StreamOf(more));
      StreamRead(date, msgs + [Received(date, c)], more);
      assert msgs + [Received(date, c)] + AllReceived(date, more) == msgs + ([Received(date, c)] + AllReceived(date, more));
    }
  }

  lemma OneRead(date: string, msgs: seq<Contents>, c: Contents, rest: string)
    requires Streamable(c)
    ensures P.Run(Shipped(date), Start(None, msgs), Streamed(c) + rest)
         == P.Run(Shipped(date), Start(None, msgs + [Received(date, c)]), rest)
  {
    hide P.Run, Streamable, EntriesText, SumHash, TextOf;
    SumFits(EntriesText(c.options));
    MessageRead(date, msgs, c, SumHash(EntriesText(c.options)), rest);
  }

  /** Any number of messages, cut into any pieces, arrive in order and nothing else does. */
  lemma StreamArrives(date: string, sent: seq<Contents>, pieces: seq<string>)
    requires (forall c <- sent :: Streamable(c)) && Joined(pieces) == StreamOf(sent)
    ensures RunAll(Shipped(date), P.Initial(), pieces) == Start(None, AllReceived(date, sent))
  {
    hide P.Run, StreamOf, RunAll, Joined;
    StreamRead(date, [], sent);
    assert [] + AllReceived(date, sent) == AllReceived(date, sent);
    AnyPieces(Shipped(date), P.Initial(), pieces);
  }

  /** A parser object with the shipped decoders takes the messages of a stream out of its
      pieces. */
  method ReceiveAll(date: string, pieces: seq<string>, ghost sent: seq<Contents>) returns (received: seq<Contents>)
    requires (forall c <- sent :: Streamable(c)) && Joined(pieces) == StreamOf(sent)
    ensures received == AllReceived(date, sent)
  {
    hide RunAll, Joined, StreamOf, AllReceived;
    var parser := FeedAll(Shipped(date), pieces);
    StreamArrives(date, sent, pieces);
    received := parser.msgs;
  }

  // ----- what the encoder writes ------------------------------------------

  lemma {:induction false} TotalJoined(a: string, b: string)
    ensures Total(a + b) == Total(a) + Total(b)
    decreases |b|
  {
    if b == "" {
      assert a + b == a;
    } else {
      assert (a + b)[..|a + b| - 1] == a + b[..|b| - 1];
      TotalJoined(a, b[..|b| - 1]);
    }
  }

  predicate IsAscii(c: char)
  {
    0 < c as int < 128
  }

  lemma {:induction false} TotalBounds(s: string)
    requires forall c <- s :: IsAscii(c)
    ensures |s| <= Total(s) <= 127 * |s|
    decreases |s|
  {
    if s != "" {
      assert IsAscii(s[|s| - 1]);
      assert forall c <- s[..|s| - 1] :: c in s;
      TotalBounds(s[..|s| - 1]);
    }
  }

  lemma {:induction false} DecimalLength(n: nat, k: nat)
    requires n < Itoa.Pow10(k) && k > 0
    ensures |Itoa.Decimal(n)| <= k
    decreases k
  {
    if n >= 10 {
      DecimalLength(n / 10, k - 1);
    }
  }

  lemma IntegerLength(n: int)
    requires -0x8000_0000 <= n < 0x8000_0000
    ensures 0 < |Itoa.Integer(n)| <= 11
    ensures forall c <- Itoa.Integer(n) :: IsAscii(c)
  {
    hide Itoa.Decimal;
    var m := if n < 0 then -n else n;
    Itoa.Powers();
    assert Itoa.Pow10(10) == 10 * Itoa.Pow10(9) == 10 * (10 * Itoa.Pow10(8));
    DecimalLength(m, 10);
    NumeralFolds(m);
    assert forall c <- Itoa.Decimal(m) :: IsDigit(c);
  }

  /** The bytes of a first line never sum up to nothing in 16 bits. */
  lemma HeadCounts(tid: int, kind: int, options: seq<Entry>)
    requires -0x8000_0000 <= tid < 0x8000_0000 && -32768 <= kind < 32768
    ensures SumHash(Summed(tid, kind, options)) != SumHash(EntriesText(options))
  {
    hide Itoa.Integer, EntriesText, SumHash, Total;
    var head := HeadText(tid, kind);
    IntegerLength(MSG_VERSION);
    IntegerLength(kind);
    IntegerLength(tid);
    TotalBounds(head);
    TotalJoined(head, EntriesText(options));
    ChecksumIsSum(Summed(tid, kind, options));
    ChecksumIsSum(EntriesText(options));
    WrapMoves(Total(EntriesText(options)), Total(head));
  }

  lemma WrapMoves(n: int, k: nat)
    requires 0 < k < 65536
    ensures Wrap16(k + n) != Wrap16(n)
  {
  }

  /** No message arrives as the encoder writes it: the parser refuses its options and starts
      again behind them. */
  lemma EncodedIsRefused(date: string, msgs: seq<Contents>, c: Contents, rest: string)
    requires Streamable(c)
    ensures var d := Shipped(date);
            P.Run(d, Start(None, msgs), Text(c.tid, c.kind, c.options, c.data) + rest) ==
            P.Run(d, Start(Some(Cleared()), msgs), c.data + "\r\n" + ("GSM" + rest))
  {
    hide P.Run, EntriesText, SumHash, TextOf, Text, Itoa.Decimal;
    EncodedText(c);
    SumFits(Summed(c.tid, c.kind, c.options));
    HeadCounts(c.tid, c.kind, c.options);
    MessageRead(date, msgs, c, SumHash(Summed(c.tid, c.kind, c.options)), rest);
  }

  /** Data without an M hold no message: then the queue stays empty. */
  lemma EncodedIsLost(date: string, c: Contents)
    requires Streamable(c) && 'M' !in c.data
    ensures P.Run(Shipped(date), P.Initial(), Text(c.tid, c.kind, c.options, c.data)).msgs == []
  {
    hide P.Run, Text, P.Step;
    var d, s := Shipped(date), Start(Some(Cleared()), []);
    var raw, rest := Text(c.tid, c.kind, c.options, c.data), c.data + "\r\n" + "GS";
    assert raw + "" == raw && "GSM" + "" == "GSM" && rest + "M" == c.data + "\r\n" + "GSM";
    EncodedIsRefused(date, [], c, "");
    NothingFound(d, s, rest);
    var t := P.Run(d, s, rest);
    NotSwallowed(d, s, rest);
    P.PiecesExactly(d, s, rest, "M");
    LastMark(d, t);
  }

  // ----- splitting --------------------------------------------------------

  /** The shipped parser tells pieces apart: a message with the size 2^64 - 2, whatever its head,
      and any two pieces of what follows its options. */
  lemma PiecesDiffer(date: string, tid: int, kind: int, a: string, b: string)
    requires -0x8000_0000 <= tid < 0x8000_0000 && -32768 <= kind < 32768 && a != "" && b != ""
    ensures var d := Shipped(date);
            var options := [Entry("size", Itoa.Decimal(P.WRAP - 2))];
            var sum := Itoa.Integer(SumHash(EntriesText(options)));
            var text := Summed(tid, kind, options) + (sum + "\r\n" + ("\r\n" + a));
            P.Run(d, P.Run(d, P.Initial(), text), b) != P.Run(d, P.Initial(), text + b)
  {
    hide P.Run, Itoa.Integer, Itoa.Decimal, EntriesText, SumHash, Summed, Stoul;
    var d, options := Shipped(date), [Entry("size", Itoa.Decimal(P.WRAP - 2))];
    var c, sum := Contents(tid, kind, options, ""), SumHash(EntriesText(options));
    var m := Contents(tid, kind, AddedAll([Entry("date", date)], options), "");
    SumFits(EntriesText(options));
    NumeralInline(P.WRAP - 2);
    AcceptedExactly(date, None, [], c, sum, a);
    AcceptedExactly(date, None, [], c, sum, a + b);
    var start := Summed(tid, kind, options);
    assert start + (Itoa.Integer(sum) + "\r\n" + ("\r\n" + a)) + b == start + (Itoa.Integer(sum) + "\r\n" + ("\r\n" + (a + b)));
    AddedAllFound([Entry("date", date)], options, "size");
    StoulReturns(P.WRAP - 2);
    P.SwallowedDiffers(d, BeforeBody(m, []), a, b);
  }

  lemma NumeralInline(n: nat)
    requires n < P.WRAP
    ensures var options := [Entry("size", Itoa.Decimal(n))];
            Inline(options) && |EntriesText(options)| <= INT_LIMIT
  {
    hide Itoa.Decimal, Fold;
    NumeralFolds(n);
    assert forall c <- Itoa.Decimal(n) :: IsDigit(c);
    Itoa.Powers();
    NumberTheory.PowAdd(10, 8, 8);
    NumberTheory.PowAdd(10, 16, 4);
    DecimalLength(n, 20);
    var e := Entry("size", Itoa.Decimal(n));
    assert [e][1..] == [] && EntriesText([e]) == EntryText(e) + "";
  }
}

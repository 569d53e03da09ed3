/** What the stream parser makes of each section of a well-formed message, whatever its
    decoders are. */
module MessageSections {
  import opened Wrappers
  import opened MessageParser

  /** The parser between messages. */
  function Start<M>(current: Option<M>, msgs: seq<M>): State<M>
  {
    State(START_HEAD, START_OPTION, START_BODY, START_TAIL, "", current, msgs, false)
  }

  function InOptions<M>(m: M, msgs: seq<M>): State<M>
  {
    State(0, START_OPTION, START_BODY, START_TAIL, "", Some(m), msgs, false)
  }

  function BeforeBody<M>(m: M, msgs: seq<M>): State<M>
  {
    State(0, 0, START_BODY, START_TAIL, "", Some(m), msgs, false)
  }

  function BeforeTail<M>(m: M, msgs: seq<M>): State<M>
  {
    State(0, 0, 0, START_TAIL, "", Some(m), msgs, false)
  }

  /** One byte of a section that is not its last. */
  lemma ByteRead<M>(d: Decoders<M>, s: State<M>, c: char, rest: string)
    requires !s.broken && !Swallows(d, s)
    ensures Run(d, s, [c] + rest) == Run(d, Step(d, s, c), rest)
  {
    assert ([c] + rest)[1..] == rest;
  }

  // ----- the first line ---------------------------------------------------

  lemma {:induction false} HeadBytes<M>(d: Decoders<M>, s: State<M>, bytes: string, rest: string)
    requires s.head == -2 && s.tail < 0 && s.current.Some? && !s.broken && '\r' !in bytes
    ensures Run(d, s, bytes + rest) == Run(d, s.(temp := s.temp + bytes), rest)
    decreases |bytes|
  {
    if bytes == "" {
      assert bytes + rest == rest && s.temp + bytes == s.temp;
    } else {
      var c, more := bytes[0], bytes[1..];
      assert bytes + rest == [c] + (more + rest);
      assert Step(d, s, c) == s.(temp := s.temp + [c]);
      hide Run, Step;
      ByteRead(d, s, c, more + rest);
      HeadBytes(d, s.(temp := s.temp + [c]), more, rest);
      assert s.temp + [c] + more == s.temp + bytes;
    }
  }

  lemma MarkRead<M>(d: Decoders<M>, current: Option<M>, msgs: seq<M>, rest: string)
    ensures var s := Start(current, msgs);
            Run(d, s, "MSG" + rest) == Run(d, s.(head := -2, temp := "MSG", current := Some(Message(d, s))), rest)
  {
    hide Run;
    var s := Start(current, msgs);
    var t := s.(current := Some(Message(d, s)));
    assert "MSG" + rest == ['M'] + (['S'] + (['G'] + rest));
    assert "" + ['M'] == "M" && "M" + ['S'] == "MS" && "MS" + ['G'] == "MSG";
    ByteRead(d, s, 'M', ['S'] + (['G'] + rest));
    ByteRead(d, t.(head := -4, temp := "M"), 'S', ['G'] + rest);
    ByteRead(d, t.(head := -3, temp := "MS"), 'G', rest);
  }

  /** A first line without line ends inside is given whole to its decoder. */
  lemma HeadRead<M>(d: Decoders<M>, current: Option<M>, msgs: seq<M>, line: string, m: M, rest: string)
    requires '\r' !in line && d.head("MSG" + line + "\r\n", Message(d, Start(current, msgs))) == Filled(m)
    ensures Run(d, Start(current, msgs), "MSG" + line + "\r\n" + rest) == Run(d, InOptions(m, msgs), rest)
  {
    hide Run;
    var s := Start(current, msgs);
    var t := s.(head := -2, temp := "MSG", current := Some(Message(d, s)));
    var text := "MSG" + line;
    assert "MSG" + line + "\r\n" + rest == "MSG" + (line + (['\r'] + (['\n'] + rest)));
    assert text + ['\r'] + ['\n'] == text + "\r\n";
    MarkRead(d, current, msgs, line + (['\r'] + (['\n'] + rest)));
    HeadBytes(d, t, line, ['\r'] + (['\n'] + rest));
    ByteRead(d, t.(temp := text), '\r', ['\n'] + rest);
    ByteRead(d, t.(head := -1, temp := text + ['\r']), '\n', rest);
  }

  // ----- the options ------------------------------------------------------

  lemma {:induction false} OptionBytes<M>(d: Decoders<M>, s: State<M>, bytes: string, rest: string)
    requires s.head == 0 && s.option == -3 && s.tail < 0 && s.current.Some? && !s.broken && '\r' !in bytes
    ensures Run(d, s, bytes + rest) == Run(d, s.(temp := s.temp + bytes), rest)
    decreases |bytes|
  {
    if bytes == "" {
      assert bytes + rest == rest && s.temp + bytes == s.temp;
    } else {
      var c, more := bytes[0], bytes[1..];
      assert bytes + rest == [c] + (more + rest);
      assert Step(d, s, c) == s.(temp := s.temp + [c]);
      hide Run, Step;
      ByteRead(d, s, c, more + rest);
      OptionBytes(d, s.(temp := s.temp + [c]), more, rest);
      assert s.temp + [c] + more == s.temp + bytes;
    }
  }

  /** A line that begins with a quote or a digit. */
  predicate IsLine(line: string)
  {
    line != "" && (line[0] == '\"' || '0' <= line[0] <= '9') && '\r' !in line
  }

  /** Lines are collected until the line after them is empty. */
  lemma LineRead<M>(d: Decoders<M>, s: State<M>, line: string, rest: string)
    requires s.head == 0 && s.option == -4 && s.tail < 0 && s.current.Some? && !s.broken && IsLine(line)
    ensures Run(d, s, line + "\r\n" + rest) == Run(d, s.(temp := s.temp + (line + "\r\n")), rest)
  {
    hide Run;
    var c, more := line[0], line[1..];
    var t := s.(option := -3, temp := s.temp + [c]);
    var u := s.(option := -2, temp := s.temp + line + ['\r']);
    assert line + "\r\n" + rest == [c] + (more + (['\r'] + (['\n'] + rest)));
    ByteRead(d, s, c, more + (['\r'] + (['\n'] + rest)));
    OptionBytes(d, t, more, ['\r'] + (['\n'] + rest));
    assert t.temp + more == s.temp + line;
    ByteRead(d, t.(temp := s.temp + line), '\r', ['\n'] + rest);
    ByteRead(d, u, '\n', rest);
    assert s.temp + line + ['\r'] + ['\n'] == s.temp + (line + "\r\n");
  }

  /** A byte before a line that begins none, as the sign of a number, is collected too. */
  lemma SignRead<M>(d: Decoders<M>, s: State<M>, rest: string)
    requires s.head == 0 && s.option == -4 && s.tail < 0 && s.current.Some? && !s.broken
    ensures Run(d, s, "-" + rest) == Run(d, s.(temp := s.temp + "-"), rest)
  {
    hide Run;
    ByteRead(d, s, '-', rest);
  }

  /** The empty line gives the lines before it to their decoder. */
  lemma EmptyLineRead<M>(d: Decoders<M>, s: State<M>, m: M, rest: string)
    requires s == InOptions(m, s.msgs).(temp := s.temp)
    ensures var r := d.option(s.temp + "\r\n", m);
            && (r.Filled? ==> Run(d, s, "\r\n" + rest) == Run(d, BeforeBody(r.msg, s.msgs), rest))
            && (r.Refused? ==> Run(d, s, "\r\n" + rest) == Run(d, Start(Some(d.cleared), s.msgs), rest))
  {
    hide Run;
    assert "\r\n" + rest == ['\r'] + (['\n'] + rest);
    assert s.temp + ['\r'] + ['\n'] == s.temp + "\r\n";
    ByteRead(d, s, '\r', ['\n'] + rest);
    ByteRead(d, s.(option := -1, temp := s.temp + ['\r']), '\n', rest);
  }

  // ----- the body and the tail --------------------------------------------

  lemma {:induction false} BodyBytes<M>(d: Decoders<M>, s: State<M>, bytes: string, rest: string)
    requires s.head == 0 && s.option == 0 && s.tail < 0 && s.current.Some? && !s.broken && s.body > |bytes|
    ensures Run(d, s, bytes + rest) == Run(d, s.(temp := s.temp + bytes, body := s.body - |bytes|), rest)
    decreases |bytes|
  {
    if bytes == "" {
      assert bytes + rest == rest && s.temp + bytes == s.temp;
    } else {
      var c, more := bytes[0], bytes[1..];
      var t := s.(temp := s.temp + [c], body := s.body - 1);
      assert bytes + rest == [c] + (more + rest);
      assert Step(d, s, c) == t;
      hide Run, Step;
      ByteRead(d, s, c, more + rest);
      BodyBytes(d, t, more, rest);
      assert s.temp + [c] + more == s.temp + bytes;
    }
  }

  /** The body is as many bytes as the size option says, and a line end. */
  lemma BodyRead<M>(d: Decoders<M>, m: M, msgs: seq<M>, data: string, n: M, rest: string)
    requires |data| < WRAP / 2 - 2 && d.size(m) == Some(|data|) && d.body(data + "\r\n", m) == Filled(n)
    ensures Run(d, BeforeBody(m, msgs), data + "\r\n" + rest) == Run(d, BeforeTail(n, msgs), rest)
  {
    hide Run;
    var s, text := BeforeBody(m, msgs), data + "\r";
    var c, more := text[0], text[1..];
    var t := s.(temp := [c], body := |data| + 1);
    assert data + "\r\n" + rest == [c] + (more + (['\n'] + rest));
    assert "" + [c] == [c];
    assert Counter(d, s) == |data| + 2;
    ByteRead(d, s, c, more + (['\n'] + rest));
    BodyBytes(d, t, more, ['\n'] + rest);
    assert [c] + more == text && text + ['\n'] == data + "\r\n";
    ByteRead(d, t.(temp := text, body := 1), '\n', rest);
  }

  /** The tail puts the message in the queue, and the parser starts again. */
  lemma TailRead<M>(d: Decoders<M>, m: M, msgs: seq<M>, rest: string)
    requires d.tail("GSM", m) == Filled(m)
    ensures Run(d, BeforeTail(m, msgs), "GSM" + rest) == Run(d, Start(None, msgs + [m]), rest)
  {
    hide Run;
    var s := BeforeTail(m, msgs);
    assert "GSM" + rest == ['G'] + (['S'] + (['M'] + rest));
    assert "" + ['G'] == "G" && "G" + ['S'] == "GS" && "GS" + ['M'] == "GSM";
    ByteRead(d, s, 'G', ['S'] + (['M'] + rest));
    ByteRead(d, s.(tail := -3, temp := "G"), 'S', ['M'] + rest);
    ByteRead(d, s.(tail := -2, temp := "GS"), 'M', rest);
  }

  // ----- outside messages -------------------------------------------------

  /** Bytes that begin no message leave the queue as it is. */
  lemma {:induction false} NothingFound<M>(d: Decoders<M>, s: State<M>, bytes: string)
    requires s.head == -5 && s.tail < 0 && !s.broken && 'M' !in bytes
    ensures Run(d, s, bytes).msgs == s.msgs && Run(d, s, bytes).head == -5
    ensures Run(d, s, bytes).tail == s.tail && !Run(d, s, bytes).broken
    decreases |bytes|
  {
    hide Step;
    if bytes != "" {
      NoMark(d, s, bytes[0]);
      NothingFound(d, Step(d, s, bytes[0]), bytes[1..]);
    }
  }

  lemma {:induction false} NotSwallowed<M>(d: Decoders<M>, s: State<M>, bytes: string)
    requires s.head == -5 && s.tail < 0 && !s.broken && 'M' !in bytes
    ensures !SwallowsIn(d, s, bytes)
    decreases |bytes|
  {
    hide Step;
    if bytes != "" {
      NoMark(d, s, bytes[0]);
      NotSwallowed(d, Step(d, s, bytes[0]), bytes[1..]);
    }
  }

  lemma LastMark<M>(d: Decoders<M>, s: State<M>)
    requires s.head == -5 && s.tail < 0 && !s.broken
    ensures Run(d, s, "M").msgs == s.msgs
  {
    assert "M"[1..] == "";
    assert Step(d, s, 'M').msgs == s.msgs;
  }

  lemma NoMark<M>(d: Decoders<M>, s: State<M>, c: char)
    requires s.head == -5 && s.tail < 0 && !s.broken && c != 'M'
    ensures var t := Step(d, s, c); t.head == -5 && t.tail == s.tail && !t.broken && t.msgs == s.msgs
  {
  }

  // ----- pieces -----------------------------------------------------------

  /** Once a body has swallowed the input, the parser does not come back to a first line. */
  lemma {:induction false} SwallowedStays<M>(d: Decoders<M>, s: State<M>, a: string, b: string)
    requires SwallowsIn(d, s, a)
    ensures Run(d, s, a + b).head >= 0
    decreases |a|
  {
    hide Step;
    assert (a + b)[0] == a[0] && (a + b)[1..] == a[1..] + b;
    if !Swallows(d, s) {
      SwallowedStays(d, Step(d, s, a[0]), a[1..], b);
    }
  }

  lemma {:induction false} RunWaits<M>(d: Decoders<M>, s: State<M>, bytes: string)
    requires Waiting(s)
    ensures Waiting(Run(d, s, bytes))
    decreases |bytes|
  {
    hide Step;
    if bytes != "" && !s.broken && !Swallows(d, s) {
      StepWaits(d, s, bytes[0]);
      RunWaits(d, Step(d, s, bytes[0]), bytes[1..]);
    }
  }

  /** The parser is called with one piece after the other. */
  function RunAll<M>(d: Decoders<M>, s: State<M>, pieces: seq<string>): State<M>
    decreases |pieces|
  {
    if pieces == [] then s else RunAll(d, Run(d, s, pieces[0]), pieces[1..])
  }

  function Joined(pieces: seq<string>): string
  {
    if pieces == [] then "" else pieces[0] + Joined(pieces[1..])
  }

  /** When the whole input leads back between messages, so does every way of cutting it. */
  lemma {:induction false} AnyPieces<M>(d: Decoders<M>, s: State<M>, pieces: seq<string>)
    requires Waiting(s) && Run(d, s, Joined(pieces)).head < 0
    ensures RunAll(d, s, pieces) == Run(d, s, Joined(pieces))
    decreases |pieces|
  {
    hide Run;
    if pieces == [] {
      NothingToRun(d, s);
    } else {
      var a, b := pieces[0], Joined(pieces[1..]);
      if SwallowsIn(d, s, a) {
        SwallowedStays(d, s, a, b);
      }
      PiecesExactly(d, s, a, b);
      RunWaits(d, s, a);
      AnyPieces(d, Run(d, s, a), pieces[1..]);
    }
  }

  lemma {:induction false} BrokenStays<M>(d: Decoders<M>, s: State<M>, pieces: seq<string>)
    requires s.broken
    ensures RunAll(d, s, pieces) == s
    decreases |pieces|
  {
    if pieces != [] {
      NothingRead(d, s, pieces[0]);
      BrokenStays(d, s, pieces[1..]);
    }
  }

  /** A new parser object is fed piece by piece, until a call goes wrong. */
  method FeedAll<M(0)>(d: Decoders<M>, pieces: seq<string>) returns (parser: Parser<M>)
    ensures parser.Now() == RunAll(d, Initial(), pieces)
  {
    hide Run;
    parser := new Parser(d);
    var i := 0;
    assert pieces[0..] == pieces;
    while i < |pieces| && !parser.broken
      invariant fresh(parser) && parser.d == d && 0 <= i <= |pieces|
      invariant Waiting(parser.Now()) && (!parser.broken ==> parser.buffer == "")
      invariant RunAll(d, Initial(), pieces) == RunAll(d, parser.Now(), pieces[i..])
    {
      parser.Parse(pieces[i]);
      assert pieces[i..][1..] == pieces[i + 1..];
      i := i + 1;
    }
    if parser.broken {
      BrokenStays(d, parser.Now(), pieces[i..]);
    }
  }
}

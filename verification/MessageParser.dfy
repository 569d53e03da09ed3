/** The parser that finds messages in a byte stream, fed in pieces
    (src/communicate/message_parser.cpp). What the sections of a message mean is left to
    the decoders. */
module MessageParser {
  import opened Wrappers

  const WRAP := 0x1_0000_0000_0000_0000

  /** A section decoder fills the message or refuses, or the call goes wrong: an exception
      that nobody catches, or bytes read past the end. */
  datatype Outcome<M> = Filled(msg: M) | Refused | Broken

  /** The section decoders and the message operations the parser uses. The size is the unsigned
      number in the size option; without one the source throws. */
  datatype Decoders<!M> = Decoders(
    blank: M,
    cleared: M,
    head: (string, M) -> Outcome<M>,
    option: (string, M) -> Outcome<M>,
    body: (string, M) -> Outcome<M>,
    tail: (string, M) -> Outcome<M>,
    size: M -> Option<nat>)

  /** The counters, the bytes of the section so far, the message being filled, the finished
      ones, and whether a call went wrong. */
  datatype State<M> = State(head: int, option: int, body: int, tail: int, temp: string, current: Option<M>, msgs: seq<M>,
                            broken: bool)

  const START_HEAD := -5
  const START_OPTION := -4
  const START_BODY := -1
  const START_TAIL := -4

  function Initial<M>(): State<M>
  {
    State(START_HEAD, START_OPTION, START_BODY, START_TAIL, "", None, [], false)
  }

  function Reset<M>(d: Decoders<M>, s: State<M>): State<M>
  {
    State(START_HEAD, START_OPTION, START_BODY, START_TAIL, "",
          if s.current.Some? then Some(d.cleared) else None, s.msgs, s.broken)
  }

  function Message<M>(d: Decoders<M>, s: State<M>): M
  {
    if s.current.Some? then s.current.value else d.blank
  }

  // ----- one byte ---------------------------------------------------------

  function HeadStep<M>(d: Decoders<M>, s: State<M>, c: char): State<M>
  {
    var t := s.(temp := s.temp + [c]);
    if s.head == -5 then (if c == 'M' then t.(head := -4) else t)
    else if s.head == -4 then (if c == 'S' then t.(head := -3) else Reset(d, t))
    else if s.head == -3 then (if c == 'G' then t.(head := -2) else Reset(d, t))
    else if s.head == -2 then (if c == '\r' then t.(head := -1) else t)
    else if s.head == -1 then
      if c != '\n' then Reset(d, t)
      else
        match d.head(t.temp, Message(d, t))
        case Filled(m) => t.(head := 0, temp := "", current := Some(m))
        case Refused => Reset(d, t)
        case Broken => t.(head := 0, broken := true)
    else t
  }

  function OptionStep<M>(d: Decoders<M>, s: State<M>, c: char): State<M>
  {
    var t := s.(temp := s.temp + [c]);
    if s.option == -4 then
      if c == '\"' then t.(option := -3)
      else if c == '\r' then t.(option := -1)
      else if '0' <= c <= '9' then t.(option := -3)
      else t
    else if s.option == -3 then (if c == '\r' then t.(option := -2) else t)
    else if s.option == -2 then (if c == '\n' then t.(option := -4) else Reset(d, t))
    else if s.option == -1 then
      if c != '\n' then Reset(d, t)
      else
        match d.option(t.temp, Message(d, t))
        case Filled(m) => t.(option := 0, temp := "", current := Some(m))
        case Refused => Reset(d, t)
        case Broken => t.(broken := true)
    else t
  }

  /** The number of bytes still to come in the body, as a signed word: the size and the two
      bytes of the line end. */
  function Remaining(size: nat): int
  {
    var n := (size + 2) % WRAP;
    if n < WRAP / 2 then n else n - WRAP
  }

  function BodyStep<M>(d: Decoders<M>, s: State<M>, c: char): State<M>
  {
    var t := s.(temp := s.temp + [c]);
    if s.body == -1 && d.size(Message(d, s)).None? then t.(broken := true)
    else
      var n := if s.body == -1 then Remaining(d.size(Message(d, s)).value) else s.body;
      if n > 1 then t.(body := n - 1)
      else if n == 1 then
        if c != '\n' then Reset(d, t)
        else
          match d.body(t.temp, Message(d, t))
          case Filled(m) => t.(body := 0, temp := "", current := Some(m))
          case Refused => Reset(d, t)
          case Broken => t.(body := n, broken := true)
      else t.(body := n)
  }

  function TailStep<M>(d: Decoders<M>, s: State<M>, c: char): State<M>
  {
    var t := s.(temp := s.temp + [c]);
    if s.tail == -4 then (if c == 'G' then t.(tail := -3) else Reset(d, t))
    else if s.tail == -3 then (if c == 'S' then t.(tail := -2) else Reset(d, t))
    else if s.tail == -2 && c != 'M' then Reset(d, t)
    else
      match d.tail(t.temp, Message(d, t))
      case Filled(m) => t.(tail := 0, temp := "", current := Some(m))
      case Refused => Reset(d, t)
      case Broken => t.(tail := -1, broken := true)
  }

  /** The section the counters select reads the byte; a finished message is put in the queue. */
  function Step<M>(d: Decoders<M>, before: State<M>, c: char): State<M>
  {
    var s := before.(current := Some(Message(d, before)));
    var t := if s.head < 0 then HeadStep(d, s, c)
             else if s.option < 0 then OptionStep(d, s, c)
             else if s.body != 0 then BodyStep(d, s, c)
             else TailStep(d, s, c);
    Finished(d, t)
  }

  function Finished<M>(d: Decoders<M>, t: State<M>): State<M>
  {
    if t.tail == 0 then Reset(d, t.(msgs := t.msgs + [Message(d, t)], current := None)) else t
  }

  /** The counter a byte of the body starts from, and what counting leaves of it. */
  function Counter<M>(d: Decoders<M>, s: State<M>): int
  {
    if s.body == -1 && d.size(Message(d, s)).Some? then Remaining(d.size(Message(d, s)).value) else s.body
  }

  function CounterAfter<M>(d: Decoders<M>, s: State<M>): int
  {
    if Counter(d, s) > 1 then Counter(d, s) - 1 else Counter(d, s)
  }

  /** A body whose counter comes out as zero leaves its own loop running: the rest of the
      bytes at hand is swallowed. */
  predicate Swallows<M>(d: Decoders<M>, s: State<M>)
  {
    s.head >= 0 && s.option >= 0 && s.body == -1 && Counter(d, s) == 0
  }

  function Swallowed<M>(d: Decoders<M>, s: State<M>, bytes: string): State<M>
  {
    s.(temp := s.temp + bytes, body := 0, current := Some(Message(d, s)))
  }

  /** The state after a call of the parser. When the call goes wrong, the rest is not read. */
  function Run<M>(d: Decoders<M>, s: State<M>, bytes: string): State<M>
    decreases |bytes|
  {
    if bytes == "" || s.broken then s
    else if Swallows(d, s) then Swallowed(d, s, bytes)
    else Run(d, Step(d, s, bytes[0]), bytes[1..])
  }

  /** States between calls: the counters are in their ranges, and no message is finished. The
      tail may be complete when its decoder went wrong. */
  predicate Waiting<M>(s: State<M>)
  {
    -5 <= s.head <= 0 && -4 <= s.option <= 0 && -4 <= s.tail <= if s.broken then -1 else -2
  }

  lemma StepWaits<M>(d: Decoders<M>, s: State<M>, c: char)
    requires Waiting(s) && !s.broken
    ensures Waiting(Step(d, s, c))
  {
  }

  // ----- pieces -----------------------------------------------------------

  /** Some byte of a meets a body whose counter comes out as zero. */
  predicate SwallowsIn<M>(d: Decoders<M>, s: State<M>, a: string)
    decreases |a|
  {
    a != "" && !s.broken && (Swallows(d, s) || SwallowsIn(d, Step(d, s, a[0]), a[1..]))
  }

  lemma StepTemp<M>(d: Decoders<M>, s: State<M>, c: char)
    ensures |Step(d, s, c).temp| <= |s.temp| + 1
  {
  }

  /** The section buffer never holds more than the bytes that came in. */
  lemma {:induction false} RunTemp<M>(d: Decoders<M>, s: State<M>, bytes: string)
    ensures |Run(d, s, bytes).temp| <= |s.temp| + |bytes|
    decreases |bytes|
  {
    hide Step;
    if bytes != "" && !s.broken && !Swallows(d, s) {
      StepTemp(d, s, bytes[0]);
      RunTemp(d, Step(d, s, bytes[0]), bytes[1..]);
    }
  }

  predicate InTail<M>(s: State<M>)
  {
    s.head == 0 && s.option == 0 && s.body == 0 && -4 <= s.tail <= -2 && !s.broken
  }

  /** A byte of the tail takes the parser further in it, or goes wrong there, or everything
      starts again. */
  lemma TailByteMoves<M>(d: Decoders<M>, s: State<M>, c: char)
    requires InTail(s)
    ensures var t := Step(d, s, c); t.temp == "" || (t.tail > s.tail && (InTail(t) || t.broken))
  {
  }

  /** After the tail has begun, bytes raise its counter or leave no more than they are. */
  lemma {:induction false} TailMoves<M>(d: Decoders<M>, s: State<M>, bytes: string)
    requires InTail(s) && bytes != ""
    ensures var r := Run(d, s, bytes); r.tail > s.tail || |r.temp| < |bytes|
    decreases |bytes|
  {
    hide Step;
    var t, rest := Step(d, s, bytes[0]), bytes[1..];
    TailByteMoves(d, s, bytes[0]);
    if t.temp == "" {
      RunTemp(d, t, rest);
    } else if rest != "" && !t.broken {
      TailMoves(d, t, rest);
    }
  }

  /** What follows in a further call is not what the same call would have swallowed. */
  lemma SwallowedDiffers<M>(d: Decoders<M>, s: State<M>, a: string, b: string)
    requires Waiting(s) && !s.broken && Swallows(d, s) && a != "" && b != ""
    ensures Run(d, Run(d, s, a), b) != Run(d, s, a + b)
  {
    var t := Run(d, s, a);
    assert t == Swallowed(d, s, a) && InTail(t);
    assert Run(d, s, a + b) == Swallowed(d, s, a + b);
    hide Run;
    TailMoves(d, t, b);
  }

  /** Cutting the bytes into two calls makes no difference exactly when the second is empty or
      no body counter came out as zero during the first. */
  lemma {:induction false} PiecesExactly<M>(d: Decoders<M>, s: State<M>, a: string, b: string)
    requires Waiting(s)
    ensures Run(d, Run(d, s, a), b) == Run(d, s, a + b) <==> b == "" || !SwallowsIn(d, s, a)
    decreases |a|
  {
    hide Step;
    if b == "" {
      assert a + b == a;
    } else if a == "" {
      assert a + b == b;
    } else if s.broken {
    } else if Swallows(d, s) {
      SwallowedDiffers(d, s, a, b);
    } else {
      assert (a + b)[0] == a[0] && (a + b)[1..] == a[1..] + b;
      StepWaits(d, s, a[0]);
      PiecesExactly(d, Step(d, s, a[0]), a[1..], b);
    }
  }

  /** Only a size option of 2^64 - 2 makes the counter come out as zero. */
  lemma SwallowsExactly<M>(d: Decoders<M>, s: State<M>)
    requires d.size(Message(d, s)).Some? ==> d.size(Message(d, s)).value < WRAP
    ensures Swallows(d, s) <==>
            s.head >= 0 && s.option >= 0 && s.body == -1 && d.size(Message(d, s)) == Some(WRAP - 2)
  {
  }

  // ----- the parser -------------------------------------------------------

  class Parser<M(0)> {
    const d: Decoders<M>
    var headState: int
    var optionState: int
    var bodyState: int
    var tailState: int
    var tempBuffer: string
    var tempMsg: Option<M>
    var msgs: seq<M>
    var broken: bool
    var buffer: string

    function Now(): State<M>
      reads this
    {
      State(headState, optionState, bodyState, tailState, tempBuffer, tempMsg, msgs, broken)
    }

    constructor (decoders: Decoders<M>)
      ensures d == decoders && buffer == "" && Now() == Initial() && Waiting(Now())
    {
      d := decoders;
      headState, optionState, bodyState, tailState := START_HEAD, START_OPTION, START_BODY, START_TAIL;
      tempBuffer, tempMsg, msgs, broken, buffer := "", None, [], false, "";
    }

    method ResetState()
      modifies this
      ensures Now() == Reset(d, old(Now())) && buffer == old(buffer) && broken == old(broken)
    {
      tempBuffer := "";
      if tempMsg.Some? {
        tempMsg := Some(d.cleared);
      }
      headState, optionState, bodyState, tailState := START_HEAD, START_OPTION, START_BODY, START_TAIL;
    }

    /** One byte of the first line. The loop goes on until a line end, or for good after a
        false start. */
    method HeadByte(c: char) returns (again: bool)
      requires tempMsg.Some? && headState < 0
      modifies this
      ensures Now() == HeadStep(d, old(Now()), c) && buffer == old(buffer)
      ensures again <==> !(old(headState) == -1 && c == '\n')
      ensures broken ==> old(broken) || !again
    {
      tempBuffer := tempBuffer + [c];
      if headState == -5 {
        if c == 'M' {
          headState := headState + 1;
        }
        return true;
      }
      if headState == -4 {
        if c != 'S' {
          ResetState();
        } else {
          headState := headState + 1;
        }
        return true;
      }
      if headState == -3 {
        if c != 'G' {
          ResetState();
        } else {
          headState := headState + 1;
        }
        return true;
      }
      if headState == -2 {
        if c == '\r' {
          headState := headState + 1;
        }
        return true;
      }
      if headState == -1 {
        if c != '\n' {
          ResetState();
        } else {
          headState := headState + 1;
          match d.head(tempBuffer, tempMsg.value) {
            case Broken =>
              broken := true;
              return false;
            case Refused => ResetState();
            case Filled(m) => tempMsg := Some(m);
          }
          tempBuffer := "";
          return false;
        }
      }
      return true;
    }

    method OptionByte(c: char) returns (again: bool)
      requires tempMsg.Some? && optionState < 0
      modifies this
      ensures Now() == OptionStep(d, old(Now()), c) && buffer == old(buffer)
      ensures again ==> headState == old(headState) && optionState < 0 && broken == old(broken)
    {
      tempBuffer := tempBuffer + [c];
      if optionState == -4 {
        if c == '\"' {
          optionState := optionState + 1;
        } else if c == '\r' {
          optionState := -1;
        } else if '0' <= c <= '9' {
          optionState := optionState + 1;
        }
        return true;
      }
      if optionState == -3 {
        if c == '\r' {
          optionState := optionState + 1;
        }
        return true;
      }
      if optionState == -2 {
        if c == '\n' {
          optionState := -4;
        } else {
          ResetState();
          return false;
        }
        return true;
      }
      if optionState == -1 {
        if c != '\n' {
          ResetState();
          return false;
        } else {
          match d.option(tempBuffer, tempMsg.value) {
            case Broken =>
              broken := true;
              return false;
            case Refused =>
              ResetState();
              return false;
            case Filled(m) => tempMsg := Some(m);
          }
          optionState := optionState + 1;
          tempBuffer := "";
          return false;
        }
      }
      return true;
    }

    /** One byte of the body; its first byte fetches the size. The test for a counter of two
        is never reached, since every counter above one only counts down. */
    method BodyByte(c: char) returns (again: bool)
      requires tempMsg.Some? && headState >= 0 && optionState >= 0
      modifies this
      ensures Counter(d, old(Now())) != 0 ==> Now() == BodyStep(d, old(Now()), c)
      ensures Counter(d, old(Now())) == 0 ==> again && Now() == Swallowed(d, old(Now()), [c])
      ensures buffer == old(buffer)
      ensures again ==> headState >= 0 && optionState >= 0 && bodyState == CounterAfter(d, old(Now())) && broken == old(broken)
    {
      tempBuffer := tempBuffer + [c];
      if bodyState == -1 {
        var size := d.size(tempMsg.value);
        if size.None? {
          broken := true;
          return false;
        }
        bodyState := Remaining(size.value);
      }
      if bodyState > 1 {
        bodyState := bodyState - 1;
        return true;
      }
      if bodyState == 1 {
        if c != '\n' {
          ResetState();
          return false;
        } else {
          match d.body(tempBuffer, tempMsg.value) {
            case Broken =>
              broken := true;
              return false;
            case Refused =>
              ResetState();
              return false;
            case Filled(m) => tempMsg := Some(m);
          }
          tempBuffer := "";
          bodyState := bodyState - 1;
          return false;
        }
      }
      return true;
    }

    method TailByte(c: char) returns (again: bool)
      requires tempMsg.Some? && Waiting(Now()) && !broken && headState >= 0 && optionState >= 0 && bodyState == 0 && tailState < 0
      modifies this
      ensures Now() == TailStep(d, old(Now()), c) && buffer == old(buffer)
      ensures again ==> headState >= 0 && optionState >= 0 && bodyState == 0 && -4 <= tailState <= -2 && !broken
    {
      tempBuffer := tempBuffer + [c];
      if tailState == -4 {
        if c == 'G' {
          tailState := tailState + 1;
        } else {
          ResetState();
          return false;
        }
        return true;
      }
      if tailState == -3 {
        if c == 'S' {
          tailState := tailState + 1;
        } else {
          ResetState();
          return false;
        }
        return true;
      }
      if tailState == -2 {
        if c == 'M' {
          tailState := tailState + 1;
        } else {
          ResetState();
          return false;
        }
      }
      if tailState == -1 {
        match d.tail(tempBuffer, tempMsg.value) {
          case Broken =>
            broken := true;
            return false;
          case Refused =>
            ResetState();
            return false;
          case Filled(m) => tempMsg := Some(m);
        }
        tailState := tailState + 1;
        tempBuffer := "";
        return false;
      }
      return true;
    }

    /** Reads up to the end of the first line. */
    method LocateHead()
      requires buffer != "" && tempMsg.Some? && Waiting(Now()) && !broken && headState < 0
      modifies this
      ensures |buffer| < old(|buffer|) && Waiting(Now())
      ensures Run(d, Now(), buffer) == Run(d, old(Now()), old(buffer))
    {
      hide Run, HeadStep, Reset;
      var again := true;
      while again && buffer != ""
        invariant tempMsg.Some? && Waiting(Now()) && (again ==> headState < 0 && !broken) && |buffer| <= old(|buffer|)
        invariant |buffer| == old(|buffer|) ==> again && buffer == old(buffer)
        invariant Run(d, Now(), buffer) == Run(d, old(Now()), old(buffer))
        decreases |buffer|
      {
        HeadGoesOn(d, Now(), buffer);
        var c := buffer[0];
        buffer := buffer[1..];
        again := HeadByte(c);
      }
    }

    method LocateOption()
      requires buffer != "" && tempMsg.Some? && Waiting(Now()) && !broken && headState >= 0 && optionState < 0
      modifies this
      ensures |buffer| < old(|buffer|) && Waiting(Now())
      ensures Run(d, Now(), buffer) == Run(d, old(Now()), old(buffer))
    {
      hide Run, OptionStep, Reset;
      var again := true;
      while again && buffer != ""
        invariant tempMsg.Some? && Waiting(Now()) && |buffer| <= old(|buffer|)
        invariant again ==> headState >= 0 && optionState < 0 && !broken
        invariant |buffer| == old(|buffer|) ==> again && buffer == old(buffer)
        invariant Run(d, Now(), buffer) == Run(d, old(Now()), old(buffer))
        decreases |buffer|
      {
        OptionGoesOn(d, Now(), buffer);
        var c := buffer[0];
        buffer := buffer[1..];
        again := OptionByte(c);
      }
    }

    /** Reads the body. A counter of zero keeps the loop reading to the end of the bytes. */
    method LocateBody()
      requires buffer != "" && tempMsg.Some? && Waiting(Now()) && !broken
      requires headState >= 0 && optionState >= 0 && bodyState != 0
      modifies this
      ensures |buffer| < old(|buffer|) && Waiting(Now())
      ensures Run(d, Now(), buffer) == Run(d, old(Now()), old(buffer))
    {
      hide Run, BodyStep, Reset, Swallowed, Counter, CounterAfter;
      var again := true;
      ghost var start, taken: Option<string> := Now(), None;
      while again && buffer != ""
        invariant tempMsg.Some? && Waiting(Now()) && |buffer| <= old(|buffer|)
        invariant again ==> headState >= 0 && optionState >= 0 && !broken
        invariant |buffer| == old(|buffer|) ==> again && buffer == old(buffer)
        invariant taken.None? ==> Run(d, Now(), buffer) == Run(d, old(Now()), old(buffer)) && (again ==> bodyState != 0)
        invariant taken.Some? ==> again && bodyState == 0 && Now() == Swallowed(d, start, taken.value)
        invariant taken.Some? ==> Run(d, old(Now()), old(buffer)) == Swallowed(d, start, taken.value + buffer)
        decreases |buffer|
      {
        ghost var s, rest := Now(), buffer;
        BodyGoesOn(d, s, buffer);
        var c := buffer[0];
        buffer := buffer[1..];
        assert rest == [c] + buffer;
        again := BodyByte(c);
        if Counter(d, s) == 0 {
          if taken.None? {
            start, taken := s, Some([c]);
          } else {
            SwallowedTwice(d, start, taken.value, [c]);
            assert taken.value + rest == (taken.value + [c]) + buffer;
            taken := Some(taken.value + [c]);
          }
        }
      }
      if taken.Some? {
        assert taken.value + "" == taken.value;
        NothingToRun(d, Now());
      }
    }

    method LocateTail()
      requires buffer != "" && tempMsg.Some? && Waiting(Now()) && !broken
      requires headState >= 0 && optionState >= 0 && bodyState == 0
      modifies this
      ensures |buffer| < old(|buffer|) && Waiting(Finished(d, Now())) && (broken ==> tailState < 0)
      ensures Run(d, Finished(d, Now()), buffer) == Run(d, old(Now()), old(buffer))
    {
      hide Run, TailStep, Reset;
      var again := true;
      while again && buffer != ""
        invariant tempMsg.Some? && |buffer| <= old(|buffer|) && Waiting(Finished(d, Now())) && (broken ==> tailState < 0)
        invariant again ==> headState >= 0 && optionState >= 0 && bodyState == 0 && -4 <= tailState <= -2 && !broken
        invariant |buffer| == old(|buffer|) ==> again && buffer == old(buffer)
        invariant Run(d, Finished(d, Now()), buffer) == Run(d, old(Now()), old(buffer))
        decreases |buffer|
      {
        TailGoesOn(d, Now(), buffer);
        var c := buffer[0];
        buffer := buffer[1..];
        again := TailByte(c);
      }
    }

    /** Handles a piece of the stream to its last byte, unless the call goes wrong. */
    method Parse(buf: string)
      requires Waiting(Now()) && !broken && buffer == ""
      modifies this
      ensures (!broken ==> buffer == "") && Waiting(Now()) && Now() == Run(d, old(Now()), buf)
    {
      hide Run, Reset;
      buffer := buffer + buf;
      assert buffer == buf;
      while buffer != ""
        invariant Waiting(Now()) && !broken && Run(d, Now(), buffer) == Run(d, old(Now()), buf)
        decreases |buffer|
      {
        MessageFirst(d, Now(), buffer);
        if tempMsg.None? {
          tempMsg := Some(d.blank);
        }
        if headState < 0 {
          LocateHead();
        } else if optionState < 0 {
          LocateOption();
        } else if bodyState != 0 {
          LocateBody();
        } else if tailState < 0 {
          LocateTail();
        }
        if broken {
          NothingRead(d, Now(), buffer);
          return;
        }
        if tailState == 0 {
          msgs := msgs + [if tempMsg.Some? then tempMsg.value else d.blank];
          tempMsg := None;
          ResetState();
        }
      }
      NothingToRun(d, Now());
    }
  }

  lemma HeadGoesOn<M>(d: Decoders<M>, s: State<M>, buffer: string)
    requires buffer != "" && s.current.Some? && Waiting(s) && !s.broken && s.head < 0
    ensures var t := HeadStep(d, s, buffer[0]);
            && Waiting(t) && t.current.Some? && (!(s.head == -1 && buffer[0] == '\n') ==> t.head < 0)
            && Run(d, s, buffer) == Run(d, t, buffer[1..])
  {
    assert s.(current := Some(Message(d, s))) == s;
  }

  lemma OptionGoesOn<M>(d: Decoders<M>, s: State<M>, buffer: string)
    requires buffer != "" && s.current.Some? && Waiting(s) && !s.broken && s.head >= 0 && s.option < 0
    ensures var t := OptionStep(d, s, buffer[0]);
            && Waiting(t) && t.current.Some?
            && Run(d, s, buffer) == Run(d, t, buffer[1..])
  {
    assert s.(current := Some(Message(d, s))) == s;
  }

  lemma TailGoesOn<M>(d: Decoders<M>, s: State<M>, buffer: string)
    requires buffer != "" && s.current.Some? && Waiting(s) && !s.broken && s.head >= 0 && s.option >= 0 && s.body == 0
    ensures var t := TailStep(d, s, buffer[0]);
            && Waiting(Finished(d, t)) && t.current.Some? && (t.broken ==> t.tail < 0) && Finished(d, s) == s
            && Run(d, s, buffer) == Run(d, Finished(d, t), buffer[1..])
  {
    assert s.(current := Some(Message(d, s))) == s;
  }

  lemma BodyGoesOn<M>(d: Decoders<M>, s: State<M>, buffer: string)
    requires buffer != "" && s.current.Some? && Waiting(s) && !s.broken && s.head >= 0 && s.option >= 0
    ensures s.body == 0 ==> Counter(d, s) == 0
    ensures Counter(d, s) != 0 ==> CounterAfter(d, s) != 0 && Run(d, s, buffer) == Run(d, BodyStep(d, s, buffer[0]), buffer[1..])
    ensures Counter(d, s) != 0 ==> Waiting(BodyStep(d, s, buffer[0])) && BodyStep(d, s, buffer[0]).current.Some?
    ensures Counter(d, s) == 0 && s.body != 0 ==> Run(d, s, buffer) == Swallowed(d, s, buffer)
    ensures var t := Swallowed(d, s, [buffer[0]]);
            Waiting(t) && t.current.Some? && t.body == 0 && t.head == s.head && t.option == s.option
  {
    assert s.(current := Some(Message(d, s))) == s;
  }

  lemma SwallowedTwice<M>(d: Decoders<M>, s: State<M>, a: string, b: string)
    ensures Swallowed(d, Swallowed(d, s, a), b) == Swallowed(d, s, a + b)
  {
    assert (s.temp + a) + b == s.temp + (a + b);
  }

  lemma NothingRead<M>(d: Decoders<M>, s: State<M>, bytes: string)
    requires s.broken
    ensures Run(d, s, bytes) == s
  {
  }

  lemma NothingToRun<M>(d: Decoders<M>, s: State<M>)
    ensures Run(d, s, "") == s
  {
  }

  /** The message object may be made before the byte is looked at. */
  lemma MessageFirst<M>(d: Decoders<M>, s: State<M>, buffer: string)
    requires buffer != "" && !s.broken
    ensures Run(d, s.(current := Some(Message(d, s))), buffer) == Run(d, s, buffer)
  {
  }

  /** Two new parsers are given the same bytes, one in one call and one in two. */
  method ParseBothWays<M(0)>(d: Decoders<M>, a: string, b: string) returns (whole: Parser<M>, pieces: Parser<M>)
    ensures pieces.Now() == whole.Now() <==> b == "" || !SwallowsIn(d, Initial(), a)
  {
    hide Run;
    whole := new Parser(d);
    whole.Parse(a + b);
    pieces := new Parser(d);
    pieces.Parse(a);
    PiecesExactly(d, Initial(), a, b);
    if pieces.broken {
      NothingRead(d, pieces.Now(), b);
    } else {
      pieces.Parse(b);
    }
  }
}

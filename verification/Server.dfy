/** The receiving side of the server as an object: datagrams come in, the box clock ticks,
    and complete messages are queued (src/server.cpp). */
module Server {
  import opened Bytes
  import opened Framing
  import opened Reassembly
  import opened Transport
  import opened Wrappers

  function Lookup(boxls: map<nat, Listener>, id: nat): Option<Listener>
  {
    if id in boxls then Some(boxls[id]) else None
  }

  /** The messages of one id, in order. */
  function Only(queue: seq<RawData>, id: nat): seq<RawData>
    decreases |queue|
  {
    if queue == [] then []
    else Only(queue[..|queue| - 1], id) + (if queue[|queue| - 1].rId == id then [queue[|queue| - 1]] else [])
  }

  lemma {:induction false} OnlyConcat(a: seq<RawData>, b: seq<RawData>, id: nat)
    ensures Only(a + b, id) == Only(a, id) + Only(b, id)
    decreases |b|
  {
    if b == [] {
      assert a + b == a;
    } else {
      assert (a + b)[..|a + b| - 1] == a + b[..|b| - 1];
      OnlyConcat(a, b[..|b| - 1], id);
    }
  }

  lemma OnlyOne(queue: seq<RawData>, d: RawData, id: nat)
    ensures Only(queue + [d], id) == Only(queue, id) + (if d.rId == id then [d] else [])
  {
    assert (queue + [d])[..|queue|] == queue;
  }

  /** A listener after the first pass of a tick: minus one marks it for removal. */
  function Marked(l: Listener): Listener
  {
    if l.cnt == l.nbn || l.clicks == 0 then l.(clicks := -1) else l.(clicks := l.clicks - 1)
  }

  lemma MarkedOrTicked(l: Listener)
    requires Sound(l)
    ensures Ticked(l) == if Marked(l).clicks == -1 then None else Some(Marked(l))
  {
  }

  lemma {:induction false} LeastExists(s: set<nat>, x: nat)
    requires x in s
    ensures exists k :: k in s && forall j :: j in s ==> k <= j
    decreases x
  {
    if y :| y in s && y < x {
      LeastExists(s, y);
    }
  }

  method Least(s: set<nat>) returns (k: nat)
    requires s != {}
    ensures k in s && forall j :: j in s ==> k <= j
  {
    ghost var x :| x in s;
    LeastExists(s, x);
    k :| k in s && forall j :: j in s ==> k <= j;
  }

  /** The listeners already passed have handed on what they hold. */
  ghost predicate HandedSoFar(out: seq<RawData>, table: map<nat, Listener>, todo: set<nat>)
  {
    forall id: nat :: Only(out, id) == if id in table && id !in todo then HandedOn(table[id]) else []
  }

  lemma HandOn(out: seq<RawData>, table: map<nat, Listener>, todo: set<nat>, k: nat)
    requires HandedSoFar(out, table, todo) && k in todo && k in table && table[k].bId == k
    ensures HandedSoFar(out + HandedOn(table[k]), table, todo - {k})
  {
    HandedOnIds(table[k]);
    hide Only, HandedOn;
    var more := HandedOn(table[k]);
    forall id: nat
      ensures Only(out + more, id) == if id in table && id !in todo - {k} then HandedOn(table[id]) else []
    {
      if more == [] {
        assert out + more == out;
      } else {
        assert more == [more[0]] && more[0] in more;
        OnlyOne(out, more[0], id);
      }
    }
  }

  class Server {
    var boxls: map<nat, Listener>
    var rawdataIn: seq<RawData>
    ghost var history: seq<Event>
    ghost var reassembled: seq<RawData>

    /** The table and the queue are, id by id, what the history of boxes and ticks makes them. */
    ghost predicate Valid()
      reads this
    {
      forall id: nat :: Agrees(id)
    }

    ghost predicate Agrees(id: nat)
      reads this
    {
      && Readable(id, history)
      && Lookup(boxls, id) == After(id, history)
      && Only(reassembled, id) == Output(id, history)
    }

    constructor ()
      ensures Valid() && history == [] && rawdataIn == []
    {
      boxls, rawdataIn, history, reassembled := map[], [], [], [];
      new;
      assert forall id: nat :: Agrees(id);
    }

    /** One datagram: a box goes to its listener or opens one, a whole message to the queue,
        anything else is dropped. The id of a whole message is drawn by the caller. */
    method Receive(str: seq<Byte>, from: Address, drawn: nat)
      requires Valid() && |str| >= 4
      requires CheckNetBox(str) ==> ReadBox(str).Some?
      requires CheckNetBox(str) ==> var b := ReadBox(str).value; InRange(Lookup(boxls, b.bId), b.bId, Arrive(b, from))
      requires CheckRawMsg(str) ==> |str| >= 12
      modifies this
      ensures Valid() && reassembled == old(reassembled)
      ensures CheckNetBox(str) ==> history == old(history) + [Arrive(ReadBox(str).value, from)] && rawdataIn == old(rawdataIn)
      ensures !CheckNetBox(str) ==> history == old(history)
      ensures !CheckNetBox(str) && CheckRawMsg(str) ==> rawdataIn == old(rawdataIn) + [Unsigned(str, drawn, from)]
      ensures !CheckNetBox(str) && !CheckRawMsg(str) ==> rawdataIn == old(rawdataIn)
    {
      hide CheckNetBox, CheckRawMsg, ReadBox, NoBoxes;
      if CheckNetBox(str) {
        var box := ProcessNetBox(str);
        if box.bId in boxls {
          var l := boxls[box.bId];
          if l.boxs[box.idx].None? && l.nbn < l.cnt {
            l := l.(boxs := l.boxs[box.idx := Some(box)]);
            l := l.(clicks := l.clicks + 5);
            l := l.(nbn := l.nbn + 1);
            boxls := boxls[box.bId := l];
          }
        } else {
          var l := Listener(box.bId, 15, box.cnt, 1, from, NoBoxes(box.cnt)[box.idx := Some(box)]);
          boxls := boxls[l.bId := l];
        }
        history := history + [Arrive(box, from)];
        forall id: nat
          ensures Agrees(id)
        {
          assert old(Agrees(id));
          assert Prior(history) == old(history) && Last(history) == Arrive(box, from);
        }
      } else {
        if CheckRawMsg(str) {
          rawdataIn := rawdataIn + [ProcessSignedRawMsg(str, drawn, from)];
        }
        assert forall id: nat :: old(Agrees(id)) ==> Agrees(id);
      }
    }

    /** Removes the listeners marked with minus one. */
    method Sweep()
      modifies this`boxls
      ensures boxls == map k | k in old(boxls) && old(boxls)[k].clicks != -1 :: old(boxls)[k]
    {
      var todo := boxls.Keys;
      while todo != {}
        invariant todo <= boxls.Keys <= old(boxls).Keys
        invariant forall k <- boxls :: boxls[k] == old(boxls)[k]
        invariant forall k <- old(boxls) :: k !in todo ==> (k in boxls <==> old(boxls)[k].clicks != -1)
        decreases |todo|
      {
        var k :| k in todo;
        if boxls[k].clicks == -1 {
          boxls := boxls - {k};
        }
        todo := todo - {k};
      }
    }

    /** Between ticks no listener is marked, so the extra cleaning clock finds nothing. */
    method CleaningBoxs()
      requires Valid()
      modifies this`boxls
      ensures Valid() && boxls == old(boxls)
    {
      forall k | k in boxls
        ensures boxls[k].clicks != -1
      {
        assert Agrees(k);
        ListenersAreSound(k, history);
      }
      Sweep();
      assert forall id: nat :: old(Agrees(id)) ==> Agrees(id);
    }

    /** One listener at a tick: hands on a complete message, counts down, or marks. */
    method Visit(k: nat)
      requires k in boxls && boxls[k].clicks >= 0
      modifies this`boxls, this`rawdataIn, this`reassembled
      ensures boxls == old(boxls)[k := Marked(old(boxls)[k])]
      ensures rawdataIn == old(rawdataIn) + HandedOn(old(boxls)[k])
      ensures reassembled == old(reassembled) + HandedOn(old(boxls)[k])
    {
      hide Joined, Contents, Unsigned;
      var l := boxls[k];
      if l.cnt == l.nbn {
        var message := TogtRawData(l);
        rawdataIn := rawdataIn + [message];
        reassembled := reassembled + [message];
        l := l.(clicks := -1);
      } else if l.clicks > 0 {
        l := l.(clicks := l.clicks - 1);
      } else {
        l := l.(clicks := -1);
      }
      boxls := boxls[k := l];
    }

    /** The first pass of a tick, in the order of the ids. */
    method CountDown() returns (ghost out: seq<RawData>)
      requires forall k <- boxls :: boxls[k].bId == k && boxls[k].clicks >= 0
      modifies this`boxls, this`rawdataIn, this`reassembled
      ensures boxls == map k | k in old(boxls) :: Marked(old(boxls)[k])
      ensures rawdataIn == old(rawdataIn) + out && reassembled == old(reassembled) + out
      ensures HandedSoFar(out, old(boxls), {})
    {
      hide HandedSoFar, HandedOn, Marked;
      var todo := boxls.Keys;
      out := [];
      NobodyYet(boxls);
      while todo != {}
        invariant todo <= boxls.Keys == old(boxls).Keys
        invariant forall k <- boxls :: boxls[k] == if k in todo then old(boxls)[k] else Marked(old(boxls)[k])
        invariant rawdataIn == old(rawdataIn) + out && reassembled == old(reassembled) + out
        invariant HandedSoFar(out, old(boxls), todo)
        decreases |todo|
      {
        var k := Least(todo);
        HandOn(out, old(boxls), todo, k);
        out := out + HandedOn(boxls[k]);
        Visit(k);
        todo := todo - {k};
      }
    }

    /** One tick of the box clock. */
    method BoxProcessor()
      requires Valid()
      modifies this
      ensures Valid() && history == old(history) + [Tick]
      ensures exists out :: rawdataIn == old(rawdataIn) + out && reassembled == old(reassembled) + out
    {
      hide Only, HandedOn, Ticked, Marked, Sound;
      forall k | k in boxls
        ensures boxls[k].bId == k && Sound(boxls[k]) && boxls[k].clicks >= 0
      {
        assert Agrees(k);
        ListenersAreSound(k, history);
        SoundClicks(boxls[k]);
      }
      ghost var out := CountDown();
      Sweep();
      history := history + [Tick];
      forall id: nat
        ensures Agrees(id)
      {
        assert old(Agrees(id));
        assert Prior(history) == old(history) && Last(history) == Tick;
        OnlyConcat(old(reassembled), out, id);
        if id in old(boxls) {
          MarkedOrTicked(old(boxls)[id]);
        }
      }
    }
  }

  lemma SoundClicks(l: Listener)
    requires Sound(l)
    ensures l.clicks >= 0
  {
  }

  lemma HandedOnIds(l: Listener)
    ensures |HandedOn(l)| <= 1 && forall d <- HandedOn(l) :: d.rId == l.bId
  {
  }

  lemma NobodyYet(table: map<nat, Listener>)
    ensures HandedSoFar([], table, table.Keys)
  {
  }

  /** Concatenates the boxes and takes the message out of its signature. */
  method TogtRawData(l: Listener) returns (message: RawData)
    requires l.cnt == l.nbn
    ensures HandedOn(l) == [message]
  {
    var boxes := Contents(l.boxs);
    var bytes: seq<Byte> := [];
    assert boxes[..0] == [];
    NothingJoined();
    for i := 0 to |boxes|
      invariant bytes == Joined(boxes[..i])
    {
      assert boxes[..i + 1] == boxes[..i] + [boxes[i]];
      JoinedSnoc(boxes[..i], boxes[i]);
      bytes := bytes + boxes[i].data;
    }
    assert boxes[..|boxes|] == boxes;
    message := Unsigned(bytes, l.bId, l.address);
  }

  // ----- end to end -------------------------------------------------------

  /** A queued message that carries this request. */
  ghost predicate Carries(d: RawData, r: Request, info: seq<Byte>, before: Request)
    requires |info| >= 4
  {
    && d.Raw? && d.info == info[..4]
    && ReadPacket(d.data).Some? && Packet2Request(ReadPacket(d.data).value, before) == Some(r)
  }

  lemma UnsignedCarries(r: Request, info: seq<Byte>, before: Request, id: nat, address: Address)
    requires RequestFits(r) && |info| >= 4
    ensures Carries(Unsigned(SignedBytes(PacketBytes(Request2Packet(r)), info), id, address), r, info, before)
  {
    hide PacketBytes, Unsigned, SignedBytes, ReadPacket, Request2Packet, Packet2Request;
    RequestReturns(r, before);
    PacketReturns(Request2Packet(r));
    SignedReturns(PacketBytes(Request2Packet(r)), info, id, address);
  }

  /** A request sent in boxes: whatever the order, duplicates and losses, every message the
      receiver queues for its id is decoded to that very request. */
  lemma RequestsArriveIntact(r: Request, info: seq<Byte>, before: Request, id: nat, events: seq<Event>)
    requires RequestFits(r) && |info| >= 4
    requires var msg := SignedBytes(PacketBytes(Request2Packet(r)), info);
             Splittable(msg) && FromMessage(id, msg, events)
    ensures Readable(id, events)
    ensures forall d <- Output(id, events) :: Carries(d, r, info, before)
  {
    hide Carries, SignedBytes, PacketBytes, Unsigned, FromMessage;
    var msg := SignedBytes(PacketBytes(Request2Packet(r)), info);
    OnlyTheMessage(id, msg, events);
    forall d | d in Output(id, events)
      ensures Carries(d, r, info, before)
    {
      UnsignedCarries(r, info, before, id, d.address);
    }
  }

  /** A request that fits one datagram is queued as it arrives. */
  lemma SmallRequestsArriveIntact(r: Request, info: seq<Byte>, before: Request, drawn: nat, from: Address)
    requires RequestFits(r) && |info| >= 4
    ensures var msg := SignedBytes(PacketBytes(Request2Packet(r)), info);
            !CheckNetBox(msg) && CheckRawMsg(msg) && |msg| >= 12 && Carries(Unsigned(msg, drawn, from), r, info, before)
  {
    hide PacketBytes;
    SignedReturns(PacketBytes(Request2Packet(r)), info, drawn, from);
    UnsignedCarries(r, info, before, drawn, from);
  }

  /** All boxes of a request in time: it is queued exactly when the size of its signed form
      is no multiple of 256. */
  lemma RequestDelivered(r: Request, info: seq<Byte>, before: Request, id: nat, burst: seq<Event>)
    requires RequestFits(r) && |info| >= 4
    requires var msg := SignedBytes(PacketBytes(Request2Packet(r)), info);
             Splittable(msg) && FromMessage(id, msg, burst) && AllArrived(id, msg, burst)
    requires Ticks(burst) <= 15
    ensures Readable(id, burst + [Tick])
    ensures |SignedBytes(PacketBytes(Request2Packet(r)), info)| % 256 != 0 <==>
              exists d <- Output(id, burst + [Tick]) :: Carries(d, r, info, before)
  {
    hide Carries, SignedBytes, PacketBytes, FromMessage, AllArrived;
    var msg := SignedBytes(PacketBytes(Request2Packet(r)), info);
    DeliverableExactly(id, msg, burst);
    TickFromMessage(id, msg, burst);
    RequestsArriveIntact(r, info, before, id, burst + [Tick]);
    if |msg| % 256 != 0 {
      assert Output(id, burst + [Tick])[0] in Output(id, burst + [Tick]);
    }
  }
}

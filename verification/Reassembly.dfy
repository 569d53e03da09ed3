/** Whole runs of the receiver: boxes of many messages arrive interleaved, the countdown
    ticks, and each message id is followed on its own (src/server.cpp). */
module Reassembly {
  import opened Bytes
  import opened Framing
  import opened NumberTheory
  import opened Transport
  import opened Wrappers

  datatype Event = Arrive(box: NetBox, from: Address) | Tick

  /** A box may only name a slot of the listener it belongs to. */
  predicate InRange(l: Option<Listener>, id: nat, e: Event)
  {
    e.Arrive? && e.box.bId == id ==> e.box.idx < if l.Some? then |l.value.boxs| else e.box.cnt
  }

  function Step(l: Option<Listener>, id: nat, e: Event): Option<Listener>
    requires InRange(l, id, e)
  {
    match e
    case Arrive(box, from) =>
      if box.bId != id then l
      else if l.Some? then Some(Received(l.value, box))
      else Some(Opened(box, from))
    case Tick => if l.Some? then Ticked(l.value) else None
  }

  function Emitted(l: Option<Listener>, e: Event): seq<RawData>
  {
    if e.Tick? && l.Some? then HandedOn(l.value) else []
  }

  ghost predicate Readable(id: nat, events: seq<Event>)
    decreases |events|, 0
  {
    events == [] || (Readable(id, Prior(events)) && InRange(After(id, Prior(events)), id, Last(events)))
  }

  function Prior(events: seq<Event>): (r: seq<Event>)
    requires events != []
    ensures |r| < |events|
  {
    events[..|events| - 1]
  }

  function Last(events: seq<Event>): Event
    requires events != []
  {
    events[|events| - 1]
  }

  /** The listener of an id after the events, if one is open. */
  ghost function After(id: nat, events: seq<Event>): Option<Listener>
    requires Readable(id, events)
    decreases |events|, 1
  {
    if events == [] then None else Step(After(id, Prior(events)), id, Last(events))
  }

  /** The messages handed on for an id. */
  ghost function Output(id: nat, events: seq<Event>): seq<RawData>
    requires Readable(id, events)
    decreases |events|
  {
    if events == [] then []
    else Output(id, Prior(events)) + Emitted(After(id, Prior(events)), Last(events))
  }

  lemma {:induction false} ListenersAreSound(id: nat, events: seq<Event>)
    requires Readable(id, events)
    ensures After(id, events).Some? ==> Sound(After(id, events).value) && After(id, events).value.bId == id
    decreases |events|
  {
    hide Sound, Filled, Received, Opened;
    if events != [] {
      ListenersAreSound(id, Prior(events));
      var l, e := After(id, Prior(events)), Last(events);
      match e
      case Arrive(box, from) =>
        if box.bId == id {
          ArrivalIsSound(l, box, from);
        }
      case Tick =>
        if l.Some? {
          TickedIsSound(l.value);
        }
    }
  }

  lemma ArrivalIsSound(l: Option<Listener>, box: NetBox, from: Address)
    requires l.Some? ==> Sound(l.value) && l.value.bId == box.bId
    requires InRange(l, box.bId, Arrive(box, from))
    ensures var r := if l.Some? then Received(l.value, box) else Opened(box, from);
            Sound(r) && r.bId == box.bId
  {
    if l.Some? {
      ReceivedIsSound(l.value, box);
    } else {
      OpenedIsSound(box, from);
    }
  }

  // ----- the countdown ----------------------------------------------------

  /** Ticks seen by the listener that is open after the events. */
  ghost function Age(id: nat, events: seq<Event>): nat
    requires Readable(id, events)
    decreases |events|
  {
    if events == [] || After(id, Prior(events)).None? then 0
    else Age(id, Prior(events)) + (if Last(events).Tick? then 1 else 0)
  }

  /** Every box lengthens the life by five ticks and nothing else does, so that a listener
      lives for at most 15 + 5 (cnt - 1) ticks and one more that removes it. */
  lemma {:induction false} LifeIsBounded(id: nat, events: seq<Event>)
    requires Readable(id, events) && After(id, events).Some?
    ensures var l := After(id, events).value;
            && Age(id, events) + l.clicks == 15 + 5 * (l.nbn - 1)
            && 1 <= l.nbn <= l.cnt
            && Age(id, events) <= 15 + 5 * (l.cnt - 1)
    decreases |events|
  {
    ListenersAreSound(id, events);
    FilledAll(After(id, events).value.boxs);
    hide Sound, Filled;
    if After(id, Prior(events)).Some? {
      LifeIsBounded(id, Prior(events));
    }
  }

  // ----- one sender per id ------------------------------------------------

  /** Every box of this id comes from one split of this message. */
  ghost predicate FromMessage(id: nat, msg: seq<Byte>, events: seq<Event>)
    requires |msg| > 256
  {
    forall e <- events :: e.Arrive? && e.box.bId == id ==> e.box in Boxes(msg, id)
  }

  /** Box numbers and counts fit their sixteen bits. */
  ghost predicate Splittable(msg: seq<Byte>)
  {
    256 < |msg| < 0x100_0000
  }

  lemma BoxOfSplit(id: nat, msg: seq<Byte>, b: NetBox)
    requires Splittable(msg) && b in Boxes(msg, id)
    ensures b.bId == id && b.cnt == BoxesAnnounced(|msg|)
    ensures b.idx < BoxesSent(|msg|) <= BoxesAnnounced(|msg|) && b == BoxOf(msg, id, b.idx)
  {
    hide Chunk;
    var boxes := Boxes(msg, id);
    var i :| 0 <= i < |boxes| && boxes[i] == b;
    FewBoxes(|msg|);
    SmallMod(i, 0x1_0000);
    SmallMod(BoxesAnnounced(|msg|), 0x1_0000);
  }

  /** Below sixteen megabytes numbers and counts of boxes fit sixteen bits. */
  lemma FewBoxes(size: nat)
    requires 256 < size < 0x100_0000
    ensures BoxesSent(size) <= BoxesAnnounced(size) < 0x1_0000
  {
  }

  lemma SmallMod(n: nat, m: nat)
    requires n < m
    ensures n % m == n
  {
    DivModUnique(n, 0, n, m);
  }

  /** Filled slots hold the boxes of the message. */
  ghost predicate Holds(l: Listener, id: nat, msg: seq<Byte>)
    requires |msg| > 256
  {
    && l.bId == id && l.cnt == |l.boxs| == BoxesAnnounced(|msg|)
    && forall i :: 0 <= i < |l.boxs| && l.boxs[i].Some? ==> i < BoxesSent(|msg|) && l.boxs[i].value == BoxOf(msg, id, i)
  }

  ghost predicate Sender(id: nat, events: seq<Event>, from: Address)
  {
    exists e <- events :: e.Arrive? && e.box.bId == id && e.from == from
  }

  lemma StepHolds(l: Option<Listener>, id: nat, msg: seq<Byte>, e: Event)
    requires Splittable(msg) && (l.Some? ==> Holds(l.value, id, msg))
    requires e.Arrive? && e.box.bId == id ==> e.box in Boxes(msg, id)
    ensures InRange(l, id, e)
    ensures Step(l, id, e).Some? ==> Holds(Step(l, id, e).value, id, msg)
  {
    if e.Arrive? && e.box.bId == id {
      BoxOfSplit(id, msg, e.box);
    }
  }

  lemma {:induction false} MessageHolds(id: nat, msg: seq<Byte>, events: seq<Event>)
    requires Splittable(msg) && FromMessage(id, msg, events)
    ensures Readable(id, events)
    ensures After(id, events).Some? ==> Holds(After(id, events).value, id, msg)
    ensures After(id, events).Some? ==> Sender(id, events, After(id, events).value.address)
    decreases |events|
  {
    hide Holds, Boxes;
    if events != [] {
      assert forall e <- Prior(events) :: e in events;
      MessageHolds(id, msg, Prior(events));
      var l, e := After(id, Prior(events)), Last(events);
      assert e in events;
      StepHolds(l, id, msg, e);
    }
  }

  lemma {:induction false} ContentsAll(boxs: seq<Option<NetBox>>, boxes: seq<NetBox>)
    requires |boxs| == |boxes| && forall i :: 0 <= i < |boxs| ==> boxs[i] == Some(boxes[i])
    ensures Contents(boxs) == boxes
    decreases |boxs|
  {
    if boxs != [] {
      ContentsAll(boxs[1..], boxes[1..]);
      assert boxes == [boxes[0]] + boxes[1..];
    }
  }

  /** A full listener holds every box sent, so its announced count was right, and what it
      hands on is the message. */
  lemma FullHolds(l: Listener, id: nat, msg: seq<Byte>)
    requires Splittable(msg) && Sound(l) && Holds(l, id, msg) && l.cnt == l.nbn
    ensures |msg| % 256 != 0 && HandedOn(l) == [Unsigned(msg, id, l.address)]
  {
    FilledAll(l.boxs);
    CountIsRight(|msg|);
    assert l.boxs[l.cnt - 1].Some?;
    ContentsAll(l.boxs, Boxes(msg, id));
    BoxesJoin(msg, id);
  }

  /** Safety: whatever the order, the duplicates and the ticks, and whatever arrives for
      other ids, everything handed on for this id is exactly the message that was sent. */
  lemma {:induction false} OnlyTheMessage(id: nat, msg: seq<Byte>, events: seq<Event>)
    requires Splittable(msg) && FromMessage(id, msg, events)
    ensures Readable(id, events)
    ensures forall d <- Output(id, events) ::
              |msg| % 256 != 0 && d == Unsigned(msg, id, d.address) && Sender(id, events, d.address)
    decreases |events|
  {
    hide Holds, Boxes, Joined, Contents, Sound, Unsigned, HandedOn;
    MessageHolds(id, msg, events);
    if events != [] {
      var prior := Prior(events);
      assert forall e <- prior :: e in events;
      OnlyTheMessage(id, msg, prior);
      MessageHolds(id, msg, prior);
      ListenersAreSound(id, prior);
      var l, e := After(id, prior), Last(events);
      if e.Tick? && l.Some? {
        if l.value.cnt == l.value.nbn {
          FullHolds(l.value, id, msg);
          AddressKept(msg, id, l.value.address);
        } else {
          NotFull(l.value);
        }
      }
      assert forall d <- Output(id, prior) :: Sender(id, prior, d.address) ==> Sender(id, events, d.address);
    }
  }

  lemma AddressKept(msg: seq<Byte>, id: nat, address: Address)
    ensures Unsigned(msg, id, address).address == address
  {
  }

  lemma NotFull(l: Listener)
    requires l.cnt != l.nbn
    ensures HandedOn(l) == []
  {
  }

  /** Messages whose size is a multiple of 256 announce a box that never comes. */
  lemma MultiplesNeverComplete(id: nat, msg: seq<Byte>, events: seq<Event>)
    requires Splittable(msg) && FromMessage(id, msg, events) && |msg| % 256 == 0
    ensures Readable(id, events) && Output(id, events) == []
  {
    OnlyTheMessage(id, msg, events);
    if Output(id, events) != [] {
      assert Output(id, events)[0] in Output(id, events);
      assert false;
    }
  }

  // ----- counting deliveries ----------------------------------------------

  function Arrivals(id: nat, events: seq<Event>): nat
    decreases |events|
  {
    if events == [] then 0
    else Arrivals(id, Prior(events)) + (if Last(events).Arrive? && Last(events).box.bId == id then 1 else 0)
  }

  ghost function Waiting(id: nat, events: seq<Event>): nat
    requires Readable(id, events)
  {
    if After(id, events).Some? then After(id, events).value.nbn else 0
  }

  /** Every message handed on used up its own full set of arrivals: a message arriving once
      is handed on at most once. */
  lemma {:induction false} DeliveriesArePaid(id: nat, msg: seq<Byte>, events: seq<Event>)
    requires Splittable(msg) && FromMessage(id, msg, events)
    ensures Readable(id, events)
    ensures |Output(id, events)| * BoxesAnnounced(|msg|) + Waiting(id, events) <= Arrivals(id, events)
    decreases |events|
  {
    hide Holds, Boxes, Sound, Joined, Contents, Unsigned, FromMessage;
    MessageHolds(id, msg, events);
    if events != [] {
      var prior := Prior(events);
      PriorFromMessage(id, msg, events);
      DeliveriesArePaid(id, msg, prior);
      MessageHolds(id, msg, prior);
      var l, e, cnt := After(id, prior), Last(events), BoxesAnnounced(|msg|);
      if e.Tick? && l.Some? && l.value.cnt == l.value.nbn {
        HeldCount(l.value, id, msg);
        assert (|Output(id, prior)| + 1) * cnt == |Output(id, prior)| * cnt + cnt;
      }
    }
  }

  lemma PriorFromMessage(id: nat, msg: seq<Byte>, events: seq<Event>)
    requires |msg| > 256 && events != [] && FromMessage(id, msg, events)
    ensures FromMessage(id, msg, Prior(events))
  {
    assert forall e <- Prior(events) :: e in events;
  }

  lemma HeldCount(l: Listener, id: nat, msg: seq<Byte>)
    requires |msg| > 256 && Holds(l, id, msg)
    ensures l.cnt == BoxesAnnounced(|msg|)
  {
  }

  // ----- liveness ---------------------------------------------------------

  function Ticks(events: seq<Event>): nat
    decreases |events|
  {
    if events == [] then 0 else Ticks(Prior(events)) + (if Last(events).Tick? then 1 else 0)
  }

  ghost predicate Arrived(b: NetBox, events: seq<Event>)
  {
    exists e <- events :: e.Arrive? && e.box == b
  }

  ghost predicate AllArrived(id: nat, msg: seq<Byte>, events: seq<Event>)
    requires |msg| > 256
  {
    forall i :: 0 <= i < BoxesSent(|msg|) ==> Arrived(BoxOf(msg, id, i), events)
  }

  /** The ticks a listener, or one opened later, is sure to survive. */
  function Budget(l: Option<Listener>): int
  {
    if l.Some? then l.value.clicks else 15
  }

  /** The listener has kept every box of the burst so far, and time is left. */
  ghost predicate Catching(l: Option<Listener>, id: nat, msg: seq<Byte>, burst: seq<Event>, budget: int)
    requires |msg| > 256
  {
    && (l.None? ==> budget <= 15 && forall e <- burst :: e.Arrive? ==> e.box.bId != id)
    && (l.Some? ==> l.value.clicks + Ticks(burst) >= budget)
    && (l.Some? ==> forall i :: 0 <= i < BoxesSent(|msg|) && i < |l.value.boxs| && Arrived(BoxOf(msg, id, i), burst)
                                ==> l.value.boxs[i].Some?)
  }

  lemma ArrivedEarlier(b: NetBox, burst: seq<Event>)
    requires burst != []
    ensures Arrived(b, burst) <==> Arrived(b, Prior(burst)) || (Last(burst).Arrive? && Last(burst).box == b)
  {
    assert burst == Prior(burst) + [Last(burst)];
  }

  /** One more event: the box is kept, or the countdown goes on, or the message is complete. */
  lemma CatchingStep(l: Option<Listener>, id: nat, msg: seq<Byte>, burst: seq<Event>, budget: int)
    requires Splittable(msg) && burst != [] && Ticks(burst) <= budget
    requires Catching(l, id, msg, Prior(burst), budget) && (l.Some? ==> Sound(l.value) && Holds(l.value, id, msg))
    requires Last(burst).Arrive? && Last(burst).box.bId == id ==> Last(burst).box in Boxes(msg, id)
    ensures InRange(l, id, Last(burst))
    ensures Emitted(l, Last(burst)) == [] ==> Catching(Step(l, id, Last(burst)), id, msg, burst, budget)
  {
    hide Filled, Joined, Contents, Unsigned, Boxes, Chunk;
    StepHolds(l, id, msg, Last(burst));
    var e, r := Last(burst), Step(l, id, Last(burst));
    if e.Arrive? && e.box.bId == id {
      BoxOfSplit(id, msg, e.box);
      if l.Some? {
        FilledAll(l.value.boxs);
      }
    }
    assert burst == Prior(burst) + [e];
    if r.Some? {
      forall i | 0 <= i < BoxesSent(|msg|) && i < |r.value.boxs| && Arrived(BoxOf(msg, id, i), burst)
        ensures r.value.boxs[i].Some?
      {
        ArrivedEarlier(BoxOf(msg, id, i), burst);
      }
    }
  }

  lemma {:induction false} BurstCaught(id: nat, msg: seq<Byte>, before: seq<Event>, burst: seq<Event>)
    requires Splittable(msg) && FromMessage(id, msg, before + burst)
    requires Readable(id, before) && Ticks(burst) <= Budget(After(id, before))
    ensures Readable(id, before + burst)
    ensures || |Output(id, before + burst)| > |Output(id, before)|
            || Catching(After(id, before + burst), id, msg, burst, Budget(After(id, before)))
    ensures |Output(id, before + burst)| >= |Output(id, before)|
    decreases |burst|
  {
    hide Holds, Boxes, Sound, FromMessage, Catching, Budget, Step, Emitted, InRange;
    var all := before + burst;
    MessageHolds(id, msg, all);
    if burst == [] {
      assert all == before;
      NothingCaught(After(id, before), id, msg);
    } else {
      assert Prior(all) == before + Prior(burst) && Last(all) == Last(burst);
      PriorFromMessage(id, msg, all);
      BurstCaught(id, msg, before, Prior(burst));
      MessageHolds(id, msg, Prior(all));
      ListenersAreSound(id, Prior(all));
      LastFromMessage(id, msg, all);
      if Catching(After(id, Prior(all)), id, msg, Prior(burst), Budget(After(id, before))) {
        CatchingStep(After(id, Prior(all)), id, msg, burst, Budget(After(id, before)));
      }
    }
  }

  lemma NothingCaught(l: Option<Listener>, id: nat, msg: seq<Byte>)
    requires |msg| > 256
    ensures Catching(l, id, msg, [], Budget(l))
  {
  }

  lemma LastFromMessage(id: nat, msg: seq<Byte>, events: seq<Event>)
    requires |msg| > 256 && events != [] && FromMessage(id, msg, events)
    ensures Last(events).Arrive? && Last(events).box.bId == id ==> Last(events).box in Boxes(msg, id)
  {
    assert Last(events) in events;
  }

  /** A listener that kept all boxes of a well-counted message is full. */
  lemma CaughtAll(l: Option<Listener>, id: nat, msg: seq<Byte>, burst: seq<Event>, budget: int)
    requires Splittable(msg) && |msg| % 256 != 0 && Catching(l, id, msg, burst, budget) && AllArrived(id, msg, burst)
    requires l.Some? ==> Sound(l.value) && Holds(l.value, id, msg)
    ensures l.Some? && l.value.cnt == l.value.nbn
  {
    CountIsRight(|msg|);
    assert Arrived(BoxOf(msg, id, 0), burst);
    FilledAll(l.value.boxs);
  }

  /** Liveness: if all boxes arrive before the countdown can run out (fifteen ticks for a new
      listener), in any order and with any repetition, the message is handed on at the next
      tick if it was not before. */
  lemma AllBoxesDeliver(id: nat, msg: seq<Byte>, before: seq<Event>, burst: seq<Event>)
    requires Splittable(msg) && |msg| % 256 != 0 && FromMessage(id, msg, before + burst)
    requires Readable(id, before) && Ticks(burst) <= Budget(After(id, before)) && AllArrived(id, msg, burst)
    ensures Readable(id, before + burst + [Tick])
    ensures |Output(id, before)| < |Output(id, before + burst + [Tick])|
    ensures exists d <- Output(id, before + burst + [Tick])[|Output(id, before)|..] :: d == Unsigned(msg, id, d.address)
  {
    hide Holds, Boxes, Sound, FromMessage, Catching, Joined, Contents, Unsigned, AllArrived;
    var all := before + burst;
    var ticked := all + [Tick];
    BurstCaught(id, msg, before, burst);
    MessageHolds(id, msg, all);
    ListenersAreSound(id, all);
    assert Prior(ticked) == all && Last(ticked) == Tick;
    TickFromMessage(id, msg, all);
    OnlyTheMessage(id, msg, ticked);
    if Catching(After(id, all), id, msg, burst, Budget(After(id, before))) {
      CaughtAll(After(id, all), id, msg, burst, Budget(After(id, before)));
    }
    var out, n := Output(id, ticked), |Output(id, before)|;
    assert |out| > n;
    assert out[n] in out && out[n] in out[n..];
  }

  lemma TickFromMessage(id: nat, msg: seq<Byte>, events: seq<Event>)
    requires |msg| > 256 && FromMessage(id, msg, events)
    ensures FromMessage(id, msg, events + [Tick])
  {
  }

  /** A message can get through exactly when its size is no multiple of 256. */
  lemma DeliverableExactly(id: nat, msg: seq<Byte>, burst: seq<Event>)
    requires Splittable(msg) && FromMessage(id, msg, burst) && AllArrived(id, msg, burst) && Ticks(burst) <= 15
    ensures Readable(id, burst + [Tick])
    ensures Output(id, burst + [Tick]) != [] <==> |msg| % 256 != 0
  {
    TickFromMessage(id, msg, burst);
    if |msg| % 256 == 0 {
      MultiplesNeverComplete(id, msg, burst + [Tick]);
    } else {
      assert [] + burst == burst;
      AllBoxesDeliver(id, msg, [], burst);
    }
  }
}

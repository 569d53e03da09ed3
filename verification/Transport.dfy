/** Splitting a message into boxes and putting it together again from boxes that arrive in
    any order, any number of times, while a countdown runs (src/server.cpp). */
module Transport {
  import opened Bytes
  import opened Framing
  import opened NumberTheory
  import opened Wrappers

  // ----- splitting --------------------------------------------------------

  /** How many boxes are sent, and how many they announce, for a message above 256 bytes. */
  function BoxesSent(size: nat): nat
    requires size > 256
  {
    (size - 1) / 256
  }

  function BoxesAnnounced(size: nat): nat
  {
    size / 256
  }

  /** Every box holds 256 bytes, the last one all that is left. */
  function Chunk(msg: seq<Byte>, i: nat): seq<Byte>
    requires |msg| > 256 && i < BoxesSent(|msg|)
  {
    if i == BoxesSent(|msg|) - 1 then msg[256 * i..] else msg[256 * i..256 * i + 256]
  }

  /** The boxes as built, with sixteen-bit number and count. */
  function BoxOf(msg: seq<Byte>, bId: nat, i: nat): NetBox
    requires |msg| > 256 && i < BoxesSent(|msg|)
  {
    NetBox(bId, i % 0x1_0000, BoxesAnnounced(|msg|) % 0x1_0000, Chunk(msg, i))
  }

  function Boxes(msg: seq<Byte>, bId: nat): seq<NetBox>
    requires |msg| > 256
  {
    seq(BoxesSent(|msg|), i requires 0 <= i < BoxesSent(|msg|) => BoxOf(msg, bId, i))
  }

  /** Whole boxes are cut while more than 256 bytes are left beyond them; the rest is one last box. */
  lemma LastBox(size: nat, i: nat)
    requires size > 256 && i < BoxesSent(size)
    ensures size - 256 * i - 256 > 256 <==> i != BoxesSent(size) - 1
    ensures i == BoxesSent(size) - 1 ==> 256 < size - 256 * i <= 512
    ensures i != BoxesSent(size) - 1 ==> 256 * (i + 1) < size - 1
  {
  }

  lemma SomeBoxes(size: nat)
    requires size > 256
    ensures BoxesSent(size) >= 1 && BoxesAnnounced(size) == size / 256
  {
  }

  /** Sends a message whole, or as boxes when it is longer than 256 bytes. */
  method SentRawdata(msg: seq<Byte>, bId: nat) returns (sent: seq<seq<Byte>>)
    requires bId < ByteLimit(8)
    ensures |msg| <= 256 ==> sent == [msg]
    ensures |msg| > 256 ==> |sent| == BoxesSent(|msg|)
    ensures |msg| > 256 ==> forall i :: 0 <= i < |sent| ==> sent[i] == BoxBytes(BoxOf(msg, bId, i))
  {
    hide BoxBytes, BoxesAnnounced, BoxesSent, ByteLimit;
    sent := [];
    if |msg| > 256 {
      assert BoxesSent(|msg|) >= 1 && BoxesAnnounced(|msg|) == |msg| / 256 by { SomeBoxes(|msg|); }
      var aidx, bidx := 0, 0;
      var alls: int := |msg|;
      var tmpCnt, tmpIdx := |msg| / 256, 0;
      while bidx < |msg| - 1
        invariant 0 <= tmpIdx == |sent| <= BoxesSent(|msg|) && alls == |msg| - 256 * tmpIdx
        invariant aidx == if tmpIdx == BoxesSent(|msg|) then |msg| else 256 * tmpIdx
        invariant bidx == if tmpIdx == BoxesSent(|msg|) then |msg| - 1
                          else if tmpIdx == 0 then 0 else 256 * tmpIdx - 1
        invariant tmpIdx == BoxesSent(|msg|) || bidx < |msg| - 1
        invariant forall i :: 0 <= i < |sent| ==> sent[i] == BoxBytes(BoxOf(msg, bId, i))
        decreases BoxesSent(|msg|) - tmpIdx
      {
        LastBox(|msg|, tmpIdx);
        alls := alls - 256;
        if alls > 256 {
          bidx := aidx + 255;
        } else {
          bidx := |msg| - 1;
        }
        var box := NetBox(bId, tmpIdx % 0x1_0000, tmpCnt % 0x1_0000, msg[aidx..aidx + (bidx - aidx + 1) % 0x1_0000]);
        assert box == BoxOf(msg, bId, tmpIdx);
        var sendData := Build(box);
        sent := sent + [sendData[..]];
        aidx := bidx + 1;
        tmpIdx := tmpIdx + 1;
      }
    } else {
      sent := [msg];
    }
  }

  function Joined(boxes: seq<NetBox>): seq<Byte>
  {
    if boxes == [] then [] else boxes[0].data + Joined(boxes[1..])
  }

  lemma {:induction false} JoinedSnoc(boxes: seq<NetBox>, b: NetBox)
    ensures Joined(boxes + [b]) == Joined(boxes) + b.data
    decreases |boxes|
  {
    if boxes == [] {
      assert [] + [b] == [b];
      assert Joined([b]) == b.data + Joined([]);
    } else {
      assert (boxes + [b])[1..] == boxes[1..] + [b];
      JoinedSnoc(boxes[1..], b);
    }
  }

  lemma {:induction false} FirstBoxes(msg: seq<Byte>, bId: nat, n: nat)
    requires |msg| > 256 && n <= BoxesSent(|msg|)
    ensures Joined(Boxes(msg, bId)[..n]) == if n == BoxesSent(|msg|) then msg else msg[..256 * n]
    decreases n
  {
    hide Joined;
    var boxes := Boxes(msg, bId);
    if n == 0 {
      assert Joined([]) == [] by { NothingJoined(); }
      assert boxes[..0] == [];
    } else {
      FirstBoxes(msg, bId, n - 1);
      assert boxes[..n] == boxes[..n - 1] + [boxes[n - 1]];
      JoinedSnoc(boxes[..n - 1], boxes[n - 1]);
      assert boxes[n - 1].data == Chunk(msg, n - 1);
    }
  }

  lemma NothingJoined()
    ensures Joined([]) == []
  {
  }

  /** The boxes partition the message. */
  lemma BoxesJoin(msg: seq<Byte>, bId: nat)
    requires |msg| > 256
    ensures Joined(Boxes(msg, bId)) == msg
  {
    FirstBoxes(msg, bId, BoxesSent(|msg|));
    assert Boxes(msg, bId)[..BoxesSent(|msg|)] == Boxes(msg, bId);
  }

  /** The announced count is one too high for multiples of 256 and right otherwise. */
  lemma CountIsRight(size: nat)
    requires size > 256
    ensures BoxesAnnounced(size) == BoxesSent(size) + (if size % 256 == 0 then 1 else 0)
  {
  }

  // ----- one listener -----------------------------------------------------

  datatype Listener = Listener(bId: nat, clicks: int, cnt: nat, nbn: nat, address: Address, boxs: seq<Option<NetBox>>)

  function NoBoxes(cnt: nat): (boxs: seq<Option<NetBox>>)
    ensures |boxs| == cnt
  {
    seq(cnt, _ => None)
  }

  /** The first box of a message opens a listener for it. */
  function Opened(b: NetBox, from: Address): Listener
    requires b.idx < b.cnt
  {
    Listener(b.bId, 15, b.cnt, 1, from, NoBoxes(b.cnt)[b.idx := Some(b)])
  }

  /** A box not seen before fills its slot and lengthens the countdown. */
  function Received(l: Listener, b: NetBox): Listener
    requires b.idx < |l.boxs|
  {
    if l.boxs[b.idx].None? && l.nbn < l.cnt then
      l.(boxs := l.boxs[b.idx := Some(b)], clicks := l.clicks + 5, nbn := l.nbn + 1)
    else l
  }

  /** Whether the countdown removes the listener at this tick, and what is left if not. */
  function Ticked(l: Listener): Option<Listener>
  {
    if l.cnt == l.nbn || l.clicks == 0 then None else Some(l.(clicks := l.clicks - 1))
  }

  function Contents(boxs: seq<Option<NetBox>>): seq<NetBox>
  {
    if boxs == [] then []
    else (match boxs[0] case Some(b) => [b] case None => []) + Contents(boxs[1..])
  }

  /** What a tick hands on: the message once all its boxes are there. */
  function HandedOn(l: Listener): seq<RawData>
  {
    if l.cnt == l.nbn then [Unsigned(Joined(Contents(l.boxs)), l.bId, l.address)] else []
  }

  function Filled(boxs: seq<Option<NetBox>>): nat
  {
    if boxs == [] then 0 else (if boxs[0].Some? then 1 else 0) + Filled(boxs[1..])
  }

  /** What every listener keeps: the count of filled slots, and boxes in their own slots. */
  ghost predicate Sound(l: Listener)
  {
    && |l.boxs| == l.cnt && l.nbn == Filled(l.boxs) >= 1 && 0 <= l.clicks
    && forall i :: 0 <= i < |l.boxs| && l.boxs[i].Some? ==> l.boxs[i].value.bId == l.bId && l.boxs[i].value.idx == i
  }

  lemma {:induction false} FilledNone(cnt: nat)
    ensures Filled(NoBoxes(cnt)) == 0
    decreases cnt
  {
    if cnt > 0 {
      assert NoBoxes(cnt)[1..] == NoBoxes(cnt - 1);
      FilledNone(cnt - 1);
    }
  }

  lemma {:induction false} FilledMore(boxs: seq<Option<NetBox>>, i: nat, b: NetBox)
    requires i < |boxs| && boxs[i].None?
    ensures Filled(boxs[i := Some(b)]) == Filled(boxs) + 1
    decreases |boxs|
  {
    if i > 0 {
      assert boxs[i := Some(b)][1..] == boxs[1..][i - 1 := Some(b)];
      FilledMore(boxs[1..], i - 1, b);
    }
  }

  lemma {:induction false} FilledAll(boxs: seq<Option<NetBox>>)
    ensures Filled(boxs) <= |boxs|
    ensures Filled(boxs) == |boxs| <==> forall i :: 0 <= i < |boxs| ==> boxs[i].Some?
    decreases |boxs|
  {
    if boxs != [] {
      FilledAll(boxs[1..]);
      assert forall i :: 0 <= i < |boxs[1..]| ==> boxs[1..][i] == boxs[i + 1];
      if forall i :: 0 <= i < |boxs[1..]| ==> boxs[1..][i].Some? {
        assert forall i :: 0 < i < |boxs| ==> boxs[i] == boxs[1..][i - 1];
      }
    }
  }

  lemma OpenedIsSound(b: NetBox, from: Address)
    requires b.idx < b.cnt
    ensures Sound(Opened(b, from))
  {
    FilledNone(b.cnt);
    FilledMore(NoBoxes(b.cnt), b.idx, b);
  }

  lemma ReceivedIsSound(l: Listener, b: NetBox)
    requires Sound(l) && b.bId == l.bId && b.idx < |l.boxs|
    ensures Sound(Received(l, b))
  {
    if l.boxs[b.idx].None? {
      FilledMore(l.boxs, b.idx, b);
    }
  }

  lemma TickedIsSound(l: Listener)
    requires Sound(l)
    ensures Ticked(l).Some? ==> Sound(Ticked(l).value)
  {
  }
}

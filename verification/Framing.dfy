/** The byte layouts of the UDP transport (src/server.cpp): packets, signed messages, boxes
    and requests, each with its writer and its reader. */
module Framing {
  import opened Bytes
  import opened Wrappers

  /** Copies bytes to a position and gives the position after them. */
  method Copy(dst: array<Byte>, at: nat, s: seq<Byte>) returns (next: nat)
    requires at + |s| <= dst.Length
    modifies dst
    ensures next == at + |s| && dst[..next] == old(dst[..at]) + s
  {
    forall k | 0 <= k < |s| {
      dst[at + k] := s[k];
    }
    next := at + |s|;
  }

  // ----- packets ----------------------------------------------------------

  datatype Packet = Packet(kind: nat, buffs: seq<seq<Byte>>)

  function BuffsBytes(buffs: seq<seq<Byte>>): seq<Byte>
  {
    if buffs == [] then [] else Stored(|buffs[0]|, 4) + buffs[0] + BuffsBytes(buffs[1..])
  }

  function PacketBytes(p: Packet): seq<Byte>
  {
    Stored(p.kind, 4) + BuffsBytes(p.buffs)
  }

  /** Lays a packet out in a buffer of the size the C library suggests. */
  method Packet2Rawdata(p: Packet, bufsiz: nat) returns (data: array<Byte>, size: nat)
    requires |PacketBytes(p)| <= bufsiz
    ensures fresh(data) && size <= data.Length && data[..size] == PacketBytes(p)
  {
    hide Stored;
    data := new Byte[bufsiz](_ => 0);
    var idx := Copy(data, 0, Stored(p.kind, 4));
    assert p.buffs[0..] == p.buffs;
    assert data[..idx] == Stored(p.kind, 4);
    for i := 0 to |p.buffs|
      invariant 0 <= idx <= data.Length && data[..idx] + BuffsBytes(p.buffs[i..]) == PacketBytes(p)
    {
      var buff := p.buffs[i];
      ghost var done := data[..idx];
      FirstBuff(done, p.buffs[i..]);
      assert p.buffs[i..][1..] == p.buffs[i + 1..];
      idx := Copy(data, idx, Stored(|buff|, 4));
      idx := Copy(data, idx, buff);
    }
    size := idx;
  }

  lemma FirstBuff(done: seq<Byte>, buffs: seq<seq<Byte>>)
    requires buffs != []
    ensures done + BuffsBytes(buffs) == done + Stored(|buffs[0]|, 4) + buffs[0] + BuffsBytes(buffs[1..])
    ensures |done| + 4 + |buffs[0]| <= |done + BuffsBytes(buffs)|
  {
  }

  /** Reads sized blocks up to the end; None when a block runs past it. */
  function ReadBuffs(data: seq<Byte>, at: nat): Option<seq<seq<Byte>>>
    decreases |data| - at
  {
    if at >= |data| then Some([])
    else if at + 4 > |data| then None
    else
      var n := Loaded(data[at..at + 4]);
      if at + 4 + n > |data| then None
      else match ReadBuffs(data, at + 4 + n)
        case Some(rest) => Some([data[at + 4..at + 4 + n]] + rest)
        case None => None
  }

  function ReadPacket(data: seq<Byte>): Option<Packet>
  {
    if |data| < 4 then None
    else match ReadBuffs(data, 4)
      case Some(buffs) => Some(Packet(Loaded(data[..4]), buffs))
      case None => None
  }

  /** A packet with the blocks still to come. */
  function Followed(p: Packet, rest: Option<seq<seq<Byte>>>): Option<Packet>
  {
    match rest
    case Some(buffs) => Some(p.(buffs := p.buffs + buffs))
    case None => None
  }

  method Rawdata2Packet(data: seq<Byte>) returns (r: Option<Packet>)
    ensures r == ReadPacket(data)
  {
    if |data| < 4 {
      return None;
    }
    hide Loaded;
    var p := Packet(Loaded(data[..4]), []);
    var idx := 4;
    assert forall rest: seq<seq<Byte>> :: [] + rest == rest;
    while idx < |data|
      invariant 4 <= idx
      invariant ReadPacket(data) == Followed(p, ReadBuffs(data, idx))
    {
      if idx + 4 > |data| {
        return None;
      }
      var n := Loaded(data[idx..idx + 4]);
      idx := idx + 4;
      if idx + n > |data| {
        return None;
      }
      ghost var before := p.buffs;
      p := p.(buffs := p.buffs + [data[idx..idx + n]]);
      idx := idx + n;
      assert forall rest :: before + ([data[idx - n..idx]] + rest) == p.buffs + rest;
    }
    assert p.buffs + [] == p.buffs;
    return Some(p);
  }

  ghost predicate BuffsFit(buffs: seq<seq<Byte>>)
  {
    forall i :: 0 <= i < |buffs| ==> |buffs[i]| < ByteLimit(4)
  }

  ghost predicate PacketFits(p: Packet)
  {
    p.kind < ByteLimit(4) && BuffsFit(p.buffs)
  }

  /** One sized block is read and the reader stands behind it. */
  lemma OneBuffRead(pre: seq<Byte>, b: seq<Byte>, rest: seq<Byte>, buffs: seq<seq<Byte>>)
    requires |b| < ByteLimit(4)
    requires ReadBuffs(pre + Stored(|b|, 4) + b + rest, |pre| + 4 + |b|) == Some(buffs)
    ensures ReadBuffs(pre + Stored(|b|, 4) + b + rest, |pre|) == Some([b] + buffs)
  {
    hide Loaded, Stored;
    var size := Stored(|b|, 4);
    var data := pre + size + b + rest;
    LoadFits(|b|, 4);
    assert data[|pre|..|pre| + 4] == size;
    assert data[|pre| + 4..|pre| + 4 + |b|] == b;
  }

  lemma {:induction false} BuffsRead(pre: seq<Byte>, buffs: seq<seq<Byte>>)
    requires BuffsFit(buffs)
    ensures ReadBuffs(pre + BuffsBytes(buffs), |pre|) == Some(buffs)
    decreases |buffs|
  {
    hide *;
    if buffs == [] {
      NothingReads(pre);
    } else {
      var b, rest := buffs[0], buffs[1..];
      RestFits(buffs);
      BuffsRead(pre + Stored(|b|, 4) + b, rest);
      OneBuffRead(pre, b, BuffsBytes(rest), rest);
      FirstBuff(pre, buffs);
      assert buffs == [b] + rest;
    }
  }

  lemma RestFits(buffs: seq<seq<Byte>>)
    requires BuffsFit(buffs) && buffs != []
    ensures |buffs[0]| < ByteLimit(4) && BuffsFit(buffs[1..])
  {
  }

  lemma NothingReads(pre: seq<Byte>)
    ensures ReadBuffs(pre + BuffsBytes([]), |pre|) == Some([])
  {
  }

  /** Reading what was written gives the packet back. */
  lemma PacketReturns(p: Packet)
    requires PacketFits(p)
    ensures ReadPacket(PacketBytes(p)) == Some(p)
  {
    LoadFits(p.kind, 4);
    BuffsRead(Stored(p.kind, 4), p.buffs);
    assert PacketBytes(p)[..4] == Stored(p.kind, 4);
  }

  // ----- signed messages --------------------------------------------------

  const HEAD: seq<Byte> := [78, 69, 84, 67] // NETC
  const TAIL: seq<Byte> := [67, 84, 69, 78] // CTEN

  type Address = seq<Byte>

  /** A message for the next stage, or a blank one when its marks were wrong. */
  datatype RawData =
    | Raw(rId: nat, address: Address, info: seq<Byte>, data: seq<Byte>)
    | Blank(rId: nat, address: Address)

  function SignedBytes(data: seq<Byte>, info: seq<Byte>): seq<Byte>
    requires |info| >= 4
  {
    HEAD + info[..4] + data + TAIL
  }

  method SignedRawdata(data: seq<Byte>, info: seq<Byte>) returns (msg: array<Byte>)
    requires |info| >= 4
    ensures fresh(msg) && msg[..] == SignedBytes(data, info)
  {
    msg := new Byte[12 + |data|](_ => 0);
    var idx := Copy(msg, 0, HEAD);
    idx := Copy(msg, idx, info[..4]);
    idx := Copy(msg, idx, data);
    idx := Copy(msg, idx, TAIL);
    assert msg[..idx] == msg[..];
  }

  predicate CheckRawMsg(p: seq<Byte>)
  {
    |p| >= 4 && p[..4] == HEAD && p[|p| - 4..] == TAIL
  }

  function ProcessSignedRawMsg(p: seq<Byte>, rId: nat, address: Address): RawData
    requires |p| >= 12
  {
    Raw(rId, address, p[4..8], p[8..|p| - 4])
  }

  /** What the receiver keeps of a complete message. */
  function Unsigned(p: seq<Byte>, rId: nat, address: Address): RawData
  {
    if CheckRawMsg(p) && |p| >= 12 then ProcessSignedRawMsg(p, rId, address) else Blank(rId, address)
  }

  lemma SignedReturns(data: seq<Byte>, info: seq<Byte>, rId: nat, address: Address)
    requires |info| >= 4
    ensures var p := SignedBytes(data, info);
            && CheckRawMsg(p) && !CheckNetBox(p)
            && Unsigned(p, rId, address) == Raw(rId, address, info[..4], data)
  {
    var p := SignedBytes(data, info);
    assert p[..4] == HEAD && p[|p| - 4..] == TAIL;
    assert p[4..8] == info[..4] && p[8..|p| - 4] == data;
    assert HEAD[3] != BOX_HEAD[3];
  }

  // ----- boxes ------------------------------------------------------------

  const BOX_HEAD: seq<Byte> := [78, 69, 84, 66] // NETB
  const BOX_TAIL: seq<Byte> := [66, 84, 69, 78] // BTEN

  datatype NetBox = NetBox(bId: nat, idx: nat, cnt: nat, data: seq<Byte>)

  ghost predicate BoxFits(b: NetBox)
  {
    b.bId < ByteLimit(8) && b.idx < ByteLimit(2) && b.cnt < ByteLimit(2) && |b.data| < ByteLimit(2)
  }

  function BoxBytes(b: NetBox): seq<Byte>
  {
    BOX_HEAD + Stored(b.bId, 8) + Stored(b.idx, 2) + Stored(b.cnt, 2) + Stored(|b.data|, 2) + b.data + BOX_TAIL
  }

  method Build(b: NetBox) returns (sendData: array<Byte>)
    ensures fresh(sendData) && sendData[..] == BoxBytes(b)
  {
    hide Stored, Loaded;
    sendData := new Byte[|b.data| + 22](_ => 0);
    var idx := Copy(sendData, 0, BOX_HEAD);
    idx := Copy(sendData, idx, Stored(b.bId, 8));
    idx := Copy(sendData, idx, Stored(b.idx, 2));
    idx := Copy(sendData, idx, Stored(b.cnt, 2));
    idx := Copy(sendData, idx, Stored(|b.data|, 2));
    idx := Copy(sendData, idx, b.data);
    idx := Copy(sendData, idx, BOX_TAIL);
    assert sendData[..idx] == sendData[..];
  }

  predicate CheckNetBox(p: seq<Byte>)
  {
    |p| >= 4 && p[..4] == BOX_HEAD && p[|p| - 4..] == BOX_TAIL
  }

  /** The fields at their offsets; None when the data would run past the end. */
  function ReadBox(p: seq<Byte>): Option<NetBox>
  {
    if |p| < 18 || 22 + Loaded(p[16..18]) > |p| then None
    else Some(NetBox(Loaded(p[4..12]), Loaded(p[12..14]), Loaded(p[14..16]), p[18..18 + Loaded(p[16..18])]))
  }

  method ProcessNetBox(p: seq<Byte>) returns (b: NetBox)
    requires ReadBox(p).Some?
    ensures ReadBox(p) == Some(b)
  {
    var idx := 4;
    var bId := Loaded(p[idx..idx + 8]);
    idx := idx + 8;
    var i := Loaded(p[idx..idx + 2]);
    idx := idx + 2;
    var cnt := Loaded(p[idx..idx + 2]);
    idx := idx + 2;
    var size := Loaded(p[idx..idx + 2]);
    idx := idx + 2;
    b := NetBox(bId, i, cnt, p[idx..idx + size]);
  }

  /** A built box is recognised and read back. */
  lemma BoxReturns(b: NetBox)
    requires BoxFits(b)
    ensures CheckNetBox(BoxBytes(b)) && ReadBox(BoxBytes(b)) == Some(b)
  {
    hide Loaded, Stored;
    var p := BoxBytes(b);
    LoadFits(b.bId, 8);
    LoadFits(b.idx, 2);
    LoadFits(b.cnt, 2);
    LoadFits(|b.data|, 2);
    assert p[..4] == BOX_HEAD && p[|p| - 4..] == BOX_TAIL;
    assert p[4..12] == Stored(b.bId, 8) && p[12..14] == Stored(b.idx, 2);
    assert p[14..16] == Stored(b.cnt, 2) && p[16..18] == Stored(|b.data|, 2);
    assert p[18..18 + |b.data|] == b.data;
  }

  // ----- requests ---------------------------------------------------------

  const REQUEST_TYPE := 100

  /** The address is the sixteen bytes of a socket address. */
  datatype Request = Request(rId: nat, kind: seq<Byte>, data: seq<Byte>, address: Address, recvPort: nat)

  ghost predicate RequestFits(r: Request)
  {
    && r.rId < ByteLimit(8) && r.recvPort < ByteLimit(4) && |r.address| == 16
    && |r.kind| < ByteLimit(4) && |r.data| < ByteLimit(4)
  }

  function Request2Packet(r: Request): Packet
  {
    Packet(REQUEST_TYPE, [
      Stored(r.rId, 8),
      Stored(|r.kind|, 8),
      r.kind,
      Stored(|r.data|, 8),
      r.data,
      r.address,
      Stored(r.recvPort, 4)])
  }

  /** Leaves the request as it was when the packet is of another type; None when a block is
      missing or shorter than what is read from it. */
  function Packet2Request(p: Packet, before: Request): Option<Request>
  {
    if p.kind != REQUEST_TYPE then Some(before)
    else if |p.buffs| < 7 || |p.buffs[0]| < 8 || |p.buffs[1]| < 8 || |p.buffs[3]| < 8
            || |p.buffs[5]| < 16 || |p.buffs[6]| < 4 then None
    else
      var kindSize, dataSize := Loaded(p.buffs[1][..8]), Loaded(p.buffs[3][..8]);
      if kindSize > |p.buffs[2]| || dataSize > |p.buffs[4]| then None
      else Some(Request(Loaded(p.buffs[0][..8]), p.buffs[2][..kindSize], p.buffs[4][..dataSize],
                        p.buffs[5][..16], Loaded(p.buffs[6][..4])))
  }

  lemma RequestReturns(r: Request, before: Request)
    requires RequestFits(r)
    ensures PacketFits(Request2Packet(r)) && Packet2Request(Request2Packet(r), before) == Some(r)
  {
    hide Loaded, Stored;
    Widths();
    LoadFits(r.rId, 8);
    LoadFits(|r.kind|, 8);
    LoadFits(|r.data|, 8);
    LoadFits(r.recvPort, 4);
    var p := Request2Packet(r);
    assert p.buffs[0][..8] == Stored(r.rId, 8) && p.buffs[1][..8] == Stored(|r.kind|, 8);
    assert p.buffs[3][..8] == Stored(|r.data|, 8) && p.buffs[6][..4] == Stored(r.recvPort, 4);
    assert p.buffs[2][..|r.kind|] == r.kind && p.buffs[4][..|r.data|] == r.data && p.buffs[5][..16] == r.address;
  }
}

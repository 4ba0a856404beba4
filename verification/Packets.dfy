/**
 Packets: the buffer with a length prefix that senders append to, the parser that receivers
 run on a frame, and the whole path from one to the other over a chunked stream.
 */
module Packets {
  import opened Arithmetic
  import opened Bytes
  import opened VTables
  import Framing

  const MSG: byte := 0
  const TABLE: byte := 1
  const TIME_SERIES: byte := 2
  const MSG_WITH_TIMESTAMP: byte := 3

  const PACKET_HEADER_LEN: nat := 4

  /** Length prefix, header and body of a packet. */
  function Wire(ty: byte, id: PacketId, requestId: byte, body: seq<byte>): seq<byte> {
    ToLe(PACKET_HEADER_LEN + |body|, 4) + [ty, id.0, id.1, requestId] + body
  }

  // ---------------------------------------------------------------- padding by mask

  /** Bitwise and. */
  function And(x: nat, y: nat): nat {
    if x == 0 || y == 0 then 0
    else 2 * And(x / 2, y / 2) + (if x % 2 == 1 && y % 2 == 1 then 1 else 0)
  }

  lemma {:induction false} AndAllOnes(x: nat, k: nat)
    requires x < Pow2(k)
    ensures And(x, Pow2(k) - 1) == x
  {
    if k > 0 && x > 0 {
      assert (Pow2(k) - 1) / 2 == Pow2(k - 1) - 1 && (Pow2(k) - 1) % 2 == 1;
      AndAllOnes(x / 2, k - 1);
    }
  }

  lemma AndShift(x: nat, y: nat)
    ensures And(x, 2 * y) == 2 * And(x / 2, y)
  {
    if x != 0 && y != 0 {
      assert (2 * y) / 2 == y && (2 * y) % 2 == 0;
    }
  }

  /** Padding of a primitive type: round up with the complement of `align - 1`, in 64 bits. */
  function MaskPadding(ty: PrimType, offset: nat): int {
    var align := PrimAlign(ty);
    And(offset + align - 1, Bytes.U64 - 1 - (align - 1)) - offset
  }

  lemma HalveModulus(x: nat, p: nat)
    requires p > 0
    ensures x % (2 * p) == 2 * ((x / 2) % p) + x % 2
  {
    var h := x / 2;
    var q, r := h / p, h % p;
    assert x == q * (2 * p) + (2 * r + x % 2);
    ModOf(x, q, 2 * p, 2 * r + x % 2);
  }

  /** Anding with ones above bit `j` clears the `j` low bits. */
  lemma {:induction false} MaskClearsLowBits(x: nat, k: nat, j: nat)
    requires j <= k && x < Pow2(k)
    ensures 0 < Pow2(j) <= Pow2(k)
    ensures And(x, Pow2(k) - Pow2(j)) == x - x % Pow2(j)
  {
    if j == 0 {
      AndAllOnes(x, k);
    } else {
      MaskClearsLowBits(x / 2, k - 1, j - 1);
      AndShift(x, Pow2(k - 1) - Pow2(j - 1));
      HalveModulus(x, Pow2(j - 1));
    }
  }

  function AlignBits(ty: PrimType): nat {
    match PrimAlign(ty) case 1 => 0 case 2 => 1 case 4 => 2 case _ => 3
  }

  lemma MaskRoundsUp(ty: PrimType, offset: nat)
    requires offset + 8 < Bytes.U64
    ensures var align := PrimAlign(ty);
            MaskPadding(ty, offset) == (offset + align - 1) - (offset + align - 1) % align - offset
  {
    SmallPowers();
    WordPower();
    assert Pow2(AlignBits(ty)) == PrimAlign(ty);
    MaskClearsLowBits(offset + PrimAlign(ty) - 1, 64, AlignBits(ty));
  }

  /** Bytes to the next offset aligned for `ty`. */
  function PadTo(ty: PrimType, offset: nat): (p: nat)
    ensures p < 8
  {
    match PrimAlign(ty)
    case 1 => 0
    case 2 => if offset % 2 == 0 then 0 else 2 - offset % 2
    case 4 => if offset % 4 == 0 then 0 else 4 - offset % 4
    case _ => if offset % 8 == 0 then 0 else 8 - offset % 8
  }

  lemma RoundUp2(x: nat)
    ensures var p := if x % 2 == 0 then 0 else 2 - x % 2;
            (x + 1) - (x + 1) % 2 - x == p && p == (2 - x % 2) % 2 && (x + p) % 2 == 0
  {
    var q, r := x / 2, x % 2;
    if r == 0 {
      assert x + 1 == 2 * q + 1;
    } else {
      assert x + 1 == 2 * (q + 1) + (r - 1) && x + (2 - r) == 2 * (q + 1);
    }
  }

  lemma RoundUp4(x: nat)
    ensures var p := if x % 4 == 0 then 0 else 4 - x % 4;
            (x + 3) - (x + 3) % 4 - x == p && p == (4 - x % 4) % 4 && (x + p) % 4 == 0
  {
    var q, r := x / 4, x % 4;
    if r == 0 {
      assert x + 3 == 4 * q + 3;
    } else {
      assert x + 3 == 4 * (q + 1) + (r - 1) && x + (4 - r) == 4 * (q + 1);
    }
  }

  lemma RoundUp8(x: nat)
    ensures var p := if x % 8 == 0 then 0 else 8 - x % 8;
            (x + 7) - (x + 7) % 8 - x == p && p == (8 - x % 8) % 8 && (x + p) % 8 == 0
  {
    var q, r := x / 8, x % 8;
    if r == 0 {
      assert x + 7 == 8 * q + 7;
    } else {
      assert x + 7 == 8 * (q + 1) + (r - 1) && x + (8 - r) == 8 * (q + 1);
    }
  }

  /** The mask and the modulus agree on how far it is to the next aligned offset. */
  lemma MaskIsPadding(ty: PrimType, offset: nat)
    requires offset + 8 < Bytes.U64
    ensures MaskPadding(ty, offset) == PadTo(ty, offset)
    ensures var align := PrimAlign(ty);
            PadTo(ty, offset) == (align - offset % align) % align && (offset + PadTo(ty, offset)) % align == 0
  {
    MaskRoundsUp(ty, offset);
    match PrimAlign(ty)
    case 1 =>
    case 2 => RoundUp2(offset);
    case 4 => RoundUp4(offset);
    case _ => RoundUp8(offset);
  }

  // ---------------------------------------------------------------- building a packet

  class LenPacket {
    var inner: seq<byte>

    /** The length prefix counts everything after it. */
    ghost predicate Valid()
      reads this
    {
      && |inner| >= 8
      && |inner| - 4 < Bytes.U32
      && inner[..4] == ToLe(|inner| - 4, 4)
    }

    ghost function Header(): seq<byte>
      requires Valid()
      reads this
    {
      inner[4..8]
    }

    ghost function Body(): seq<byte>
      requires Valid()
      reads this
    {
      inner[8..]
    }

    constructor (ty: byte, id: PacketId)
      ensures Valid() && inner == Wire(ty, id, 0, [])
    {
      inner := ToLe(PACKET_HEADER_LEN, 4) + [ty] + [id.0, id.1] + [0];
    }

    method PktLen() returns (n: nat)
      requires Valid()
      ensures n == |inner| - 4
    {
      PowersOf256();
      FromLeToLe(|inner| - 4, 4);
      n := FromLe(inner[..4]);
    }

    method SetLen(n: nat)
      requires |inner| >= 8 && n < Bytes.U32
      modifies this
      ensures inner == ToLe(n, 4) + old(inner)[4..]
    {
      inner := ToLe(n, 4) + inner[4..];
    }

    method Push(elem: byte)
      requires Valid() && |inner| + 1 - 4 < Bytes.U32
      modifies this
      ensures Valid() && Header() == old(Header()) && Body() == old(Body()) + [elem]
    {
      var len := PktLen();
      inner := inner + [elem];
      SetLen(len + 1);
      assert inner[4..] == old(inner)[4..] + [elem];
    }

    method ExtendFromSlice(buf: seq<byte>)
      requires Valid() && |inner| + |buf| - 4 < Bytes.U32
      modifies this
      ensures Valid() && Header() == old(Header()) && Body() == old(Body()) + buf
    {
      var len := PktLen();
      inner := inner + buf;
      SetLen(len + |buf|);
      assert inner[4..] == old(inner)[4..] + buf;
    }

    /** Pads to the alignment by the modulus, then appends. */
    method PushAligned(align: nat, bytes: seq<byte>)
      requires Valid() && align in {1, 2, 4, 8} && |inner| + align + |bytes| - 4 < Bytes.U32
      modifies this
      ensures Valid() && Header() == old(Header())
      ensures Body() == old(Body()) + seq((align - |old(inner)| % align) % align, i => 0) + bytes
    {
      var oldLen := |inner|;
      var padding := (align - oldLen % align) % align;
      var i := 0;
      while i < padding
        invariant 0 <= i <= padding
        invariant inner == old(inner) + seq(i, k => 0)
      {
        inner := inner + [0];
        i := i + 1;
      }
      inner := inner + bytes;
      assert inner[..4] == old(inner)[..4];
      PowersOf256();
      FromLeToLe(oldLen - 4, 4);
      var len := FromLe(inner[..4]) + (|inner| - oldLen);
      SetLen(len);
      assert inner[4..] == old(inner)[4..] + seq(padding, k => 0) + bytes;
      assert inner[4..8] == old(inner)[4..8];
      assert inner[8..] == old(inner)[8..] + seq(padding, k => 0) + bytes;
    }

    /** Pads to a primitive type's alignment by the mask. */
    method PadForType(ty: PrimType)
      requires Valid() && |inner| + 8 - 4 < Bytes.U32
      modifies this
      ensures Valid() && Header() == old(Header())
      ensures Body() == old(Body()) + seq(PadTo(ty, |old(inner)|), i => 0)
    {
      MaskIsPadding(ty, |inner|);
      var n := MaskPadding(ty, |inner|);
      var i := 0;
      while i < n
        invariant 0 <= i <= n
        invariant Valid() && Header() == old(Header()) && |inner| == |old(inner)| + i
        invariant Body() == old(Body()) + seq(i, k => 0)
      {
        Push(0);
        i := i + 1;
      }
    }

    method SetRequestId(requestId: byte)
      requires Valid()
      modifies this
      ensures Valid() && Body() == old(Body()) && Header() == old(Header())[..3] + [requestId]
    {
      inner := inner[7 := requestId];
    }

    method Clear()
      requires Valid()
      modifies this
      ensures Valid() && Header() == old(Header()) && Body() == []
    {
      SetLen(PACKET_HEADER_LEN);
      assert inner[4..8] == old(inner)[4..8];
      inner := inner[..8];
      assert inner[4..8] == old(inner)[4..8];
    }
  }

  // ---------------------------------------------------------------- parsing a frame

  datatype Packet =
    | Msg(id: PacketId, requestId: byte, timestamp: Option<Bytes.Timestamp>, body: seq<byte>)
    | TablePacket(id: PacketId, requestId: byte, body: seq<byte>)
    | TimeSeriesPacket(id: PacketId, requestId: byte, len: nat, body: seq<byte>)

  datatype ParseError = TooShort | InvalidData | InvalidPacket

  function Parse(buf: seq<byte>): Result<Packet, ParseError> {
    if |buf| < PACKET_HEADER_LEN then Err(TooShort)
    else
      var (ty, id, requestId, body) := (buf[0], (buf[1], buf[2]), buf[3], buf[4..]);
      if ty == MSG then Ok(Msg(id, requestId, None, body))
      else if ty == TABLE then Ok(TablePacket(id, requestId, body))
      else if ty == TIME_SERIES then
        if |body| < 8 then Err(TooShort) else Ok(TimeSeriesPacket(id, requestId, FromLe(body[..8]), body))
      else if ty == MSG_WITH_TIMESTAMP then
        if |body| < 8 then Err(InvalidPacket)
        else Ok(Msg(id, requestId, Some(TimestampFromLe(body[..8])), body[8..]))
      else Err(InvalidData)
  }

  /** What a sender puts after the length prefix for a packet. */
  function Content(p: Packet): seq<byte> {
    match p
    case Msg(id, r, None, body) => [MSG, id.0, id.1, r] + body
    case Msg(id, r, Some(t), body) => [MSG_WITH_TIMESTAMP, id.0, id.1, r] + (TimestampToLe(t) + body)
    case TablePacket(id, r, body) => [TABLE, id.0, id.1, r] + body
    case TimeSeriesPacket(id, r, _, body) => [TIME_SERIES, id.0, id.1, r] + body
  }

  /** A time series body starts with its own sample count. */
  predicate Sendable(p: Packet) {
    && |Content(p)| < Bytes.U32
    && (p.TimeSeriesPacket? ==> |p.body| >= 8 && p.len == FromLe(p.body[..8]))
  }

  lemma ParseInvertsContent(p: Packet)
    requires Sendable(p)
    ensures Parse(Content(p)) == Ok(p)
  {
    var c := Content(p);
    match p
    case Msg(id, r, Some(t), body) =>
      assert c[4..] == TimestampToLe(t) + body;
      assert (TimestampToLe(t) + body)[..8] == TimestampToLe(t);
      TimestampRoundTrip(t);
    case Msg(id, r, None, body) => assert c[4..] == body;
    case TablePacket(id, r, body) => assert c[4..] == body;
    case TimeSeriesPacket(id, r, len, body) => assert c[4..] == body;
  }

  /**
   Which frames are packets, by their first byte and length, and which error the others give. A frame
   that is one is what would be sent for it: nothing of it is lost or made up.
   */
  lemma ParseExact(buf: seq<byte>)
    ensures Parse(buf).Ok? <==> |buf| >= 4 && (buf[0] in {0, 1} || (buf[0] in {2, 3} && |buf| >= 12))
    ensures Parse(buf).Ok? ==> Content(Parse(buf).value) == buf
    ensures Parse(buf).Ok? ==>
              var p := Parse(buf).value;
              && (buf[0] == 0 ==> p.Msg? && p.timestamp.None?)
              && (buf[0] == 1 ==> p.TablePacket?)
              && (buf[0] == 2 ==> p.TimeSeriesPacket? && p.len == FromLe(p.body[..8]))
              && (buf[0] == 3 ==> p.Msg? && p.timestamp.Some?)
    ensures Parse(buf).Err? ==>
              Parse(buf).error ==
                if |buf| < 4 || buf[0] == 2 then TooShort else if buf[0] == 3 then InvalidPacket else InvalidData
  {
    if Parse(buf).Ok? {
      var body := buf[4..];
      assert buf == [buf[0], buf[1], buf[2], buf[3]] + body;
      if buf[0] == 3 {
        TimestampBytesRoundTrip(body[..8]);
        assert body == body[..8] + body[8..];
      }
    }
  }

  function Contents(ps: seq<Packet>): seq<seq<byte>> {
    seq(|ps|, i requires 0 <= i < |ps| => Content(ps[i]))
  }

  method ParseAll(bufs: seq<seq<byte>>) returns (out: seq<Result<Packet, ParseError>>)
    ensures |out| == |bufs| && forall i | 0 <= i < |bufs| :: out[i] == Parse(bufs[i])
  {
    out := [];
    var i := 0;
    while i < |bufs|
      invariant 0 <= i <= |bufs|
      invariant |out| == i && forall k | 0 <= k < i :: out[k] == Parse(bufs[k])
    {
      out := out + [Parse(bufs[i])];
      i := i + 1;
    }
  }

  predicate AllSendable(ps: seq<Packet>, len: nat) {
    forall i | 0 <= i < |ps| :: Sendable(ps[i]) && |Content(ps[i])| + 4 <= len
  }

  /**
   The receiving side of a connection: whatever the chunking, the packets read back are the
   packets sent, in order, and what follows them stays unread.
   */
  method ReceivePackets(reader: Framing.LengthDelReader, len: nat, ghost ps: seq<Packet>, count: nat, ghost tail: seq<byte>)
    returns (out: seq<Result<Packet, ParseError>>)
    requires reader.prefix == 4 && count == |ps| && AllSendable(ps, len)
    requires reader.Unread() == Flatten(Framing.Frames(Contents(ps), 4)) + tail && |reader.scratch| <= len
    modifies reader
    ensures |out| == |ps| && forall i | 0 <= i < |ps| :: out[i] == Ok(ps[i])
    ensures reader.Unread() == tail && |reader.scratch| <= len
  {
    var bufs := Framing.RecvMany(reader, len, Contents(ps), count, tail);
    out := ParseAll(bufs);
    forall i | 0 <= i < |ps| ensures out[i] == Ok(ps[i]) {
      ParseInvertsContent(ps[i]);
    }
  }

  /** A packet on the wire is the frame of its content. */
  lemma WireIsFrame(ty: byte, id: PacketId, requestId: byte, body: seq<byte>)
    ensures Wire(ty, id, requestId, body) == Framing.FrameOf([ty, id.0, id.1, requestId] + body, 4)
  {
    var content := [ty, id.0, id.1, requestId] + body;
    assert ToLe(|content|, 4) + content == Wire(ty, id, requestId, body);
  }
}

/**
 The persist task of a message log: frames read from the ring are parsed and stored in nodes
 that roll over when full. What is stored is compared with the sequence of messages pushed.
 */
module MsgPersist {
  import opened Bytes
  import opened MsgLog
  import opened Disruptor
  import opened Broadcast
  import TimeSeries
  import DisruptorCore

  // ---------------------------------------------------------------- frames of the ring

  /** Timestamp, length, message: one grant each. */
  function FrameOf(m: Message): seq<byte> {
    TimestampToLe(m.timestamp) + ToLe(|m.body|, 4) + m.body
  }

  function Frames(ms: seq<Message>): (frames: seq<seq<byte>>)
    ensures |frames| == |ms| && forall i | 0 <= i < |ms| :: frames[i] == FrameOf(ms[i])
  {
    seq(|ms|, i requires 0 <= i < |ms| => FrameOf(ms[i]))
  }

  /** The first message of a buffer and what follows it, if a whole frame is there. */
  function ReadMsg(buf: seq<byte>): Option<(seq<byte>, Message)> {
    if |buf| < 12 then None
    else
      var len := FromLe(buf[8..12]);
      if |buf| - 12 < len then None
      else Some((buf[12 + len..], Message(TimestampFromLe(buf[..8]), buf[12..12 + len])))
  }

  /** Repeated `ReadMsg`. */
  function ParseMsgs(buf: seq<byte>): seq<Message>
    decreases |buf|
  {
    match ReadMsg(buf)
    case None => []
    case Some((rest, m)) => [m] + ParseMsgs(rest)
  }

  predicate Framable(m: Message) {
    |m.body| < Bytes.U32
  }

  predicate AllFit(ms: seq<Message>) {
    forall i | 0 <= i < |ms| :: Framable(ms[i])
  }

  lemma ReadFirst(m: Message, rest: seq<byte>)
    requires Framable(m)
    ensures ReadMsg(FrameOf(m) + rest) == Some((rest, m))
  {
    var buf, n := FrameOf(m) + rest, |m.body|;
    PowersOf256();
    FromLeToLe(n, 4);
    TimestampRoundTrip(m.timestamp);
    assert buf[..8] == TimestampToLe(m.timestamp);
    assert buf[8..12] == ToLe(n, 4);
    assert buf[12..12 + n] == m.body;
    assert buf[12 + n..] == rest;
  }

  /** Whole frames parse back to the messages framed, and nothing is left over. */
  lemma {:induction false} ParseInvertsFrames(ms: seq<Message>)
    requires AllFit(ms)
    ensures ParseMsgs(Flatten(Frames(ms))) == ms
  {
    if ms != [] {
      assert Frames(ms)[1..] == Frames(ms[1..]);
      ReadFirst(ms[0], Flatten(Frames(ms[1..])));
      ParseInvertsFrames(ms[1..]);
    }
  }

  /** What remains when no further frame is complete. */
  function Leftover(buf: seq<byte>): seq<byte>
    decreases |buf|
  {
    match ReadMsg(buf)
    case None => buf
    case Some((rest, _)) => Leftover(rest)
  }

  lemma ReadIsFrame(buf: seq<byte>)
    requires ReadMsg(buf).Some?
    ensures FrameOf(ReadMsg(buf).value.1) + ReadMsg(buf).value.0 == buf
  {
    TimestampBytesRoundTrip(buf[..8]);
    ToLeFromLe(buf[8..12]);
    var n := FromLe(buf[8..12]);
    assert buf[..8] + buf[8..12] + buf[12..12 + n] + buf[12 + n..] == buf;
  }

  /** Conversely, parsing loses nothing: the messages' frames and the leftover make up the buffer. */
  lemma {:induction false} FramesInvertParse(buf: seq<byte>)
    ensures Flatten(Frames(ParseMsgs(buf))) + Leftover(buf) == buf
    decreases |buf|
  {
    match ReadMsg(buf)
    case None =>
    case Some((rest, m)) =>
      FramesInvertParse(rest);
      var ms := ParseMsgs(rest);
      assert Frames([m] + ms) == [FrameOf(m)] + Frames(ms);
      assert ([FrameOf(m)] + Frames(ms))[1..] == Frames(ms);
      ReadIsFrame(buf);
      assert FrameOf(m) + Flatten(Frames(ms)) + Leftover(rest) == FrameOf(m) + (Flatten(Frames(ms)) + Leftover(rest));
  }

  // ---------------------------------------------------------------- pushing into the ring

  datatype PushOutcome = Full | Pushed

  /** One grant, filled front to back in three pieces; a ring without room is an overflow. */
  method PushMsg(wal: DisruptorCore.Core, m: Message) returns (r: PushOutcome)
    requires wal.Valid() && wal.grant.Free?
    modifies wal, wal.ringbuf
    ensures wal.Valid() && wal.grant.Free?
    ensures r.Pushed? <==> Push(old(wal.Abs()), FrameOf(m)).Ok?
    ensures r.Pushed? ==> Push(old(wal.Abs()), FrameOf(m)) == Ok(wal.Abs())
    ensures !r.Pushed? ==> wal.Abs() == old(wal.Abs())
  {
    ghost var a, b, c := TimestampToLe(m.timestamp), ToLe(|m.body|, 4), m.body;
    var refused := wal.TryGrant(8 + 4 + |m.body|);
    if refused.Some? {
      return Full;
    }
    ghost var granted := wal.Abs();
    assert CanFill(granted, 0, (a + b) + c);
    FillInTwo(granted, a + b, c);
    FillInTwo(granted, a, b);
    wal.CopyIntoGrant(0, TimestampToLe(m.timestamp));
    wal.CopyIntoGrant(8, ToLe(|m.body|, 4));
    wal.CopyIntoGrant(12, m.body);
    assert wal.Abs() == Fill(granted, 0, FrameOf(m));
    wal.Commit();
    return Pushed;
  }

  // ---------------------------------------------------------------- nodes

  /** A node's directory is named after the timestamp it is created for. */
  datatype Node = Node(start: Timestamp, timestamps: seq<byte>, bufs: Bufs)

  /** The first `n` messages of a node; an entry without its data is passed over. */
  function MsgsUpTo(node: Node, n: nat): seq<Message>
    requires 8 * n <= |node.timestamps|
  {
    if n == 0 then []
    else
      MsgsUpTo(node, n - 1) +
      match GetMsg(node.bufs, n - 1)
      case None => []
      case Some(body) => [Message(TimestampFromLe(node.timestamps[8 * n - 8..8 * n]), body)]
  }

  function NodeMsgs(node: Node): seq<Message> {
    MsgsUpTo(node, |node.timestamps| / 8)
  }

  /** All messages, oldest first, of nodes kept newest first. */
  function Msgs(nodes: seq<Node>): seq<Message> {
    if nodes == [] then [] else Msgs(nodes[1..]) + NodeMsgs(nodes[0])
  }

  predicate HasStart(nodes: seq<Node>, ts: Timestamp) {
    exists i | 0 <= i < |nodes| :: nodes[i].start == ts
  }

  /** The message, then its timestamp; `Ok(false)` asks for a new node. */
  function TryPush(cap: nat, nodes: seq<Node>, m: Message): (seq<Node>, Result<bool, TimeSeries.Error>) {
    if nodes == [] then (nodes, Ok(false))
    else
      var (bufs, ok) := InsertMsg(cap, nodes[0].bufs, m.body);
      var head := nodes[0].(bufs := bufs);
      if !ok then (nodes[0 := head], Ok(false))
      else if |head.timestamps| + 8 > cap then (nodes[0 := head], Err(TimeSeries.MapOverflow))
      else (nodes[0 := head.(timestamps := head.timestamps + TimestampToLe(m.timestamp))], Ok(true))
  }

  lemma TryPushKeepsStarts(cap: nat, nodes: seq<Node>, m: Message, ts: Timestamp)
    ensures var after := TryPush(cap, nodes, m).0;
            |after| == |nodes| && (HasStart(after, ts) <==> HasStart(nodes, ts))
  {
    var after := TryPush(cap, nodes, m).0;
    assert forall i | 0 <= i < |nodes| :: after[i].start == nodes[i].start;
  }

  function NewNode(m: Message): Node {
    Node(m.timestamp, [], Bufs([], []))
  }

  /** Retries on a new node until the message is in; a node's files can be created only once. */
  function PersistMsg(cap: nat, nodes: seq<Node>, m: Message): (seq<Node>, Option<TimeSeries.Error>)
    decreases if HasStart(nodes, m.timestamp) then 0 else 1
  {
    TryPushKeepsStarts(cap, nodes, m, m.timestamp);
    match TryPush(cap, nodes, m)
    case (after, Err(e)) => (after, Some(e))
    case (after, Ok(true)) => (after, None)
    case (after, Ok(false)) =>
      if HasStart(after, m.timestamp) then (after, Some(TimeSeries.AlreadyExists))
      else
        assert ([NewNode(m)] + after)[0].start == m.timestamp;
        PersistMsg(cap, [NewNode(m)] + after, m)
  }

  function StoreAll(cap: nat, nodes: seq<Node>, ms: seq<Message>): seq<Node>
    decreases |ms|
  {
    if ms == [] then nodes else StoreAll(cap, PersistMsg(cap, nodes, ms[0]).0, ms[1..])
  }

  class MsgWriter {
    var nodes: seq<Node>
    const cap: nat

    constructor (cap: nat)
      ensures nodes == [] && this.cap == cap
    {
      this.cap := cap;
      nodes := [];
    }

    method TryPushMsg(m: Message) returns (r: Result<bool, TimeSeries.Error>)
      modifies this
      ensures (nodes, r) == TryPush(cap, old(nodes), m)
    {
      if nodes == [] {
        return Ok(false);
      }
      var (bufs, ok) := InsertMsg(cap, nodes[0].bufs, m.body);
      nodes := nodes[0 := nodes[0].(bufs := bufs)];
      if !ok {
        return Ok(false);
      }
      if |nodes[0].timestamps| + 8 > cap {
        return Err(TimeSeries.MapOverflow);
      }
      nodes := nodes[0 := nodes[0].(timestamps := nodes[0].timestamps + TimestampToLe(m.timestamp))];
      assert nodes == old(nodes)[0 := nodes[0]];
      return Ok(true);
    }

    /** The retry loop creates at most one node. */
    method Persist(m: Message) returns (error: Option<TimeSeries.Error>)
      modifies this
      ensures (nodes, error) == PersistMsg(cap, old(nodes), m)
      ensures |nodes| <= |old(nodes)| + 1
    {
      while true
        invariant PersistMsg(cap, nodes, m) == PersistMsg(cap, old(nodes), m)
        invariant nodes == old(nodes) || (HasStart(nodes, m.timestamp) && |nodes| == |old(nodes)| + 1)
        decreases if HasStart(nodes, m.timestamp) then 0 else 1
      {
        TryPushKeepsStarts(cap, nodes, m, m.timestamp);
        var r := TryPushMsg(m);
        if r.Err? {
          return Some(r.error);
        }
        if r.value {
          return None;
        }
        if HasStart(nodes, m.timestamp) {
          return Some(TimeSeries.AlreadyExists);
        }
        nodes := [NewNode(m)] + nodes;
        assert nodes[0].start == m.timestamp;
      }
    }

    /** The parse loop over one read grant; a message that cannot be stored is logged and dropped. */
    method PersistChunk(chunk: seq<byte>)
      modifies this
      ensures nodes == StoreAll(cap, old(nodes), ParseMsgs(chunk))
    {
      var buf := chunk;
      while |buf| >= 12
        invariant StoreAll(cap, nodes, ParseMsgs(buf)) == StoreAll(cap, old(nodes), ParseMsgs(chunk))
        decreases |buf|
      {
        var timestamp := TimestampFromLe(buf[..8]);
        var len := FromLe(buf[8..12]);
        if |buf| - 12 < len {
          break;
        }
        ghost var m := Message(timestamp, buf[12..12 + len]);
        assert ParseMsgs(buf) == [m] + ParseMsgs(buf[12 + len..]);
        var error := Persist(Message(timestamp, buf[12..12 + len]));
        buf := buf[12 + len..];
      }
    }
  }

  // ---------------------------------------------------------------- what a node holds

  predicate AllReadable(node: Node) {
    forall i | 0 <= i < |node.timestamps| / 8 :: GetMsg(node.bufs, i).Some?
  }

  /** One entry for each timestamp, and every entry readable. */
  predicate NodeOk(cap: nat, node: Node) {
    && |node.timestamps| % 8 == 0
    && |node.bufs.offsets| == 2 * |node.timestamps| <= cap
    && AllReadable(node)
  }

  predicate LogOk(cap: nat, nodes: seq<Node>) {
    forall i | 0 <= i < |nodes| :: NodeOk(cap, nodes[i])
  }

  /** No data log has grown past what 32-bit offsets can address. */
  predicate Addressable(nodes: seq<Node>) {
    forall i | 0 <= i < |nodes| :: |nodes[i].bufs.data| <= Bytes.U32
  }

  predicate SameMsgs(b: Bufs, b': Bufs, n: nat) {
    forall i | 0 <= i < n :: GetMsg(b', i) == GetMsg(b, i)
  }

  /** Appending leaves earlier entries as they were. */
  lemma EntriesStable(node: Node, bufs: Bufs)
    requires AllReadable(node) && node.bufs.offsets <= bufs.offsets && node.bufs.data <= bufs.data
    ensures SameMsgs(node.bufs, bufs, |node.timestamps| / 8)
  {
    forall i | 0 <= i < |node.timestamps| / 8 ensures GetMsg(bufs, i) == GetMsg(node.bufs, i) {
      GetMsgStable(node.bufs, bufs, i);
    }
  }

  lemma {:induction false} MsgsStable(node: Node, node': Node, n: nat)
    requires 8 * n <= |node.timestamps| && node.timestamps <= node'.timestamps
    requires SameMsgs(node.bufs, node'.bufs, n)
    ensures MsgsUpTo(node', n) == MsgsUpTo(node, n)
  {
    if n > 0 {
      MsgsStable(node, node', n - 1);
      assert node'.timestamps[8 * n - 8..8 * n] == node.timestamps[8 * n - 8..8 * n];
      assert GetMsg(node'.bufs, n - 1) == GetMsg(node.bufs, n - 1);
    }
  }

  /** An insert that fails may leave data behind, and no message is affected. */
  lemma FailedInsert(cap: nat, node: Node, body: seq<byte>)
    requires NodeOk(cap, node) && !InsertMsg(cap, node.bufs, body).1
    ensures var after := node.(bufs := InsertMsg(cap, node.bufs, body).0);
            NodeOk(cap, after) && NodeMsgs(after) == NodeMsgs(node)
  {
    var after := node.(bufs := InsertMsg(cap, node.bufs, body).0);
    InsertGrows(cap, node.bufs, body);
    EntriesStable(node, after.bufs);
    MsgsStable(node, after, |node.timestamps| / 8);
  }

  function Appended(cap: nat, node: Node, m: Message): Node {
    Node(node.start, node.timestamps + TimestampToLe(m.timestamp), InsertMsg(cap, node.bufs, m.body).0)
  }

  lemma LastMessage(cap: nat, node: Node, m: Message)
    requires NodeOk(cap, node) && Framable(m) && InsertMsg(cap, node.bufs, m.body).1
    requires |Appended(cap, node, m).bufs.data| <= Bytes.U32
    ensures GetMsg(Appended(cap, node, m).bufs, |node.timestamps| / 8) == Some(m.body)
  {
    var b := node.bufs;
    GetLast(b, m.body, cap, |node.timestamps| / 8);
    if |m.body| > 12 {
      assert |b.data| % Bytes.U32 == |b.data|;
      assert (b.data + m.body)[|b.data|..|b.data| + |m.body|] == m.body;
    }
  }

  lemma AppendReadable(node: Node, after: Node)
    requires AllReadable(node) && |node.timestamps| % 8 == 0 && |after.timestamps| == |node.timestamps| + 8
    requires SameMsgs(node.bufs, after.bufs, |node.timestamps| / 8)
    requires GetMsg(after.bufs, |node.timestamps| / 8).Some?
    ensures AllReadable(after)
  {
    var n := |node.timestamps| / 8;
    assert |after.timestamps| / 8 == n + 1;
    forall i | 0 <= i < n + 1 ensures GetMsg(after.bufs, i).Some? {
      if i < n {
        assert GetMsg(after.bufs, i) == GetMsg(node.bufs, i);
      }
    }
  }

  lemma AppendToList(node: Node, after: Node, m: Message)
    requires |node.timestamps| % 8 == 0 && after.timestamps == node.timestamps + TimestampToLe(m.timestamp)
    requires SameMsgs(node.bufs, after.bufs, |node.timestamps| / 8)
    requires GetMsg(after.bufs, |node.timestamps| / 8) == Some(m.body)
    ensures NodeMsgs(after) == NodeMsgs(node) + [m]
  {
    var n := |node.timestamps| / 8;
    MsgsStable(node, after, n);
    assert |after.timestamps| / 8 == n + 1;
    TimestampRoundTrip(m.timestamp);
    assert after.timestamps[8 * (n + 1) - 8..8 * (n + 1)] == TimestampToLe(m.timestamp);
  }

  lemma AppendNode(cap: nat, node: Node, after: Node, m: Message)
    requires NodeOk(cap, node) && after.timestamps == node.timestamps + TimestampToLe(m.timestamp)
    requires node.bufs.offsets <= after.bufs.offsets && node.bufs.data <= after.bufs.data
    requires |after.bufs.offsets| == |node.bufs.offsets| + 16 <= cap
    requires GetMsg(after.bufs, |node.timestamps| / 8) == Some(m.body)
    ensures NodeOk(cap, after) && NodeMsgs(after) == NodeMsgs(node) + [m]
  {
    EntriesStable(node, after.bufs);
    AppendReadable(node, after);
    AppendToList(node, after, m);
  }

  lemma AppendMessage(cap: nat, node: Node, m: Message)
    requires NodeOk(cap, node) && Framable(m) && InsertMsg(cap, node.bufs, m.body).1
    requires |Appended(cap, node, m).bufs.data| <= Bytes.U32
    ensures NodeOk(cap, Appended(cap, node, m))
    ensures NodeMsgs(Appended(cap, node, m)) == NodeMsgs(node) + [m]
  {
    InsertGrows(cap, node.bufs, m.body);
    LastMessage(cap, node, m);
    AppendNode(cap, node, Appended(cap, node, m), m);
  }

  // ---------------------------------------------------------------- one message

  /** Exactly when a message is stored: it fits, or a new node can be made for it and it fits there. */
  predicate CanStore(cap: nat, nodes: seq<Node>, m: Message) {
    || (nodes != [] && InsertMsg(cap, nodes[0].bufs, m.body).1)
    || (!HasStart(nodes, m.timestamp) && 16 <= cap && (|m.body| > 12 ==> |m.body| <= cap))
  }

  lemma TryPushOk(cap: nat, nodes: seq<Node>, m: Message)
    requires LogOk(cap, nodes) && Framable(m) && Addressable(TryPush(cap, nodes, m).0)
    ensures var (after, r) := TryPush(cap, nodes, m);
            && LogOk(cap, after) && r.Ok?
            && (r.value <==> nodes != [] && InsertMsg(cap, nodes[0].bufs, m.body).1)
            && Msgs(after) == Msgs(nodes) + (if r.value then [m] else [])
  {
    if nodes != [] {
      var head, after := nodes[0], TryPush(cap, nodes, m).0;
      assert NodeOk(cap, head);
      assert after[1..] == nodes[1..];
      InsertGrows(cap, head.bufs, m.body);
      if InsertMsg(cap, head.bufs, m.body).1 {
        assert after[0] == Appended(cap, head, m);
        AppendMessage(cap, head, m);
        assert Msgs(nodes[1..]) + (NodeMsgs(head) + [m]) == Msgs(nodes[1..]) + NodeMsgs(head) + [m];
      } else {
        FailedInsert(cap, head, m.body);
      }
    }
  }

  lemma AddressableTail(node: Node, nodes: seq<Node>)
    requires Addressable([node] + nodes)
    ensures Addressable(nodes)
  {
    assert forall i | 0 <= i < |nodes| :: nodes[i] == ([node] + nodes)[i + 1];
  }

  lemma TryPushAddressable(cap: nat, nodes: seq<Node>, m: Message)
    requires Addressable(TryPush(cap, nodes, m).0)
    ensures Addressable(nodes)
  {
    if nodes != [] {
      var after := TryPush(cap, nodes, m).0;
      InsertGrows(cap, nodes[0].bufs, m.body);
      assert forall i | 0 <= i < |nodes| :: |nodes[i].bufs.data| <= |after[i].bufs.data|;
    }
  }

  lemma {:induction false} PersistAddressable(cap: nat, nodes: seq<Node>, m: Message)
    requires Addressable(PersistMsg(cap, nodes, m).0)
    ensures Addressable(TryPush(cap, nodes, m).0) && Addressable(nodes)
    decreases if HasStart(nodes, m.timestamp) then 0 else 1
  {
    TryPushKeepsStarts(cap, nodes, m, m.timestamp);
    var (after, r) := TryPush(cap, nodes, m);
    if r == Ok(false) && !HasStart(after, m.timestamp) {
      assert ([NewNode(m)] + after)[0].start == m.timestamp;
      PersistAddressable(cap, [NewNode(m)] + after, m);
      AddressableTail(NewNode(m), after);
    }
    TryPushAddressable(cap, nodes, m);
  }

  lemma NewNodeIsEmpty(cap: nat, nodes: seq<Node>, m: Message)
    requires LogOk(cap, nodes)
    ensures LogOk(cap, [NewNode(m)] + nodes) && HasStart([NewNode(m)] + nodes, m.timestamp)
    ensures Msgs([NewNode(m)] + nodes) == Msgs(nodes)
  {
    var more := [NewNode(m)] + nodes;
    assert more[0] == NewNode(m) && more[1..] == nodes;
    assert NodeOk(cap, NewNode(m)) && NodeMsgs(NewNode(m)) == [];
  }

  /** The second round of the retry loop, on the node just created. */
  lemma RollOver(cap: nat, nodes: seq<Node>, m: Message)
    requires LogOk(cap, nodes) && Framable(m) && !HasStart(nodes, m.timestamp)
    requires Addressable(PersistMsg(cap, [NewNode(m)] + nodes, m).0)
    ensures var (after, error) := PersistMsg(cap, [NewNode(m)] + nodes, m);
            && LogOk(cap, after)
            && (error.None? <==> 16 <= cap && (|m.body| > 12 ==> |m.body| <= cap))
            && Msgs(after) == Msgs(nodes) + (if error.None? then [m] else [])
  {
    var more := [NewNode(m)] + nodes;
    NewNodeIsEmpty(cap, nodes, m);
    PersistAddressable(cap, more, m);
    TryPushOk(cap, more, m);
    TryPushKeepsStarts(cap, more, m, m.timestamp);
  }

  /**
   A message is stored exactly when `CanStore` holds; then the stored messages grow by that one,
   and otherwise they are as before.
   */
  lemma PersistExact(cap: nat, nodes: seq<Node>, m: Message)
    requires LogOk(cap, nodes) && Framable(m) && Addressable(PersistMsg(cap, nodes, m).0)
    ensures var (after, error) := PersistMsg(cap, nodes, m);
            && LogOk(cap, after)
            && (error.None? <==> CanStore(cap, nodes, m))
            && Msgs(after) == Msgs(nodes) + (if error.None? then [m] else [])
  {
    PersistAddressable(cap, nodes, m);
    TryPushOk(cap, nodes, m);
    TryPushKeepsStarts(cap, nodes, m, m.timestamp);
    var (after, r) := TryPush(cap, nodes, m);
    if r == Ok(false) && !HasStart(after, m.timestamp) {
      assert PersistMsg(cap, nodes, m) == PersistMsg(cap, [NewNode(m)] + after, m);
      RollOver(cap, after, m);
    }
  }

  // ---------------------------------------------------------------- any run of messages

  /** All that decides where the next message goes: how full the newest node is, and the names used. */
  datatype Shape = Shape(open: bool, entries: nat, bytes: nat, names: set<Timestamp>)

  const EMPTY: Shape := Shape(false, 0, 0, {})

  function ShapeOf(nodes: seq<Node>): Shape {
    if nodes == [] then EMPTY
    else Shape(true, |nodes[0].bufs.offsets| / 16, |nodes[0].bufs.data|, Names(nodes))
  }

  function Names(nodes: seq<Node>): set<Timestamp> {
    set i | 0 <= i < |nodes| :: nodes[i].start
  }

  /** Bytes of a message that go to the data log. */
  function Bulk(m: Message): nat {
    if |m.body| > 12 then |m.body| else 0
  }

  predicate FitsHead(cap: nat, s: Shape, m: Message) {
    s.open && (Bulk(m) > 0 ==> s.bytes + Bulk(m) <= cap) && 16 * s.entries + 16 <= cap
  }

  predicate FitsNew(cap: nat, s: Shape, m: Message) {
    m.timestamp !in s.names && Bulk(m) <= cap && 16 <= cap
  }

  predicate Placed(cap: nat, s: Shape, m: Message) {
    FitsHead(cap, s, m) || FitsNew(cap, s, m)
  }

  function ShapeAfter(cap: nat, s: Shape, m: Message): Shape {
    if FitsHead(cap, s, m) then s.(entries := s.entries + 1, bytes := s.bytes + Bulk(m))
    else Shape(true, 1, Bulk(m), s.names + {m.timestamp})
  }

  /**
   Whether messages with these lengths and timestamps all find a place: each fits the newest node,
   or starts a node whose name is not taken.
   */
  predicate Placeable(cap: nat, s: Shape, ms: seq<Message>)
    decreases |ms|
  {
    ms == [] ||
    (Placed(cap, s, ms[0]) && Placeable(cap, ShapeAfter(cap, s, ms[0]), ms[1..]))
  }

  lemma HeadDecides(cap: nat, nodes: seq<Node>, m: Message)
    requires LogOk(cap, nodes)
    ensures FitsHead(cap, ShapeOf(nodes), m) <==> nodes != [] && InsertMsg(cap, nodes[0].bufs, m.body).1
    ensures FitsNew(cap, ShapeOf(nodes), m) <==> !HasStart(nodes, m.timestamp) && 16 <= cap && Bulk(m) <= cap
  {
    if nodes != [] {
      assert NodeOk(cap, nodes[0]);
      assert m.timestamp in Names(nodes) <==> HasStart(nodes, m.timestamp);
    }
  }

  lemma PersistFits(cap: nat, nodes: seq<Node>, m: Message)
    requires LogOk(cap, nodes) && nodes != [] && InsertMsg(cap, nodes[0].bufs, m.body).1
    ensures PersistMsg(cap, nodes, m) == (nodes[0 := Appended(cap, nodes[0], m)], None)
  {
    assert NodeOk(cap, nodes[0]);
    InsertGrows(cap, nodes[0].bufs, m.body);
  }

  lemma PersistRolls(cap: nat, nodes: seq<Node>, m: Message)
    requires LogOk(cap, nodes) && 16 <= cap && Bulk(m) <= cap && !HasStart(nodes, m.timestamp)
    requires nodes != [] ==> !InsertMsg(cap, nodes[0].bufs, m.body).1
    ensures PersistMsg(cap, nodes, m) ==
              ([Appended(cap, NewNode(m), m)] + TryPush(cap, nodes, m).0, None)
  {
    TryPushKeepsStarts(cap, nodes, m, m.timestamp);
    var (after, r) := TryPush(cap, nodes, m);
    var more := [NewNode(m)] + after;
    assert more[0] == NewNode(m) && HasStart(more, m.timestamp);
    assert more[0 := Appended(cap, NewNode(m), m)] == [Appended(cap, NewNode(m), m)] + after;
  }

  lemma NamesKept(cap: nat, nodes: seq<Node>, m: Message)
    ensures Names(TryPush(cap, nodes, m).0) == Names(nodes)
  {
    var after := TryPush(cap, nodes, m).0;
    assert |after| == |nodes| && forall i | 0 <= i < |nodes| :: after[i].start == nodes[i].start;
    forall t | t in Names(nodes) ensures t in Names(after) {
      var i :| 0 <= i < |nodes| && nodes[i].start == t;
      assert after[i].start == t;
    }
  }

  lemma NamesCons(head: Node, nodes: seq<Node>)
    ensures Names([head] + nodes) == Names(nodes) + {head.start}
  {
    var more := [head] + nodes;
    assert more[0] == head && forall i | 0 <= i < |nodes| :: more[i + 1] == nodes[i];
  }

  lemma ShapeFollows(cap: nat, nodes: seq<Node>, m: Message)
    requires LogOk(cap, nodes) && Placed(cap, ShapeOf(nodes), m)
    ensures ShapeOf(PersistMsg(cap, nodes, m).0) == ShapeAfter(cap, ShapeOf(nodes), m)
  {
    HeadDecides(cap, nodes, m);
    if FitsHead(cap, ShapeOf(nodes), m) {
      PersistFits(cap, nodes, m);
      InsertGrows(cap, nodes[0].bufs, m.body);
      NamesKept(cap, nodes, m);
      assert PersistMsg(cap, nodes, m).0 == TryPush(cap, nodes, m).0;
    } else {
      PersistRolls(cap, nodes, m);
      NamesKept(cap, nodes, m);
      NamesCons(Appended(cap, NewNode(m), m), TryPush(cap, nodes, m).0);
    }
  }

  // ---------------------------------------------------------------- how much data

  function TotalBulk(ms: seq<Message>): nat {
    if ms == [] then 0 else Bulk(ms[0]) + TotalBulk(ms[1..])
  }

  predicate DataWithin(nodes: seq<Node>, k: nat) {
    forall i | 0 <= i < |nodes| :: |nodes[i].bufs.data| <= k
  }

  lemma InsertWithin(cap: nat, b: Bufs, m: Message, k: nat)
    requires |b.data| <= k
    ensures |InsertMsg(cap, b, m.body).0.data| <= k + Bulk(m)
    ensures k >= cap ==> |InsertMsg(cap, b, m.body).0.data| <= k
  {
  }

  lemma TryPushWithin(cap: nat, nodes: seq<Node>, m: Message, k: nat)
    requires DataWithin(nodes, k)
    ensures DataWithin(TryPush(cap, nodes, m).0, k + Bulk(m))
    ensures k >= cap ==> DataWithin(TryPush(cap, nodes, m).0, k)
  {
    if nodes != [] {
      InsertWithin(cap, nodes[0].bufs, m, k);
    }
  }

  /** In no node does a message take more than its own length of data. */
  lemma PersistWithin(cap: nat, nodes: seq<Node>, m: Message, k: nat)
    requires DataWithin(nodes, k)
    ensures DataWithin(PersistMsg(cap, nodes, m).0, k + Bulk(m))
    ensures k >= cap ==> DataWithin(PersistMsg(cap, nodes, m).0, k)
  {
    TryPushWithin(cap, nodes, m, k);
    TryPushKeepsStarts(cap, nodes, m, m.timestamp);
    var (after, r) := TryPush(cap, nodes, m);
    if r == Ok(false) && !HasStart(after, m.timestamp) {
      var more := [NewNode(m)] + after;
      assert more[0] == NewNode(m) && more[1..] == after;
      TryPushKeepsStarts(cap, more, m, m.timestamp);
      InsertWithin(cap, Bufs([], []), m, 0);
      InsertWithin(cap, Bufs([], []), m, k);
      assert HasStart(more, m.timestamp);
      assert PersistMsg(cap, nodes, m) == PersistMsg(cap, more, m);
      assert PersistMsg(cap, more, m).0 == TryPush(cap, more, m).0;
      forall i | 0 <= i < |more| && i > 0 ensures TryPush(cap, more, m).0[i] == after[i - 1] {
      }
    }
  }

  /** Offsets cannot outgrow 32 bits: the logs are small enough, or the messages are few enough. */
  predicate Offsets32(cap: nat, k: nat, ms: seq<Message>) {
    (k == cap <= Bytes.U32) || k + TotalBulk(ms) <= Bytes.U32
  }

  /** The bound on data after one more message. */
  function NextBound(cap: nat, k: nat, m: Message): nat {
    if k == cap <= Bytes.U32 then k else k + Bulk(m)
  }

  /** What is needed for exact results about the messages to come. */
  predicate Ready(cap: nat, nodes: seq<Node>, ms: seq<Message>, k: nat) {
    LogOk(cap, nodes) && AllFit(ms) && DataWithin(nodes, k) && Offsets32(cap, k, ms)
  }

  lemma WithinIsAddressable(cap: nat, nodes: seq<Node>, m: Message, k: nat, ms: seq<Message>)
    requires DataWithin(nodes, k) && Offsets32(cap, k, [m] + ms)
    ensures Addressable(PersistMsg(cap, nodes, m).0)
    ensures DataWithin(PersistMsg(cap, nodes, m).0, NextBound(cap, k, m)) && Offsets32(cap, NextBound(cap, k, m), ms)
  {
    PersistWithin(cap, nodes, m, k);
    assert ([m] + ms)[1..] == ms;
  }

  /** One message: stored exactly if it finds a place. */
  lemma PersistDecided(cap: nat, nodes: seq<Node>, m: Message)
    requires LogOk(cap, nodes) && Framable(m) && Addressable(PersistMsg(cap, nodes, m).0)
    ensures var placed := Placed(cap, ShapeOf(nodes), m);
            && LogOk(cap, PersistMsg(cap, nodes, m).0)
            && Msgs(PersistMsg(cap, nodes, m).0) == Msgs(nodes) + (if placed then [m] else [])
            && (placed ==> ShapeOf(PersistMsg(cap, nodes, m).0) == ShapeAfter(cap, ShapeOf(nodes), m))
  {
    PersistExact(cap, nodes, m);
    HeadDecides(cap, nodes, m);
    if Placed(cap, ShapeOf(nodes), m) {
      ShapeFollows(cap, nodes, m);
    }
  }

  lemma ReadyStep(cap: nat, nodes: seq<Node>, ms: seq<Message>, k: nat)
    requires ms != [] && Ready(cap, nodes, ms, k)
    ensures Addressable(PersistMsg(cap, nodes, ms[0]).0)
    ensures Ready(cap, PersistMsg(cap, nodes, ms[0]).0, ms[1..], NextBound(cap, k, ms[0]))
  {
    assert [ms[0]] + ms[1..] == ms;
    WithinIsAddressable(cap, nodes, ms[0], k, ms[1..]);
    PersistExact(cap, nodes, ms[0]);
  }

  /** Nothing is stored that was not pushed. */
  lemma {:induction false} StoresAtMost(cap: nat, nodes: seq<Node>, ms: seq<Message>, k: nat)
    requires Ready(cap, nodes, ms, k)
    ensures |Msgs(StoreAll(cap, nodes, ms))| <= |Msgs(nodes)| + |ms|
    decreases |ms|
  {
    if ms != [] {
      ReadyStep(cap, nodes, ms, k);
      PersistExact(cap, nodes, ms[0]);
      StoresAtMost(cap, PersistMsg(cap, nodes, ms[0]).0, ms[1..], NextBound(cap, k, ms[0]));
    }
  }

  lemma FirstDecided(cap: nat, nodes: seq<Node>, ms: seq<Message>, k: nat) returns (after: seq<Node>)
    requires ms != [] && Ready(cap, nodes, ms, k)
    ensures StoreAll(cap, nodes, ms) == StoreAll(cap, after, ms[1..])
    ensures Ready(cap, after, ms[1..], NextBound(cap, k, ms[0]))
    ensures Msgs(after) == Msgs(nodes) + (if Placed(cap, ShapeOf(nodes), ms[0]) then [ms[0]] else [])
    ensures Placed(cap, ShapeOf(nodes), ms[0]) ==> ShapeOf(after) == ShapeAfter(cap, ShapeOf(nodes), ms[0])
  {
    after := PersistMsg(cap, nodes, ms[0]).0;
    ReadyStep(cap, nodes, ms, k);
    PersistDecided(cap, nodes, ms[0]);
  }

  lemma FirstThenRest<T>(a: seq<T>, b: seq<T>)
    requires b != []
    ensures a + [b[0]] + b[1..] == a + b
  {
  }

  /** A run of messages is stored in full, in order, if and only if all of them find a place. */
  lemma {:induction false} StoreAllExact(cap: nat, nodes: seq<Node>, ms: seq<Message>, k: nat)
    requires Ready(cap, nodes, ms, k)
    ensures Msgs(StoreAll(cap, nodes, ms)) == Msgs(nodes) + ms <==> Placeable(cap, ShapeOf(nodes), ms)
    decreases |ms|
  {
    if ms != [] {
      var after := FirstDecided(cap, nodes, ms, k);
      if Placed(cap, ShapeOf(nodes), ms[0]) {
        StoreAllExact(cap, after, ms[1..], NextBound(cap, k, ms[0]));
        FirstThenRest(Msgs(nodes), ms);
      } else {
        StoresAtMost(cap, after, ms[1..], NextBound(cap, k, ms[0]));
      }
    }
  }

  /** An empty log and messages of less than 2^32 bytes in all, or logs of at most that size. */
  lemma StoreAllFromEmpty(cap: nat, ms: seq<Message>)
    requires AllFit(ms) && (cap <= Bytes.U32 || TotalBulk(ms) <= Bytes.U32)
    ensures Msgs(StoreAll(cap, [], ms)) == ms <==> Placeable(cap, EMPTY, ms)
  {
    StoreAllExact(cap, [], ms, if cap <= Bytes.U32 then cap else 0);
    assert [] + ms == ms;
  }

  // ---------------------------------------------------------------- messages that are lost

  /** So many short messages of one time, and then a longer run of them does not fit one node. */
  lemma {:induction false} SameTimePlaceable(cap: nat, entries: nat, ts: Timestamp, n: nat)
    requires 16 <= cap && 16 * entries <= cap
    ensures Placeable(cap, Shape(true, entries, 0, {ts}), seq(n, i => Message(ts, []))) <==> 16 * (entries + n) <= cap
    decreases n
  {
    var ms := seq(n, i => Message(ts, []));
    if n > 0 {
      assert ms[1..] == seq(n - 1, i => Message(ts, []));
      if 16 * entries + 16 <= cap {
        SameTimePlaceable(cap, entries + 1, ts, n - 1);
      }
    }
  }

  /** Two nodes for one timestamp: one message more than the entries of a node, all of one time. */
  lemma BurstIsNotStored(cap: nat, ts: Timestamp)
    requires 16 <= cap
    ensures var ms := seq(cap / 16 + 1, i => Message(ts, []));
            Msgs(StoreAll(cap, [], ms)) != ms
  {
    var n := cap / 16;
    var ms := seq(n + 1, i => Message(ts, []));
    assert ms[1..] == seq(n, i => Message(ts, []));
    assert ShapeAfter(cap, EMPTY, ms[0]) == Shape(true, 1, 0, {ts});
    SameTimePlaceable(cap, 1, ts, n);
    EmptyBulk(ms);
    StoreAllFromEmpty(cap, ms);
  }

  lemma {:induction false} EmptyBulk(ms: seq<Message>)
    requires forall i | 0 <= i < |ms| :: ms[i].body == []
    ensures TotalBulk(ms) == 0
  {
    if ms != [] {
      EmptyBulk(ms[1..]);
    }
  }

  /** Equal times do no harm inside a node, and distinct ones none anywhere. */
  predicate Distinct(ms: seq<Message>) {
    forall i, j | 0 <= i < j < |ms| :: ms[i].timestamp != ms[j].timestamp
  }

  lemma {:induction false} DistinctIsPlaceable(cap: nat, s: Shape, ms: seq<Message>)
    requires Distinct(ms) && 16 <= cap
    requires forall i | 0 <= i < |ms| :: ms[i].timestamp !in s.names && |ms[i].body| <= cap
    ensures Placeable(cap, s, ms)
    decreases |ms|
  {
    if ms != [] {
      DistinctIsPlaceable(cap, ShapeAfter(cap, s, ms[0]), ms[1..]);
    }
  }

  // ---------------------------------------------------------------- from the ring to the nodes

  /** The nodes after the persist task has dealt with these read grants, in order. */
  function PersistChunks(cap: nat, nodes: seq<Node>, chunks: seq<seq<byte>>): seq<Node>
    decreases |chunks|
  {
    if chunks == [] then nodes
    else PersistChunks(cap, StoreAll(cap, nodes, ParseMsgs(chunks[0])), chunks[1..])
  }

  lemma {:induction false} StoreAllConcat(cap: nat, nodes: seq<Node>, x: seq<Message>, y: seq<Message>)
    ensures StoreAll(cap, nodes, x + y) == StoreAll(cap, StoreAll(cap, nodes, x), y)
    decreases |x|
  {
    if x == [] {
      assert x + y == y;
    } else {
      assert (x + y)[1..] == x[1..] + y;
      StoreAllConcat(cap, PersistMsg(cap, nodes, x[0]).0, x[1..], y);
    }
  }

  lemma {:induction false} PersistChunksAppend(cap: nat, nodes: seq<Node>, chunks: seq<seq<byte>>, chunk: seq<byte>)
    ensures PersistChunks(cap, nodes, chunks + [chunk]) ==
              StoreAll(cap, PersistChunks(cap, nodes, chunks), ParseMsgs(chunk))
    decreases |chunks|
  {
    if chunks == [] {
      assert chunks + [chunk] == [chunk];
      assert PersistChunks(cap, StoreAll(cap, nodes, ParseMsgs(chunk)), [chunk][1..]) ==
             StoreAll(cap, nodes, ParseMsgs(chunk));
    } else {
      assert (chunks + [chunk])[1..] == chunks[1..] + [chunk];
      PersistChunksAppend(cap, StoreAll(cap, nodes, ParseMsgs(chunks[0])), chunks[1..], chunk);
    }
  }

  /** Whole frames from one cut to the next parse to the messages between the cuts. */
  lemma FramesParse(ms: seq<Message>, i: nat, j: nat)
    requires AllFit(ms) && i <= j <= |ms|
    ensures ParseMsgs(Flatten(Frames(ms)[i..j])) == ms[i..j]
  {
    assert Frames(ms)[i..j] == Frames(ms[i..j]);
    ParseInvertsFrames(ms[i..j]);
  }

  lemma OneMoreChunk(cap: nat, chunks: seq<seq<byte>>, chunk: seq<byte>, ms: seq<Message>, more: seq<Message>)
    requires ParseMsgs(chunk) == more && PersistChunks(cap, [], chunks) == StoreAll(cap, [], ms)
    ensures PersistChunks(cap, [], chunks + [chunk]) == StoreAll(cap, [], ms + more)
  {
    PersistChunksAppend(cap, [], chunks, chunk);
    StoreAllConcat(cap, [], ms, more);
  }

  /** A chunk parses to the messages between its cuts. */
  lemma ChunkParses(sent: seq<seq<byte>>, chunk: seq<byte>, from: nat, to: nat, ms: seq<Message>)
    requires ChunkOk(sent, chunk, from, to) && sent == Frames(ms) && AllFit(ms)
    ensures from <= to <= |ms| && ParseMsgs(chunk) == ms[from..to]
    ensures ms[..from] + ms[from..to] == ms[..to]
  {
    FramesParse(ms, from, to);
  }

  /** The chunks so far stored what the messages so far store. */
  predicate SameStore(cap: nat, chunks: seq<seq<byte>>, ms: seq<Message>) {
    PersistChunks(cap, [], chunks) == StoreAll(cap, [], ms)
  }

  lemma SameStoreStep(cap: nat, got: seq<seq<byte>>, k: nat, ms: seq<Message>, from: nat, to: nat, sent: seq<seq<byte>>)
    requires k < |got| && ChunkOk(sent, got[k], from, to) && sent == Frames(ms) && AllFit(ms)
    requires from <= |ms| && SameStore(cap, got[..k], ms[..from])
    ensures to <= |ms| && SameStore(cap, got[..k + 1], ms[..to])
  {
    ChunkParses(sent, got[k], from, to, ms);
    assert got[..k + 1] == got[..k] + [got[k]];
    OneMoreChunk(cap, got[..k], got[k], ms[..from], ms[from..to]);
  }

  /** However the reads cut the stream, persisting chunk by chunk is persisting message by message. */
  lemma {:induction false} ChunksAreMessages(
    cap: nat, sent: seq<seq<byte>>, got: seq<seq<byte>>, ends: seq<nat>, ms: seq<Message>, k: nat)
    requires sent == Frames(ms) && AllFit(ms) && WholeFrames(sent, got, ends) && k <= |got|
    ensures Cut(ends, k) <= |ms| && SameStore(cap, got[..k], ms[..Cut(ends, k)])
  {
    if k > 0 {
      ChunksAreMessages(cap, sent, got, ends, ms, k - 1);
      assert ChunkOk(sent, got[k - 1], Cut(ends, k - 1), Cut(ends, k));
      SameStoreStep(cap, got, k - 1, ms, Cut(ends, k - 1), Cut(ends, k), sent);
    }
  }
}

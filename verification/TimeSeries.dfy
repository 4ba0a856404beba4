/**
 Persistence of samples: append-only logs of bounded size, time-series nodes made of an index
 log and a data log, and the writer that rolls over to a new node. What is stored is compared
 with the plain sequence of samples pushed.
 */
module TimeSeries {
  import opened Bytes

  /** One log of a node: 32 MiB plus the byte written at its end, less the header. */
  const NODE_CAPACITY: nat := 1024 * 1024 * 32 + 1 - 24

  datatype Sample = Sample(timestamp: Timestamp, row: seq<byte>)

  /** A node's directory is named after the timestamp it is created for. */
  datatype Node = Node(start: Timestamp, elementSize: nat, index: seq<byte>, data: seq<byte>)

  datatype Error = MapOverflow | AlreadyExists

  // ---------------------------------------------------------------- the append log

  /** The mapped file: a header, the committed bytes, and room. */
  class AppendLog {
    const mmap: array<byte>
    const headerSize: nat
    var committedLen: nat    // includes the header

    ghost predicate Valid()
      reads this
    {
      headerSize <= committedLen <= mmap.Length
    }

    ghost function Contents(): seq<byte>
      requires Valid()
      reads this, mmap
    {
      mmap[headerSize..committedLen]
    }

    constructor (size: nat, headerSize: nat)
      requires headerSize <= size + 1
      ensures Valid() && fresh(mmap) && Contents() == [] && mmap.Length == size + 1 && this.headerSize == headerSize
    {
      mmap := new byte[size + 1];
      this.headerSize := headerSize;
      committedLen := headerSize;
    }

    method Capacity() returns (n: nat)
      requires Valid()
      ensures n == mmap.Length - headerSize
    {
      n := mmap.Length - headerSize;
    }

    method Len() returns (n: nat)
      requires Valid()
      ensures n == |Contents()|
    {
      n := committedLen - headerSize;
    }

    /** Appends all of `buf` or nothing; returns where it landed. */
    method Write(buf: seq<byte>) returns (r: Result<nat, Error>)
      requires Valid()
      modifies this`committedLen, mmap
      ensures Valid()
      ensures r.Ok? <==> old(|Contents()|) + |buf| <= mmap.Length - headerSize
      ensures r.Ok? ==> r.value == old(|Contents()|) && Contents() == old(Contents()) + buf
      ensures r.Err? ==> r.error == MapOverflow && Contents() == old(Contents())
    {
      var end := committedLen;
      var headEnd := end + |buf|;
      if headEnd > mmap.Length {
        return Err(MapOverflow);
      }
      var i := 0;
      while i < |buf|
        invariant 0 <= i <= |buf|
        invariant mmap[end..end + i] == buf[..i]
        invariant mmap[headerSize..end] == old(mmap[headerSize..end])
      {
        mmap[end + i] := buf[i];
        i := i + 1;
      }
      committedLen := headEnd;
      assert mmap[headerSize..headEnd] == mmap[headerSize..end] + mmap[end..headEnd];
      return Ok(end - headerSize);
    }
  }

  // ---------------------------------------------------------------- what a node stores

  /** The samples visible through the index: one row of data per timestamp. */
  function Rows(index: seq<byte>, data: seq<byte>, size: nat): seq<Sample> {
    if |index| < 8 || |data| < size then []
    else [Sample(TimestampFromLe(index[..8]), data[..size])] + Rows(index[8..], data[size..], size)
  }

  function NodeSamples(node: Node): seq<Sample> {
    Rows(node.index, node.data, node.elementSize)
  }

  /** All samples of a list of nodes, the list being newest first and the result oldest first. */
  function Samples(nodes: seq<Node>): seq<Sample> {
    if nodes == [] then [] else Samples(nodes[1..]) + NodeSamples(nodes[0])
  }

  lemma MulSucc(k: nat, size: nat)
    requires k > 0
    ensures k * size == (k - 1) * size + size
  {
  }

  lemma {:induction false} RowsAppend(index: seq<byte>, data: seq<byte>, size: nat, k: nat, ts: Timestamp, row: seq<byte>)
    requires size > 0 && |row| == size && |index| == 8 * k && |data| == k * size
    ensures Rows(index + TimestampToLe(ts), data + row, size) == Rows(index, data, size) + [Sample(ts, row)]
    ensures |Rows(index, data, size)| == k
  {
    if k == 0 {
      TimestampRoundTrip(ts);
      assert index + TimestampToLe(ts) == TimestampToLe(ts) && data + row == row;
      assert TimestampToLe(ts)[..8] == TimestampToLe(ts) && row[..size] == row;
      assert Rows(TimestampToLe(ts)[8..], row[size..], size) == [];
    } else {
      MulSucc(k, size);
      assert (index + TimestampToLe(ts))[..8] == index[..8] && (data + row)[..size] == data[..size];
      assert (index + TimestampToLe(ts))[8..] == index[8..] + TimestampToLe(ts);
      assert (data + row)[size..] == data[size..] + row;
      RowsAppend(index[8..], data[size..], size, k - 1, ts, row);
    }
  }

  /** Data written ahead of the index is not visible. */
  lemma {:induction false} RowsIgnoreExtraData(index: seq<byte>, data: seq<byte>, extra: seq<byte>, size: nat, k: nat)
    requires size > 0 && |index| == 8 * k && |data| >= k * size
    ensures Rows(index, data + extra, size) == Rows(index, data, size)
    ensures |Rows(index, data, size)| == k
  {
    if k > 0 {
      MulSucc(k, size);
      assert (k - 1) * size >= 0;
      assert (data + extra)[..size] == data[..size];
      assert (data + extra)[size..] == data[size..] + extra;
      RowsIgnoreExtraData(index[8..], data[size..], extra, size, k - 1);
    }
  }

  /** Reading sample `i` by position, as the accessors do, gives row `i`. */
  lemma {:induction false} RowAt(index: seq<byte>, data: seq<byte>, size: nat, k: nat, i: nat)
    requires size > 0 && |index| == 8 * k && |data| >= k * size && i < k
    ensures |Rows(index, data, size)| == k
    ensures 0 <= i * size && i * size + size <= |data|
    ensures Rows(index, data, size)[i] ==
              Sample(TimestampFromLe(index[8 * i..8 * i + 8]), data[i * size..i * size + size])
  {
    MulSucc(k, size);
    RowsIgnoreExtraData(index, data, [], size, k);
    if i == 0 {
      assert (k - 1) * size >= 0;
    } else {
      MulSucc(i, size);
      assert (k - 1) * size >= 0;
      RowAt(index[8..], data[size..], size, k - 1, i - 1);
      var j := (i - 1) * size;
      assert index[8..][8 * (i - 1)..8 * (i - 1) + 8] == index[8 * i..8 * i + 8];
      assert data[size..][j..j + size] == data[j + size..j + size + size];
    }
  }

  // ---------------------------------------------------------------- the writer

  predicate HasStart(nodes: seq<Node>, ts: Timestamp) {
    exists i | 0 <= i < |nodes| :: nodes[i].start == ts
  }

  /** Writes the data, then the index; `Ok(false)` asks for a new node. */
  function TryPush(cap: nat, nodes: seq<Node>, ts: Timestamp, buf: seq<byte>): (seq<Node>, Result<bool, Error>) {
    if nodes == [] then (nodes, Ok(false))
    else
      var head := nodes[0];
      if |head.data| + |buf| > cap then (nodes, Ok(false))
      else
        var head1 := head.(data := head.data + buf);
        if |head.index| + 8 > cap then (nodes[0 := head1], Err(MapOverflow))
        else (nodes[0 := head1.(index := head1.index + TimestampToLe(ts))], Ok(true))
  }

  /** Retries on a new node until the sample is in; a directory name can be created only once. */
  function PushBuf(cap: nat, nodes: seq<Node>, ts: Timestamp, buf: seq<byte>): (seq<Node>, Option<Error>)
    decreases if HasStart(nodes, ts) then 0 else 1
  {
    match TryPush(cap, nodes, ts, buf)
    case (after, Err(e)) => (after, Some(e))
    case (after, Ok(true)) => (after, None)
    case (_, Ok(false)) =>
      if HasStart(nodes, ts) then (nodes, Some(AlreadyExists))
      else
        assert ([Node(ts, |buf|, [], [])] + nodes)[0].start == ts;
        PushBuf(cap, [Node(ts, |buf|, [], [])] + nodes, ts, buf)
  }

  class Writer {
    var nodes: seq<Node>
    const cap: nat

    constructor (cap: nat)
      ensures nodes == [] && this.cap == cap
    {
      this.cap := cap;
      nodes := [];
    }

    method TryPushBuf(ts: Timestamp, buf: seq<byte>) returns (r: Result<bool, Error>)
      modifies this
      ensures (nodes, r) == TryPush(cap, old(nodes), ts, buf)
    {
      if nodes == [] {
        return Ok(false);
      }
      var head := nodes[0];
      if |head.data| + |buf| > cap {
        return Ok(false);
      }
      nodes := nodes[0 := head.(data := head.data + buf)];
      if |head.index| + 8 > cap {
        return Err(MapOverflow);
      }
      nodes := nodes[0 := nodes[0].(index := head.index + TimestampToLe(ts))];
      assert nodes == old(nodes)[0 := nodes[0]];
      return Ok(true);
    }

    /** The retry loop creates at most one node. */
    method Push(ts: Timestamp, buf: seq<byte>) returns (error: Option<Error>)
      modifies this
      ensures (nodes, error) == PushBuf(cap, old(nodes), ts, buf)
      ensures |nodes| <= |old(nodes)| + 1
    {
      while true
        invariant PushBuf(cap, nodes, ts, buf) == PushBuf(cap, old(nodes), ts, buf)
        invariant nodes == old(nodes) || (HasStart(nodes, ts) && |nodes| == |old(nodes)| + 1)
        decreases if HasStart(nodes, ts) then 0 else 1
      {
        var r := TryPushBuf(ts, buf);
        if r.Err? {
          return Some(r.error);
        }
        if r.value {
          return None;
        }
        if HasStart(nodes, ts) {
          return Some(AlreadyExists);
        }
        nodes := [Node(ts, |buf|, [], [])] + nodes;
        assert nodes[0].start == ts;
      }
    }
  }

  // ---------------------------------------------------------------- the invariant of the stored nodes

  /** Rows in step with the index; data may run ahead only once the index is full. */
  predicate NodeOk(cap: nat, size: nat, node: Node) {
    && node.elementSize == size
    && |node.index| % 8 == 0
    && |node.index| <= cap && |node.data| <= cap
    && |node.data| >= (|node.index| / 8) * size
    && (|node.index| + 8 <= cap ==> |node.data| == (|node.index| / 8) * size)
  }

  predicate SeriesOk(cap: nat, size: nat, nodes: seq<Node>) {
    forall i | 0 <= i < |nodes| :: NodeOk(cap, size, nodes[i])
  }

  /** Exactly when a push stores its sample. */
  predicate CanStore(cap: nat, nodes: seq<Node>, ts: Timestamp, size: nat) {
    if nodes != [] && |nodes[0].data| + size <= cap then |nodes[0].index| + 8 <= cap
    else !HasStart(nodes, ts) && size <= cap && 8 <= cap
  }

  lemma NodeAppend(cap: nat, size: nat, head: Node, ts: Timestamp, buf: seq<byte>)
    requires NodeOk(cap, size, head) && size > 0 && |buf| == size
    requires |head.data| + size <= cap && |head.index| + 8 <= cap
    ensures var after := head.(data := head.data + buf, index := head.index + TimestampToLe(ts));
            NodeOk(cap, size, after) && NodeSamples(after) == NodeSamples(head) + [Sample(ts, buf)]
  {
    var k := |head.index| / 8;
    RowsAppend(head.index, head.data, size, k, ts, buf);
    MulSucc(k + 1, size);
    assert (|head.index| + 8) / 8 == k + 1;
  }

  lemma NodeOrphan(cap: nat, size: nat, head: Node, buf: seq<byte>)
    requires NodeOk(cap, size, head) && size > 0 && |buf| == size
    requires |head.data| + size <= cap && |head.index| + 8 > cap
    ensures var after := head.(data := head.data + buf);
            NodeOk(cap, size, after) && NodeSamples(after) == NodeSamples(head)
  {
    RowsIgnoreExtraData(head.index, head.data, buf, size, |head.index| / 8);
  }

  lemma TryPushOk(cap: nat, size: nat, nodes: seq<Node>, ts: Timestamp, buf: seq<byte>)
    requires SeriesOk(cap, size, nodes) && size > 0 && |buf| == size
    ensures var (after, r) := TryPush(cap, nodes, ts, buf);
            && SeriesOk(cap, size, after) && |after| == |nodes|
            && (nodes != [] ==> after[1..] == nodes[1..])
            && Samples(after) == Samples(nodes) + (if r == Ok(true) then [Sample(ts, buf)] else [])
  {
    if nodes != [] && |nodes[0].data| + size <= cap {
      var head := nodes[0];
      if |head.index| + 8 > cap {
        NodeOrphan(cap, size, head, buf);
        HeadReplaced(nodes, head.(data := head.data + buf), []);
      } else {
        NodeAppend(cap, size, head, ts, buf);
        HeadReplaced(nodes, head.(data := head.data + buf, index := head.index + TimestampToLe(ts)), [Sample(ts, buf)]);
      }
    }
  }

  lemma HeadReplaced(nodes: seq<Node>, head: Node, more: seq<Sample>)
    requires nodes != [] && NodeSamples(head) == NodeSamples(nodes[0]) + more
    ensures Samples(nodes[0 := head]) == Samples(nodes) + more && nodes[0 := head][1..] == nodes[1..]
  {
    assert nodes[0 := head][1..] == nodes[1..];
    assert Samples(nodes[1..]) + (NodeSamples(nodes[0]) + more) == Samples(nodes[1..]) + NodeSamples(nodes[0]) + more;
  }

  /** The second round of the retry loop, on the node just created. */
  lemma RollOver(cap: nat, size: nat, nodes: seq<Node>, ts: Timestamp, buf: seq<byte>)
    requires SeriesOk(cap, size, nodes) && size > 0 && |buf| == size
    requires TryPush(cap, nodes, ts, buf).1 == Ok(false) && !HasStart(nodes, ts)
    ensures var (after, error) := PushBuf(cap, nodes, ts, buf);
            && SeriesOk(cap, size, after)
            && (error.None? <==> size <= cap && 8 <= cap)
            && Samples(after) == Samples(nodes) + (if error.None? then [Sample(ts, buf)] else [])
            && |after| == |nodes| + 1 && after[1..] == nodes
  {
    var empty := Node(ts, |buf|, [], []);
    var more := [empty] + nodes;
    assert more[0].start == ts && more[1..] == nodes;
    assert HasStart(more, ts);
    assert NodeOk(cap, size, empty);
    assert Samples(more) == Samples(nodes) + NodeSamples(empty);
    TryPushOk(cap, size, more, ts, buf);
    assert PushBuf(cap, nodes, ts, buf) == PushBuf(cap, more, ts, buf);
  }

  /**
   A push succeeds exactly when `CanStore` holds; then the stored samples grow by the one pushed,
   and otherwise they are as before. Earlier nodes never change and at most one is added.
   */
  lemma PushBufExact(cap: nat, size: nat, nodes: seq<Node>, ts: Timestamp, buf: seq<byte>)
    requires SeriesOk(cap, size, nodes) && size > 0 && |buf| == size
    ensures var (after, error) := PushBuf(cap, nodes, ts, buf);
            && SeriesOk(cap, size, after)
            && (error.None? <==> CanStore(cap, nodes, ts, size))
            && Samples(after) == Samples(nodes) + (if error.None? then [Sample(ts, buf)] else [])
            && (|after| == |nodes| + 1 ==> after[1..] == nodes)
            && (|after| != |nodes| + 1 ==> |after| == |nodes| && (nodes != [] ==> after[1..] == nodes[1..]))
  {
    if TryPush(cap, nodes, ts, buf).1 == Ok(false) && !HasStart(nodes, ts) {
      RollOver(cap, size, nodes, ts, buf);
    } else {
      TryPushOk(cap, size, nodes, ts, buf);
    }
  }

  /** With rows at least as wide as a timestamp the index never fills before the data. */
  lemma IndexNeverFirst(cap: nat, size: nat, node: Node)
    requires NodeOk(cap, size, node) && 8 <= size
    requires |node.data| + size <= cap
    ensures |node.index| + 8 <= cap
  {
    var k := |node.index| / 8;
    assert k * size >= k * 8;
  }

  /** So that for such rows a push fails only when a roll-over meets a name already used. */
  lemma WideRowsAlwaysStore(cap: nat, size: nat, nodes: seq<Node>, ts: Timestamp)
    requires SeriesOk(cap, size, nodes) && 8 <= size <= cap
    ensures CanStore(cap, nodes, ts, size) <==>
              (nodes != [] && |nodes[0].data| + size <= cap) || !HasStart(nodes, ts)
  {
    if nodes != [] && |nodes[0].data| + size <= cap {
      IndexNeverFirst(cap, size, nodes[0]);
    }
  }

  /** Narrow rows do lose samples: the index of a node of one-byte rows fills first. */
  lemma NarrowRowsOverflow(node: Node, ts: Timestamp, buf: seq<byte>)
    requires NodeOk(NODE_CAPACITY, 1, node) && |buf| == 1
    requires |node.index| == NODE_CAPACITY - NODE_CAPACITY % 8 && |node.data| < NODE_CAPACITY
    ensures PushBuf(NODE_CAPACITY, [node], ts, buf).1 == Some(MapOverflow)
  {
  }
}

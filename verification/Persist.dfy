/**
 The persist task of a component: it cuts each read grant into fixed-size records and pushes
 them into the time series.
 */
module Persist {
  import opened Arithmetic
  import opened Bytes
  import opened TimeSeries

  /** The record that `push_buf` writes into the ring. */
  function Encode(x: Sample): seq<byte> {
    TimestampToLe(x.timestamp) + x.row
  }

  function EncodeAll(xs: seq<Sample>): (frames: seq<seq<byte>>)
    ensures |frames| == |xs| && forall i | 0 <= i < |xs| :: frames[i] == Encode(xs[i])
  {
    seq(|xs|, i requires 0 <= i < |xs| => Encode(xs[i]))
  }

  /** The parse loop of the persist task on one read grant. */
  function Parse(buf: seq<byte>, size: nat): seq<Sample> {
    if |buf| < 8 + size then []
    else [Sample(TimestampFromLe(buf[..8]), buf[8..8 + size])] + Parse(buf[8 + size..], size)
  }

  predicate RowsOfSize(xs: seq<Sample>, size: nat) {
    forall i | 0 <= i < |xs| :: |xs[i].row| == size
  }

  /** Parsing whole records gives back exactly the samples encoded, and drops nothing. */
  lemma {:induction false} ParseInvertsEncode(xs: seq<Sample>, size: nat)
    requires RowsOfSize(xs, size)
    ensures Parse(Flatten(EncodeAll(xs)), size) == xs
  {
    if xs != [] {
      var frames := EncodeAll(xs);
      var buf := Flatten(frames);
      assert frames[1..] == EncodeAll(xs[1..]);
      assert buf == Encode(xs[0]) + Flatten(EncodeAll(xs[1..]));
      TimestampRoundTrip(xs[0].timestamp);
      assert buf[..8] == TimestampToLe(xs[0].timestamp);
      assert buf[8..8 + size] == xs[0].row;
      assert buf[8 + size..] == Flatten(EncodeAll(xs[1..]));
      ParseInvertsEncode(xs[1..], size);
    }
  }

  /** Pushes one sample after another; a failed push is logged and skipped. */
  function StoreAll(cap: nat, nodes: seq<Node>, xs: seq<Sample>): seq<Node>
    decreases |xs|
  {
    if xs == [] then nodes
    else StoreAll(cap, PushBuf(cap, nodes, xs[0].timestamp, xs[0].row).0, xs[1..])
  }

  lemma {:induction false} StoreAllConcat(cap: nat, nodes: seq<Node>, xs: seq<Sample>, ys: seq<Sample>)
    ensures StoreAll(cap, nodes, xs + ys) == StoreAll(cap, StoreAll(cap, nodes, xs), ys)
    decreases |xs|
  {
    if xs == [] {
      assert xs + ys == ys;
    } else {
      assert (xs + ys)[1..] == xs[1..] + ys;
      StoreAllConcat(cap, PushBuf(cap, nodes, xs[0].timestamp, xs[0].row).0, xs[1..], ys);
    }
  }

  /** The persist loop over a shrinking slice. */
  method PersistChunk(writer: Writer, chunk: seq<byte>, size: nat)
    modifies writer
    ensures writer.nodes == StoreAll(writer.cap, old(writer.nodes), Parse(chunk, size))
  {
    var msgSize := size + 8;
    var buf := chunk;
    while |buf| >= msgSize
      invariant StoreAll(writer.cap, writer.nodes, Parse(buf, size))
                == StoreAll(writer.cap, old(writer.nodes), Parse(chunk, size))
      decreases |buf|
    {
      var timestamp := TimestampFromLe(buf[..8]);
      var data := buf[8..msgSize];
      var error := writer.Push(timestamp, data);
      buf := buf[msgSize..];
    }
  }

  // ---------------------------------------------------------------- when every sample is stored

  predicate Sorted(xs: seq<Sample>) {
    forall i, j | 0 <= i < j < |xs| :: xs[i].timestamp <= xs[j].timestamp
  }

  /** Rows that fit into the data log of one node. */
  function RowsPerNode(cap: nat, size: nat): nat
    requires size > 0
  {
    cap / size
  }

  /** Cut into runs of `rows` samples, each run starts later than the one before. */
  predicate StartsRise(xs: seq<Sample>, rows: nat)
    requires rows > 0
  {
    forall i | 0 <= i < |xs| - rows && i % rows == 0 :: xs[i].timestamp < xs[i + rows].timestamp
  }

  lemma QuotientAbove(q: nat, r: nat, size: nat, rem: nat)
    requires rem < size && r >= q
    ensures r * size + size > q * size + rem
  {
    assert (r - q) * size >= 0;
    assert r * size == (r - q) * size + q * size;
  }

  lemma QuotientBelow(q: nat, r: nat, size: nat, rem: nat)
    requires r < q
    ensures r * size + size <= q * size + rem
  {
    assert (q - r - 1) * size >= 0;
    assert q * size == (q - r - 1) * size + r * size + size;
  }

  /** One more row fits exactly while there are fewer than fit. */
  lemma Quotient(cap: nat, size: nat, r: nat)
    requires size > 0
    ensures r * size + size <= cap <==> r < cap / size
  {
    var q, rem := cap / size, cap % size;
    assert cap == q * size + rem;
    if r < q {
      QuotientBelow(q, r, size, rem);
    } else {
      QuotientAbove(q, r, size, rem);
    }
  }

  /**
   When an empty series can take all of `xs`: either no node's index fills before its data, or
   there are too few samples to fill one; and every roll-over finds a fresh name.
   */
  predicate StoresAll(cap: nat, size: nat, xs: seq<Sample>)
    requires 0 < size <= cap
  {
    Quotient(cap, size, 0);
    && (RowsPerNode(cap, size) <= cap / 8 || |xs| <= cap / 8)
    && StartsRise(xs, RowsPerNode(cap, size))
  }

  /** Rows so far in the newest node. */
  function HeadRows(nodes: seq<Node>): nat
    requires nodes != []
  {
    |nodes[0].index| / 8
  }

  predicate StartsAtMost(nodes: seq<Node>, ts: Timestamp) {
    forall i | 0 <= i < |nodes| :: nodes[i].start <= ts
  }

  /** The newest node holds the last `r` of `n` samples, and all before it are full. */
  predicate HeadOk(cap: nat, size: nat, nodes: seq<Node>, xs: seq<Sample>)
    requires 0 < size <= cap
  {
    nodes != [] ==>
      var r, rows := HeadRows(nodes), RowsPerNode(cap, size);
      && 1 <= r <= rows && r <= |xs| && (|xs| - r) % rows == 0
      && 8 * r <= cap
      && |nodes[0].data| == r * size
      && nodes[0].start == xs[|xs| - r].timestamp
      && StartsAtMost(nodes, nodes[0].start)
  }

  /** A series that has taken all of `xs`. */
  predicate Packed(cap: nat, size: nat, nodes: seq<Node>, xs: seq<Sample>)
    requires 0 < size <= cap
  {
    && SeriesOk(cap, size, nodes) && Samples(nodes) == xs && (nodes == [] <==> xs == [])
    && HeadOk(cap, size, nodes, xs)
  }

  /** Whether the next sample goes in: into the head, or into a node of its own. */
  predicate Takes(cap: nat, size: nat, nodes: seq<Node>, x: Sample)
    requires 0 < size <= cap
  {
    if nodes != [] && HeadRows(nodes) < RowsPerNode(cap, size) then HeadRows(nodes) < cap / 8
    else 8 <= cap && (nodes != [] ==> nodes[0].start < x.timestamp)
  }

  lemma TakesIsCanStore(cap: nat, size: nat, nodes: seq<Node>, xs: seq<Sample>, x: Sample)
    requires 0 < size <= cap && Packed(cap, size, nodes, xs) && Sorted(xs + [x])
    ensures Takes(cap, size, nodes, x) <==> CanStore(cap, nodes, x.timestamp, size)
  {
    if nodes != [] {
      var r := HeadRows(nodes);
      assert NodeOk(cap, size, nodes[0]);
      Quotient(cap, size, r);
      assert (xs + [x])[|xs| - r].timestamp <= (xs + [x])[|xs|].timestamp;
      if r >= RowsPerNode(cap, size) {
        assert HasStart(nodes, x.timestamp) <==> nodes[0].start == x.timestamp;
      }
    }
  }

  lemma HeadGrows(cap: nat, size: nat, nodes: seq<Node>, after: seq<Node>, xs: seq<Sample>, x: Sample)
    requires 0 < size <= cap && HeadOk(cap, size, nodes, xs) && nodes != []
    requires HeadRows(nodes) < RowsPerNode(cap, size) && HeadRows(nodes) < cap / 8
    requires |nodes[0].index| % 8 == 0 && |after| == |nodes| && after[1..] == nodes[1..]
    requires after[0].start == nodes[0].start
    requires |after[0].index| == |nodes[0].index| + 8 && |after[0].data| == |nodes[0].data| + size
    ensures HeadOk(cap, size, after, xs + [x])
  {
    var r := HeadRows(nodes);
    assert HeadRows(after) == r + 1;
    MulSucc(r + 1, size);
    assert (xs + [x])[|xs + [x]| - (r + 1)] == xs[|xs| - r];
    forall i | 0 <= i < |after| ensures after[i].start <= after[0].start {
      if i > 0 {
        assert after[i] == after[1..][i - 1] == nodes[i];
      }
    }
  }

  lemma WholeRuns(n: nat, r: nat, rows: nat)
    requires 0 < rows && r <= rows && r <= n && (n - r) % rows == 0
    ensures r < rows ==> n % rows == r
    ensures r == rows ==> n % rows == 0
  {
    var q := (n - r) / rows;
    assert n - r == q * rows;
    if r < rows {
      ModOf(n, q, rows, r);
    } else {
      assert n == (q + 1) * rows;
      ModOf(n, q + 1, rows, 0);
    }
  }

  lemma HeadStarts(cap: nat, size: nat, nodes: seq<Node>, head: Node, xs: seq<Sample>, x: Sample)
    requires 0 < size <= cap && 8 <= cap && HeadOk(cap, size, nodes, xs) && (nodes == [] ==> xs == [])
    requires nodes != [] ==> HeadRows(nodes) == RowsPerNode(cap, size) && nodes[0].start < x.timestamp
    requires head.start == x.timestamp && |head.index| == 8 && |head.data| == size
    ensures HeadOk(cap, size, [head] + nodes, xs + [x])
  {
    var rows := RowsPerNode(cap, size);
    Quotient(cap, size, 0);
    assert HeadRows([head] + nodes) == 1;
    if nodes != [] {
      WholeRuns(|xs|, rows, rows);
    } else {
      ModOf(0, 0, rows, 0);
    }
    assert (xs + [x])[|xs + [x]| - 1] == x;
    assert 1 * size == size;
  }

  /** One sample more: taken or refused exactly as `Takes` says, and packed again if taken. */
  lemma PackedStep(cap: nat, size: nat, nodes: seq<Node>, xs: seq<Sample>, x: Sample)
    requires 0 < size <= cap && Packed(cap, size, nodes, xs) && Sorted(xs + [x]) && |x.row| == size
    ensures var (after, error) := PushBuf(cap, nodes, x.timestamp, x.row);
            && (error.None? <==> Takes(cap, size, nodes, x))
            && (error.None? ==> Packed(cap, size, after, xs + [x]))
            && (error.Some? ==> Samples(after) == xs && SeriesOk(cap, size, after))
  {
    PushBufExact(cap, size, nodes, x.timestamp, x.row);
    TakesIsCanStore(cap, size, nodes, xs, x);
    assert Sample(x.timestamp, x.row) == x;
    if Takes(cap, size, nodes, x) {
      if nodes != [] && HeadRows(nodes) < RowsPerNode(cap, size) {
        Quotient(cap, size, HeadRows(nodes));
        assert NodeOk(cap, size, nodes[0]);
        HeadGrows(cap, size, nodes, PushBuf(cap, nodes, x.timestamp, x.row).0, xs, x);
      } else {
        if nodes != [] {
          Quotient(cap, size, HeadRows(nodes));
        }
        PushBufRolls(cap, nodes, x.timestamp, x.row);
        HeadStarts(cap, size, nodes, PushBuf(cap, nodes, x.timestamp, x.row).0[0], xs, x);
      }
    }
  }

  lemma PushBufRolls(cap: nat, nodes: seq<Node>, ts: Timestamp, row: seq<byte>)
    requires nodes != [] ==> |nodes[0].data| + |row| > cap
    requires !HasStart(nodes, ts) && |row| <= cap && 8 <= cap
    ensures PushBuf(cap, nodes, ts, row) == ([Node(ts, |row|, TimestampToLe(ts), row)] + nodes, None)
  {
    var empty := Node(ts, |row|, [], []);
    var more := [empty] + nodes;
    assert more[0] == empty && HasStart(more, ts);
    assert [] + row == row && [] + TimestampToLe(ts) == TimestampToLe(ts);
    assert more[0 := Node(ts, |row|, TimestampToLe(ts), row)] == [Node(ts, |row|, TimestampToLe(ts), row)] + nodes;
  }

  lemma RiseInsideRun(xs: seq<Sample>, x: Sample, rows: nat)
    requires rows > 0 && StartsRise(xs, rows) && (|xs| < rows || |xs| % rows != 0)
    ensures StartsRise(xs + [x], rows)
  {
    var n, ys := |xs|, xs + [x];
    if n >= rows {
      ModAdd(n - rows, rows);
    }
    forall i | 0 <= i < |ys| - rows && i % rows == 0 ensures ys[i].timestamp < ys[i + rows].timestamp {
      assert i + rows < n;
      assert xs[i].timestamp < xs[i + rows].timestamp;
    }
  }

  lemma RiseAtRun(xs: seq<Sample>, x: Sample, rows: nat)
    requires rows > 0 && StartsRise(xs, rows) && |xs| >= rows && |xs| % rows == 0
    ensures StartsRise(xs + [x], rows) <==> xs[|xs| - rows].timestamp < x.timestamp
  {
    var n, ys := |xs|, xs + [x];
    ModAdd(n - rows, rows);
    assert ys[n - rows] == xs[n - rows] && ys[n - rows + rows] == x;
    forall i | 0 <= i < |ys| - rows && i % rows == 0 && i != n - rows
      ensures ys[i].timestamp < ys[i + rows].timestamp
    {
      assert xs[i].timestamp < xs[i + rows].timestamp;
    }
  }

  /** What `Takes` decides is whether the samples up to here can all be stored. */
  lemma TakesIsStoresAll(cap: nat, size: nat, nodes: seq<Node>, xs: seq<Sample>, x: Sample)
    requires 0 < size <= cap && Packed(cap, size, nodes, xs) && StoresAll(cap, size, xs)
    ensures Takes(cap, size, nodes, x) <==> StoresAll(cap, size, xs + [x])
  {
    var rows, n := RowsPerNode(cap, size), |xs|;
    Quotient(cap, size, 0);
    if nodes == [] {
      RiseInsideRun(xs, x, rows);
    } else {
      WholeRuns(n, HeadRows(nodes), rows);
      if HeadRows(nodes) < rows {
        RiseInsideRun(xs, x, rows);
        if n < rows {
          ModOf(n, 0, rows, n);
        }
      } else {
        RiseAtRun(xs, x, rows);
      }
    }
  }

  lemma StoresAllPrefix(cap: nat, size: nat, xs: seq<Sample>, x: Sample, ys: seq<Sample>)
    requires 0 < size <= cap && StoresAll(cap, size, xs + [x] + ys)
    ensures StoresAll(cap, size, xs + [x])
  {
    var all := xs + [x] + ys;
    assert forall i | 0 <= i < |xs| + 1 :: (xs + [x])[i] == all[i];
  }

  /** Nothing is stored that was not pushed. */
  lemma {:induction false} StoresAtMost(cap: nat, size: nat, nodes: seq<Node>, xs: seq<Sample>)
    requires SeriesOk(cap, size, nodes) && size > 0 && RowsOfSize(xs, size)
    ensures SeriesOk(cap, size, StoreAll(cap, nodes, xs))
    ensures |Samples(StoreAll(cap, nodes, xs))| <= |Samples(nodes)| + |xs|
    decreases |xs|
  {
    if xs != [] {
      PushBufExact(cap, size, nodes, xs[0].timestamp, xs[0].row);
      StoresAtMost(cap, size, PushBuf(cap, nodes, xs[0].timestamp, xs[0].row).0, xs[1..]);
    }
  }

  lemma {:induction false} StoreAllFrom(cap: nat, size: nat, nodes: seq<Node>, xs: seq<Sample>, ys: seq<Sample>)
    requires 0 < size <= cap && Packed(cap, size, nodes, xs) && StoresAll(cap, size, xs)
    requires Sorted(xs + ys) && RowsOfSize(ys, size)
    ensures Samples(StoreAll(cap, nodes, ys)) == xs + ys <==> StoresAll(cap, size, xs + ys)
    decreases |ys|
  {
    if ys == [] {
      assert xs + ys == xs;
    } else {
      var x, rest := ys[0], ys[1..];
      var after := PushBuf(cap, nodes, x.timestamp, x.row).0;
      assert xs + ys == xs + [x] + rest;
      assert forall i | 0 <= i < |xs| + 1 :: (xs + [x])[i] == (xs + ys)[i];
      PackedStep(cap, size, nodes, xs, x);
      TakesIsStoresAll(cap, size, nodes, xs, x);
      if Takes(cap, size, nodes, x) {
        StoreAllFrom(cap, size, after, xs + [x], rest);
      } else {
        StoresAtMost(cap, size, after, rest);
        if StoresAll(cap, size, xs + ys) {
          StoresAllPrefix(cap, size, xs, x, rest);
        }
      }
    }
  }

  /** An empty series stores all of a sequence of samples, in order, if and only if `StoresAll` holds. */
  lemma StoreAllExact(cap: nat, size: nat, xs: seq<Sample>)
    requires 0 < size <= cap && Sorted(xs) && RowsOfSize(xs, size)
    ensures Samples(StoreAll(cap, [], xs)) == xs <==> StoresAll(cap, size, xs)
  {
    assert [] + xs == xs;
    Quotient(cap, size, 0);
    StoreAllFrom(cap, size, [], [], xs);
  }

  /** Whatever is dropped, what is stored stays in order. */
  lemma {:induction false} StoredInOrder(cap: nat, size: nat, nodes: seq<Node>, xs: seq<Sample>)
    requires SeriesOk(cap, size, nodes) && size > 0 && RowsOfSize(xs, size) && Sorted(Samples(nodes) + xs)
    ensures Sorted(Samples(StoreAll(cap, nodes, xs)))
    decreases |xs|
  {
    if xs == [] {
      assert Samples(nodes) + xs == Samples(nodes);
    } else {
      var x, before := xs[0], Samples(nodes);
      var after := PushBuf(cap, nodes, x.timestamp, x.row).0;
      PushBufExact(cap, size, nodes, x.timestamp, x.row);
      assert Sample(x.timestamp, x.row) == x;
      assert before + [x] + xs[1..] == before + xs;
      DropOne(before, x, xs[1..]);
      assert Samples(after) + xs[1..] == if Samples(after) == before then before + xs[1..] else before + xs;
      StoredInOrder(cap, size, after, xs[1..]);
    }
  }

  lemma DropOne(a: seq<Sample>, x: Sample, b: seq<Sample>)
    requires Sorted(a + [x] + b)
    ensures Sorted(a + b)
  {
    var all := a + [x] + b;
    forall i, j | 0 <= i < j < |a + b| ensures (a + b)[i].timestamp <= (a + b)[j].timestamp {
      var i', j' := if i < |a| then i else i + 1, if j < |a| then j else j + 1;
      assert all[i'] == (a + b)[i] && all[j'] == (a + b)[j];
    }
  }

  // ---------------------------------------------------------------- samples that are lost

  /** One timestamp too often: a node full of it, and the next sample with it is dropped. */
  lemma BurstIsNotStored(cap: nat, size: nat, ts: Timestamp, row: seq<byte>)
    requires 8 <= size <= cap && |row| == size
    ensures var xs := seq(RowsPerNode(cap, size) + 1, i => Sample(ts, row));
            Sorted(xs) && Samples(StoreAll(cap, [], xs)) != xs
  {
    var rows := RowsPerNode(cap, size);
    var xs := seq(rows + 1, i => Sample(ts, row));
    Quotient(cap, size, 0);
    ModOf(0, 0, rows, 0);
    assert xs[0].timestamp == xs[0 + rows].timestamp;
    StoreAllExact(cap, size, xs);
  }

  /** Rows narrower than a timestamp: what fits the data log of one node does not fit its index. */
  lemma NarrowRowsAreNotStored(cap: nat, size: nat, xs: seq<Sample>)
    requires 0 < size < 8 <= cap && Sorted(xs) && RowsOfSize(xs, size)
    requires cap / 8 < |xs| && cap / 8 < RowsPerNode(cap, size)
    ensures Samples(StoreAll(cap, [], xs)) != xs
  {
    StoreAllExact(cap, size, xs);
  }

  /** Rows of eight bytes or more never meet that limit. */
  lemma WideRowsFit(cap: nat, size: nat)
    requires 8 <= size <= cap
    ensures RowsPerNode(cap, size) <= cap / 8
  {
    var q := cap / size;
    assert cap == q * size + cap % size;
    assert q * (size - 8) >= 0;
  }
}

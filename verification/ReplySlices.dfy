/**
 Range queries: the slices of nodes between two search results, and the loop that copies them
 into a reply from the back.
 */
module ReplySlices {
  import opened Bytes
  import opened TimeSeries
  import opened Search

  // ---------------------------------------------------------------- nodes as samples

  /** Every timestamp visible in the index has its whole row. */
  predicate Aligned(size: nat, node: Node) {
    && size > 0
    && node.elementSize == size
    && |node.index| % 8 == 0
    && |node.data| >= (|node.index| / 8) * size
  }

  predicate AllAligned(size: nat, nodes: seq<Node>) {
    size > 0 && forall k | 0 <= k < |nodes| :: Aligned(size, nodes[k])
  }

  function TimesOf(samples: seq<Sample>): (times: Times)
    ensures |times| == |samples|
    ensures forall i | 0 <= i < |samples| :: times[i] == samples[i].timestamp
  {
    seq(|samples|, i requires 0 <= i < |samples| => samples[i].timestamp)
  }

  function DataOf(samples: seq<Sample>): seq<byte> {
    if samples == [] then [] else samples[0].row + DataOf(samples[1..])
  }

  /** The index log read as timestamps. */
  function Timestamps(node: Node): (times: Times)
    ensures |times| == |node.index| / 8
  {
    seq(|node.index| / 8, i requires 0 <= i < |node.index| / 8 => TimestampFromLe(node.index[8 * i..8 * i + 8]))
  }

  function NodeTimes(nodes: seq<Node>): (lists: seq<Times>)
    ensures |lists| == |nodes| && forall k | 0 <= k < |nodes| :: lists[k] == Timestamps(nodes[k])
  {
    seq(|nodes|, k requires 0 <= k < |nodes| => Timestamps(nodes[k]))
  }

  lemma TimestampsAreSamples(size: nat, node: Node)
    requires Aligned(size, node)
    ensures Timestamps(node) == TimesOf(NodeSamples(node))
  {
    var k := |node.index| / 8;
    RowsIgnoreExtraData(node.index, node.data, [], size, k);
    forall i | 0 <= i < k ensures Timestamps(node)[i] == NodeSamples(node)[i].timestamp {
      RowAt(node.index, node.data, size, k, i);
    }
  }

  lemma MulMono(i: nat, j: nat, size: nat)
    requires i <= j
    ensures 0 <= i * size <= j * size
    ensures (j - i) * size == j * size - i * size
  {
    assert (j - i) * size >= 0;
  }

  /** Rows `i..j` are the bytes between the two offsets. */
  lemma {:induction false} DataIsRows(size: nat, node: Node, i: nat, j: nat)
    requires Aligned(size, node) && i <= j <= |node.index| / 8
    ensures |NodeSamples(node)| == |node.index| / 8
    ensures 0 <= i * size <= j * size <= |node.data|
    ensures DataOf(NodeSamples(node)[i..j]) == node.data[i * size..j * size]
    decreases j - i
  {
    var k := |node.index| / 8;
    RowsIgnoreExtraData(node.index, node.data, [], size, k);
    MulMono(i, j, size);
    MulMono(j, k, size);
    if i < j {
      DataIsRows(size, node, i + 1, j);
      RowAt(node.index, node.data, size, k, i);
      MulSucc(i + 1, size);
      assert NodeSamples(node)[i..j][1..] == NodeSamples(node)[i + 1..j];
      assert node.data[i * size..i * size + size] + node.data[i * size + size..j * size] == node.data[i * size..j * size];
    }
  }

  // ---------------------------------------------------------------- slices of a range

  datatype Slice = Slice(times: Times, data: seq<byte>)

  /** `slice` holds just these samples. */
  predicate Holds(slice: Slice, samples: seq<Sample>) {
    slice.times == TimesOf(samples) && slice.data == DataOf(samples)
  }

  function Min(x: nat, y: nat): nat {
    if x <= y then x else y
  }

  function SatSub(x: nat, y: nat): nat {
    if x >= y then x - y else 0
  }

  /** Timestamps and rows `start..=end` of a node; `None` is an index panic. */
  method NodeSlice(size: nat, node: Node, start: nat, end: nat) returns (r: Option<Slice>)
    requires Aligned(size, node)
    ensures |NodeSamples(node)| == |Timestamps(node)|
    ensures end < |Timestamps(node)| ==> (r.Some? <==> start <= end + 1)
    ensures end < |Timestamps(node)| && r.Some? ==> Holds(r.value, NodeSamples(node)[start..end + 1])
  {
    var times := Timestamps(node);
    TimestampsAreSamples(size, node);
    var last := if end >= |times| then SatSub(|times|, 1) else end;
    if start > last + 1 || last + 1 > |times| {
      return None;
    }
    var from := Min(start * size, |node.data|);
    var to := Min((end + 1) * size, |node.data|);
    MulMono(start, end + 1, size);
    if end < |times| {
      DataIsRows(size, node, start, end + 1);
    }
    return Some(Slice(times[start..last + 1], node.data[from..to]));
  }

  /** The part of node `k` that a range from `start` to `end` covers. */
  function Bounds(lists: seq<Times>, start: Ref, end: Ref, k: nat): (nat, nat)
    requires k < |lists|
  {
    (if k == start.node then start.index else 0,
     if k == end.node then end.index else SatSub(|lists[k]|, 1))
  }

  /** The samples of that part. */
  function Part(nodes: seq<Node>, start: Ref, end: Ref, k: nat): seq<Sample>
    requires k < |nodes|
  {
    var (from, to) := Bounds(NodeTimes(nodes), start, end, k);
    var samples := NodeSamples(nodes[k]);
    if from <= to + 1 <= |samples| then samples[from..to + 1] else []
  }

  /** From the start's node towards older nodes, to the end of the list. */
  function RangeSamples(nodes: seq<Node>, start: Ref, end: Ref): (parts: seq<seq<Sample>>)
    requires start.node <= |nodes|
    ensures |parts| == |nodes| - start.node
    ensures forall i | 0 <= i < |parts| :: parts[i] == Part(nodes, start, end, start.node + i)
  {
    seq(|nodes| - start.node, i requires 0 <= i < |nodes| - start.node => Part(nodes, start, end, start.node + i))
  }

  predicate AllHold(slices: seq<Slice>, parts: seq<seq<Sample>>) {
    |slices| == |parts| && forall i | 0 <= i < |parts| :: Holds(slices[i], parts[i])
  }

  lemma AllHoldAppend(slices: seq<Slice>, parts: seq<seq<Sample>>, n: nat, slice: Slice)
    requires n < |parts| && AllHold(slices, parts[..n]) && Holds(slice, parts[n])
    ensures AllHold(slices + [slice], parts[..n + 1])
  {
  }

  /** All ends in bounds: what two searches give when no node is empty. */
  predicate InBounds(lists: seq<Times>, start: Ref, end: Ref) {
    && start.node < |lists| && start.index <= |lists[start.node]|
    && IsSample(lists, end.node, end.index)
    && NoneEmpty(lists)
  }

  method RangeSlices(size: nat, nodes: seq<Node>, start: Ref, end: Ref) returns (r: Option<seq<Slice>>)
    requires AllAligned(size, nodes) && InBounds(NodeTimes(nodes), start, end)
    ensures r.None? <==> start.node == end.node && start.index > end.index + 1
    ensures r.Some? ==> AllHold(r.value, RangeSamples(nodes, start, end))
  {
    var slices := [];
    var k := start.node;
    ghost var parts := RangeSamples(nodes, start, end);
    while k < |nodes|
      invariant start.node <= k <= |nodes|
      invariant start.node == end.node && start.index > end.index + 1 ==> k == start.node
      invariant AllHold(slices, parts[..k - start.node])
    {
      var slice := PartSlice(size, nodes, start, end, k);
      if slice.None? {
        return None;
      }
      AllHoldAppend(slices, parts, k - start.node, slice.value);
      slices := slices + [slice.value];
      k := k + 1;
    }
    assert parts[..k - start.node] == parts;
    return Some(slices);
  }

  method PartSlice(size: nat, nodes: seq<Node>, start: Ref, end: Ref, k: nat) returns (r: Option<Slice>)
    requires AllAligned(size, nodes) && InBounds(NodeTimes(nodes), start, end) && k < |nodes|
    ensures r.None? <==> k == start.node == end.node && start.index > end.index + 1
    ensures r.Some? ==> Holds(r.value, Part(nodes, start, end, k))
  {
    assert Aligned(size, nodes[k]) && NodeTimes(nodes)[k] != [];
    var (from, to) := Bounds(NodeTimes(nodes), start, end, k);
    r := NodeSlice(size, nodes[k], from, to);
  }

  // ---------------------------------------------------------------- filling the reply from the back

  predicate Rowed(slice: Slice, size: nat) {
    |slice.data| == |slice.times| * size
  }

  predicate AllRowed(slices: seq<Slice>, size: nat) {
    forall i | 0 <= i < |slices| :: Rowed(slices[i], size)
  }

  function Total(slices: seq<Slice>): nat {
    if slices == [] then 0 else |slices[0].times| + Total(slices[1..])
  }

  /** What is copied when `skip` samples are to be dropped: later slices go in front. */
  function Tail(slices: seq<Slice>, skip: nat, size: nat): (tail: Slice)
    requires AllRowed(slices, size)
    ensures Rowed(tail, size)
  {
    if slices == [] then Slice([], [])
    else
      var kept := SatSub(|slices[0].times|, skip);
      assert Rowed(slices[0], size);
      MulMono(kept, |slices[0].times|, size);
      var rest := Tail(slices[1..], SatSub(skip, kept), size);
      assert (|rest.times| + kept) * size == |rest.times| * size + kept * size;
      Slice(rest.times + slices[0].times[..kept], rest.data + slices[0].data[..kept * size])
  }

  /** The copies never run past the front of the reply. */
  lemma {:induction false} TailFits(slices: seq<Slice>, skip: nat, size: nat)
    requires AllRowed(slices, size)
    ensures |Tail(slices, skip, size).times| <= SatSub(Total(slices), skip)
  {
    if slices != [] {
      TailFits(slices[1..], SatSub(skip, SatSub(|slices[0].times|, skip)), size);
    }
  }

  function Zeros(n: nat): (z: seq<byte>)
    ensures |z| == n
  {
    seq(n, i => 0)
  }

  function ZeroTimes(n: nat): (z: Times)
    ensures |z| == n
  {
    seq(n, i => 0)
  }

  /** Copies `src` so that it ends at `end`, keeping what was behind it. */
  method CopyBack<T>(dest: array<T>, end: nat, src: seq<T>)
    requires |src| <= end <= dest.Length
    modifies dest
    ensures dest[..end - |src|] == old(dest[..end - |src|])
    ensures dest[end - |src|..] == src + old(dest[end..])
  {
    var at := end - |src|;
    var i := 0;
    while i < |src|
      invariant 0 <= i <= |src|
      invariant dest[..at] == old(dest[..at]) && dest[at..at + i] == src[..i]
      invariant dest[end..] == old(dest[end..])
    {
      dest[at + i] := src[i];
      i := i + 1;
    }
    assert dest[at..] == dest[at..end] + dest[end..];
  }

  /** Puts the kept prefix of a slice in front of what is already in the reply. */
  method PutBack(times: array<Timestamp>, data: array<byte>, cursor: nat, slice: Slice, kept: nat, size: nat)
    requires Rowed(slice, size) && kept <= |slice.times| && kept <= cursor <= times.Length
    requires data.Length == times.Length * size
    modifies times, data
    ensures 0 <= (cursor - kept) * size <= cursor * size <= data.Length && 0 <= kept * size <= |slice.data|
    ensures times[..cursor - kept] == old(times[..cursor - kept])
    ensures times[cursor - kept..] == slice.times[..kept] + old(times[cursor..])
    ensures data[..(cursor - kept) * size] == old(data[..(cursor - kept) * size])
    ensures data[(cursor - kept) * size..] == slice.data[..kept * size] + old(data[cursor * size..])
  {
    MulMono(kept, |slice.times|, size);
    MulMono(cursor, times.Length, size);
    MulMono(cursor - kept, cursor, size);
    CopyBack(times, cursor, slice.times[..kept]);
    CopyBack(data, cursor * size, slice.data[..kept * size]);
    assert cursor * size - |slice.data[..kept * size]| == (cursor - kept) * size;
  }

  method RangeLen(slices: seq<Slice>) returns (total: nat)
    ensures total == Total(slices)
  {
    total := 0;
    var i := 0;
    while i < |slices|
      invariant 0 <= i <= |slices| && total + Total(slices[i..]) == Total(slices)
    {
      total := total + |slices[i].times|;
      i := i + 1;
    }
  }

  /** One step of `Tail`, on what is left of the slices. */
  lemma TailStep(slices: seq<Slice>, i: nat, skip: nat, size: nat)
    requires AllRowed(slices, size) && i < |slices|
    ensures AllRowed(slices[i..], size) && AllRowed(slices[i + 1..], size)
    ensures var kept := SatSub(|slices[i].times|, skip);
            var rest := Tail(slices[i + 1..], SatSub(skip, kept), size);
            && 0 <= kept * size <= |slices[i].data|
            && Tail(slices[i..], skip, size) ==
                 Slice(rest.times + slices[i].times[..kept], rest.data + slices[i].data[..kept * size])
  {
    assert slices[i..][0] == slices[i] && slices[i..][1..] == slices[i + 1..];
    assert Rowed(slices[i], size);
    MulMono(SatSub(|slices[i].times|, skip), |slices[i].times|, size);
  }

  /** Samples in the reply: all of them or the first `limit`. */
  function ReplyLen(total: nat, limit: Option<nat>): nat {
    if limit.Some? then Min(total, limit.value) else total
  }

  /** Part way: the back of the reply is copied, the front still zero, and `rest` yet to come. */
  ghost predicate Filled(times: Times, data: seq<byte>, cursor: nat, size: nat, rest: Slice, all: Slice) {
    && |rest.times| <= cursor <= |times|
    && |data| == |times| * size && 0 <= cursor * size <= |data|
    && times[..cursor] == ZeroTimes(cursor) && data[..cursor * size] == Zeros(cursor * size)
    && all.times == rest.times + times[cursor..]
    && all.data == rest.data + data[cursor * size..]
  }

  lemma FilledStep(
    times: Times, data: seq<byte>, times': Times, data': seq<byte>, cursor: nat, size: nat,
    rest: Slice, rest': Slice, all: Slice, moreTimes: Times, moreData: seq<byte>)
    requires Filled(times, data, cursor, size, rest, all)
    requires rest == Slice(rest'.times + moreTimes, rest'.data + moreData)
    requires |times'| == |times| && |data'| == |data|
    requires 0 <= (cursor - |moreTimes|) * size <= cursor * size
    requires times'[..cursor - |moreTimes|] == times[..cursor - |moreTimes|]
    requires times'[cursor - |moreTimes|..] == moreTimes + times[cursor..]
    requires data'[..(cursor - |moreTimes|) * size] == data[..(cursor - |moreTimes|) * size]
    requires data'[(cursor - |moreTimes|) * size..] == moreData + data[cursor * size..]
    ensures Filled(times', data', cursor - |moreTimes|, size, rest', all)
  {
    var at, bt := cursor - |moreTimes|, (cursor - |moreTimes|) * size;
    assert times[..at] == times[..cursor][..at] == ZeroTimes(at);
    assert data[..bt] == data[..cursor * size][..bt] == Zeros(bt);
    assert rest'.times + moreTimes + times[cursor..] == rest'.times + (moreTimes + times[cursor..]);
    assert rest'.data + moreData + data[cursor * size..] == rest'.data + (moreData + data[cursor * size..]);
  }

  lemma FilledDone(times: Times, data: seq<byte>, cursor: nat, size: nat, all: Slice)
    requires Filled(times, data, cursor, size, Slice([], []), all)
    ensures |all.times| == |times| - cursor
    ensures times == ZeroTimes(cursor) + all.times && data == Zeros(cursor * size) + all.data
  {
    assert times == times[..cursor] + times[cursor..];
    assert data == data[..cursor * size] + data[cursor * size..];
  }

  /** One round of the copying loop. */
  method CopySlice(
    times: array<Timestamp>, data: array<byte>, cursor: nat, slice: Slice, kept: nat, size: nat,
    ghost rest: Slice, ghost rest': Slice, ghost all: Slice)
    requires Rowed(slice, size) && kept <= |slice.times|
    requires Filled(times[..], data[..], cursor, size, rest, all)
    requires 0 <= kept * size <= |slice.data|
    requires rest == Slice(rest'.times + slice.times[..kept], rest'.data + slice.data[..kept * size])
    modifies times, data
    ensures kept <= cursor && Filled(times[..], data[..], cursor - kept, size, rest', all)
  {
    ghost var ts, ds := times[..], data[..];
    MulMono(cursor, times.Length, size);
    assert ts[cursor..] == times[cursor..] && ds[cursor * size..] == data[cursor * size..];
    PutBack(times, data, cursor, slice, kept, size);
    FilledStep(ts, ds, times[..], data[..], cursor, size, rest, rest', all,
               slice.times[..kept], slice.data[..kept * size]);
  }

  lemma FilledStart(times: Times, data: seq<byte>, size: nat, all: Slice)
    requires |all.times| <= |times| && |data| == |times| * size
    requires times == ZeroTimes(|times|) && data == Zeros(|data|)
    ensures Filled(times, data, |times|, size, all, all)
  {
    assert times[|times|..] == [] && data[|data|..] == [];
    assert times[..|times|] == times && data[..|data|] == data;
  }

  /** The copying loop. */
  method CopySlices(slices: seq<Slice>, size: nat, toSkip: nat, times: array<Timestamp>, data: array<byte>)
    requires AllRowed(slices, size) && |Tail(slices, toSkip, size).times| <= times.Length
    requires data.Length == times.Length * size
    requires times[..] == ZeroTimes(times.Length) && data[..] == Zeros(data.Length)
    modifies times, data
    ensures var tail := Tail(slices, toSkip, size);
            var front := times.Length - |tail.times|;
            && 0 <= front * size
            && times[..] == ZeroTimes(front) + tail.times && data[..] == Zeros(front * size) + tail.data
  {
    var skip, cursor: nat, i := toSkip, times.Length, 0;
    ghost var all := Tail(slices, skip, size);
    assert slices[0..] == slices;
    FilledStart(times[..], data[..], size, all);
    while i < |slices|
      invariant 0 <= i <= |slices| && AllRowed(slices[i..], size)
      invariant Filled(times[..], data[..], cursor, size, Tail(slices[i..], skip, size), all)
    {
      TailStep(slices, i, skip, size);
      var kept := SatSub(|slices[i].times|, skip);
      CopySlice(times, data, cursor, slices[i], kept, size,
                Tail(slices[i..], skip, size), Tail(slices[i + 1..], SatSub(skip, kept), size), all);
      skip := SatSub(skip, kept);
      cursor := cursor - kept;
      i := i + 1;
    }
    FilledDone(times[..], data[..], cursor, size, all);
  }

  /** A tail in the back of a reply of `len` samples, and zeros in front of it. */
  function Padded(tail: Slice, len: nat, size: nat): (reply: Slice)
    requires Rowed(tail, size) && |tail.times| <= len
    ensures |reply.times| == len && Rowed(reply, size)
  {
    MulMono(|tail.times|, len, size);
    Slice(ZeroTimes(len - |tail.times|) + tail.times, Zeros((len - |tail.times|) * size) + tail.data)
  }

  /** What the reply holds, for any slices and limit. */
  function Reply(slices: seq<Slice>, size: nat, limit: Option<nat>): (reply: Slice)
    requires AllRowed(slices, size)
    ensures |reply.times| == ReplyLen(Total(slices), limit)
    ensures Rowed(reply, size)
  {
    var len := ReplyLen(Total(slices), limit);
    var tail := Tail(slices, Total(slices) - len, size);
    TailFits(slices, Total(slices) - len, size);
    Padded(tail, len, size)
  }

  method Fill(slices: seq<Slice>, size: nat, limit: Option<nat>) returns (reply: Slice)
    requires AllRowed(slices, size)
    ensures reply == Reply(slices, size, limit)
  {
    var total := RangeLen(slices);
    var len := ReplyLen(total, limit);
    MulMono(0, len, size);
    var times := new Timestamp[len](_ => 0);
    var data := new byte[len * size](_ => 0);
    TailFits(slices, total - len, size);
    CopySlices(slices, size, total - len, times, data);
    reply := Slice(times[..], data[..]);
  }

  // ---------------------------------------------------------------- samples and their rows

  predicate AllRows(samples: seq<Sample>, size: nat) {
    forall i | 0 <= i < |samples| :: |samples[i].row| == size
  }

  lemma {:induction false} DataOfPrefix(samples: seq<Sample>, size: nat, n: nat)
    requires AllRows(samples, size) && n <= |samples|
    ensures 0 <= n * size <= |DataOf(samples)| && |DataOf(samples)| == |samples| * size
    ensures DataOf(samples[..n]) == DataOf(samples)[..n * size]
  {
    if samples == [] {
      assert samples[..n] == samples;
    } else {
      var rest := samples[1..];
      MulSucc(|samples|, size);
      if n == 0 {
        DataOfPrefix(rest, size, 0);
        assert samples[..0] == [];
      } else {
        DataOfPrefix(rest, size, n - 1);
        MulSucc(n, size);
        assert samples[..n][1..] == rest[..n - 1];
      }
    }
  }

  lemma NodeRows(size: nat, node: Node)
    requires Aligned(size, node)
    ensures |NodeSamples(node)| == |Timestamps(node)| && AllRows(NodeSamples(node), size)
    ensures Timestamps(node) == TimesOf(NodeSamples(node))
  {
    TimestampsAreSamples(size, node);
    forall i | 0 <= i < |NodeSamples(node)| ensures |NodeSamples(node)[i].row| == size {
      RowAt(node.index, node.data, size, |node.index| / 8, i);
    }
  }

  lemma HeldIsRowed(size: nat, nodes: seq<Node>, start: Ref, end: Ref, slices: seq<Slice>)
    requires AllAligned(size, nodes) && start.node <= |nodes| && AllHold(slices, RangeSamples(nodes, start, end))
    ensures AllRowed(slices, size)
  {
    forall i | 0 <= i < |slices| ensures Rowed(slices[i], size) {
      var k := start.node + i;
      NodeRows(size, nodes[k]);
      var part := Part(nodes, start, end, k);
      DataOfPrefix(part, size, |part|);
    }
  }

  lemma {:induction false} NothingSkipped(slices: seq<Slice>, size: nat)
    requires AllRowed(slices, size)
    ensures |Tail(slices, 0, size).times| == Total(slices)
  {
    if slices != [] {
      NothingSkipped(slices[1..], size);
    }
  }
}

/**
 What a reply holds, sample by sample, for any range over any number of nodes, whether it is what
 was wanted or not; and with a limit, which of those samples are kept.
 */
module ReplyContents {
  import opened Bytes
  import opened TimeSeries
  import opened Search
  import opened ReplySlices

  // ---------------------------------------------------------------- without a limit

  /** The samples of the start's node from the start on, up to the end if that is in the same node. */
  function FromStart(nodes: seq<Node>, start: Ref, end: Ref): seq<Sample>
    requires start.node < |nodes|
  {
    var samples := NodeSamples(nodes[start.node]);
    if end.node == start.node then Cut(samples, start.index, end.index + 1) else Cut(samples, start.index, |samples|)
  }

  function Cut(samples: seq<Sample>, lo: nat, hi: nat): seq<Sample> {
    if lo <= hi <= |samples| then samples[lo..hi] else []
  }

  /**
   All that is older than the start's node, oldest first, each node in full; but where the end lies in
   such a node, that one stops after the end.
   */
  function OlderThanStart(nodes: seq<Node>, start: Ref, end: Ref): seq<Sample>
    requires start.node < |nodes| && end.node < |nodes|
  {
    if end.node <= start.node then Samples(nodes[start.node + 1..])
    else
      Samples(nodes[end.node + 1..]) + Cut(NodeSamples(nodes[end.node]), 0, end.index + 1)
      + Samples(nodes[start.node + 1..end.node])
  }

  /** What a range without a limit is answered with. */
  function Answer(nodes: seq<Node>, start: Ref, end: Ref): seq<Sample>
    requires start.node < |nodes| && end.node < |nodes|
  {
    OlderThanStart(nodes, start, end) + FromStart(nodes, start, end)
  }

  /** The parts of a range from node `k` on, oldest first. */
  function Joined(nodes: seq<Node>, start: Ref, end: Ref, k: nat): seq<Sample>
    requires k <= |nodes|
    decreases |nodes| - k
  {
    if k == |nodes| then [] else Joined(nodes, start, end, k + 1) + Part(nodes, start, end, k)
  }

  lemma PartIs(size: nat, nodes: seq<Node>, start: Ref, end: Ref, k: nat)
    requires AllAligned(size, nodes) && InBounds(NodeTimes(nodes), start, end) && k < |nodes|
    ensures var samples := NodeSamples(nodes[k]);
            Part(nodes, start, end, k) ==
              Cut(samples, if k == start.node then start.index else 0, if k == end.node then end.index + 1 else |samples|)
  {
    assert Aligned(size, nodes[k]);
    NodeRows(size, nodes[k]);
    assert NodeTimes(nodes)[k] != [];
  }

  lemma WholeNode(size: nat, nodes: seq<Node>, start: Ref, end: Ref, k: nat)
    requires AllAligned(size, nodes) && InBounds(NodeTimes(nodes), start, end) && k < |nodes|
    requires k != start.node && k != end.node
    ensures Part(nodes, start, end, k) == NodeSamples(nodes[k])
  {
    PartIs(size, nodes, start, end, k);
  }

  lemma SamplesStep(nodes: seq<Node>, k: nat, j: nat)
    requires k < j <= |nodes|
    ensures Samples(nodes[k..j]) == Samples(nodes[k + 1..j]) + NodeSamples(nodes[k])
  {
    assert nodes[k..j][1..] == nodes[k + 1..j];
  }

  /** Older than both ends, nodes are joined in full. */
  lemma {:induction false} JoinedBelow(size: nat, nodes: seq<Node>, start: Ref, end: Ref, k: nat)
    requires AllAligned(size, nodes) && InBounds(NodeTimes(nodes), start, end)
    requires start.node < k <= |nodes| && end.node < k
    ensures Joined(nodes, start, end, k) == Samples(nodes[k..])
    decreases |nodes| - k
  {
    if k < |nodes| {
      JoinedBelow(size, nodes, start, end, k + 1);
      WholeNode(size, nodes, start, end, k);
      SamplesStep(nodes, k, |nodes|);
    }
  }

  /** Between the ends of an inverted range: the end's node up to the end, and the rest in full. */
  lemma {:induction false} JoinedBetween(size: nat, nodes: seq<Node>, start: Ref, end: Ref, k: nat)
    requires AllAligned(size, nodes) && InBounds(NodeTimes(nodes), start, end)
    requires start.node < k <= end.node
    ensures Joined(nodes, start, end, k) ==
              Samples(nodes[end.node + 1..]) + Cut(NodeSamples(nodes[end.node]), 0, end.index + 1) + Samples(nodes[k..end.node])
    decreases |nodes| - k
  {
    if k == end.node {
      JoinedBelow(size, nodes, start, end, k + 1);
      PartIs(size, nodes, start, end, k);
      assert nodes[k..end.node] == [];
      var x := Samples(nodes[end.node + 1..]) + Cut(NodeSamples(nodes[end.node]), 0, end.index + 1);
      assert x + [] == x;
    } else {
      JoinedBetween(size, nodes, start, end, k + 1);
      WholeNode(size, nodes, start, end, k);
      SamplesStep(nodes, k, end.node);
      Regroup(Samples(nodes[end.node + 1..]) + Cut(NodeSamples(nodes[end.node]), 0, end.index + 1),
              Samples(nodes[k + 1..end.node]), NodeSamples(nodes[k]));
    }
  }

  lemma Regroup<T>(a: seq<T>, b: seq<T>, c: seq<T>)
    ensures a + (b + c) == a + b + c
  {
  }

  lemma StartPart(size: nat, nodes: seq<Node>, start: Ref, end: Ref)
    requires AllAligned(size, nodes) && InBounds(NodeTimes(nodes), start, end)
    ensures start.node < |nodes| && Part(nodes, start, end, start.node) == FromStart(nodes, start, end)
  {
    PartIs(size, nodes, start, end, start.node);
  }

  lemma OlderIs(nodes: seq<Node>, start: Ref, end: Ref, older: seq<Sample>)
    requires start.node < |nodes| && end.node < |nodes|
    requires end.node <= start.node ==> older == Samples(nodes[start.node + 1..])
    requires start.node < end.node ==>
               older == Samples(nodes[end.node + 1..]) + Cut(NodeSamples(nodes[end.node]), 0, end.index + 1)
                        + Samples(nodes[start.node + 1..end.node])
    ensures older == OlderThanStart(nodes, start, end)
  {
  }

  lemma {:induction false} JoinedOlder(size: nat, nodes: seq<Node>, start: Ref, end: Ref)
    requires AllAligned(size, nodes) && InBounds(NodeTimes(nodes), start, end)
    ensures start.node < |nodes| && end.node < |nodes|
    ensures Joined(nodes, start, end, start.node + 1) == OlderThanStart(nodes, start, end)
  {
    var older := Joined(nodes, start, end, start.node + 1);
    if end.node <= start.node {
      JoinedBelow(size, nodes, start, end, start.node + 1);
      OlderIs(nodes, start, end, older);
    } else {
      JoinedBetween(size, nodes, start, end, start.node + 1);
      OlderIs(nodes, start, end, older);
    }
  }

  lemma {:induction false} JoinedStep(nodes: seq<Node>, start: Ref, end: Ref, k: nat, older: seq<Sample>, part: seq<Sample>)
    requires k < |nodes| && Joined(nodes, start, end, k + 1) == older && Part(nodes, start, end, k) == part
    ensures Joined(nodes, start, end, k) == older + part
  {
  }

  lemma {:induction false} JoinedIsAnswer(size: nat, nodes: seq<Node>, start: Ref, end: Ref)
    requires AllAligned(size, nodes) && InBounds(NodeTimes(nodes), start, end)
    ensures start.node < |nodes| && end.node < |nodes|
    ensures Joined(nodes, start, end, start.node) == Answer(nodes, start, end)
  {
    JoinedOlder(size, nodes, start, end);
    StartPart(size, nodes, start, end);
    JoinedStep(nodes, start, end, start.node, OlderThanStart(nodes, start, end), FromStart(nodes, start, end));
  }

  // ---------------------------------------------------------------- with a limit

  /**
   How many samples of each part are kept when `skip` are to be dropped, newest part first. A part
   loses `skip` from its end, or all it has; and then `skip` goes down by what was kept, not by what
   was dropped.
   */
  predicate Keeps(parts: seq<seq<Sample>>, skip: nat, kept: seq<nat>) {
    && |kept| == |parts|
    && (parts != [] ==>
          && kept[0] == (if |parts[0]| > skip then |parts[0]| - skip else 0)
          && Keeps(parts[1..], if skip > kept[0] then skip - kept[0] else 0, kept[1..]))
  }

  /** The kept fronts of the parts, oldest part first. */
  function Assembled(parts: seq<seq<Sample>>, kept: seq<nat>): seq<Sample>
    requires |kept| == |parts|
  {
    if parts == [] then []
    else Assembled(parts[1..], kept[1..]) + if kept[0] <= |parts[0]| then parts[0][..kept[0]] else []
  }

  lemma {:induction false} DataOfConcat(x: seq<Sample>, y: seq<Sample>)
    ensures DataOf(x + y) == DataOf(x) + DataOf(y)
  {
    if x == [] {
      assert x + y == y;
    } else {
      assert (x + y)[1..] == x[1..] + y;
      DataOfConcat(x[1..], y);
    }
  }

  lemma TimesOfConcat(x: seq<Sample>, y: seq<Sample>)
    ensures TimesOf(x + y) == TimesOf(x) + TimesOf(y)
  {
  }

  lemma HoldsConcat(x: Slice, xs: seq<Sample>, y: Slice, ys: seq<Sample>)
    requires Holds(x, xs) && Holds(y, ys)
    ensures Holds(Slice(x.times + y.times, x.data + y.data), xs + ys)
  {
    DataOfConcat(xs, ys);
    TimesOfConcat(xs, ys);
  }

  lemma HoldsFront(slice: Slice, samples: seq<Sample>, n: nat, size: nat)
    requires Holds(slice, samples) && AllRows(samples, size) && n <= |samples|
    ensures 0 <= n * size <= |slice.data|
    ensures Holds(Slice(slice.times[..n], slice.data[..n * size]), samples[..n])
  {
    DataOfPrefix(samples, size, n);
    assert TimesOf(samples)[..n] == TimesOf(samples[..n]);
  }

  predicate AllPartRows(parts: seq<seq<Sample>>, size: nat) {
    forall i | 0 <= i < |parts| :: AllRows(parts[i], size)
  }

  /** One part more in front of a tail already assembled. */
  lemma TailHoldsStep(slices: seq<Slice>, part: seq<Sample>, n: nat, skip: nat, size: nat, rest: seq<Sample>)
    requires AllRowed(slices, size) && slices != [] && Holds(slices[0], part) && AllRows(part, size)
    requires n == SatSub(|part|, skip)
    requires AllRowed(slices[1..], size) && Holds(Tail(slices[1..], SatSub(skip, n), size), rest)
    ensures Holds(Tail(slices, skip, size), rest + part[..n])
  {
    TailStep(slices, 0, skip, size);
    assert slices[0..] == slices;
    HoldsFront(slices[0], part, n, size);
    HoldsConcat(Tail(slices[1..], SatSub(skip, n), size), rest,
                Slice(slices[0].times[..n], slices[0].data[..n * size]), part[..n]);
  }

  lemma AllHoldRest(slices: seq<Slice>, parts: seq<seq<Sample>>, size: nat)
    requires AllHold(slices, parts) && AllPartRows(parts, size) && AllRowed(slices, size) && slices != []
    ensures AllHold(slices[1..], parts[1..]) && AllPartRows(parts[1..], size) && AllRowed(slices[1..], size)
    ensures Holds(slices[0], parts[0]) && AllRows(parts[0], size)
  {
  }

  lemma {:induction false} TailHolds(slices: seq<Slice>, parts: seq<seq<Sample>>, skip: nat, size: nat) returns (kept: seq<nat>)
    requires AllHold(slices, parts) && AllPartRows(parts, size) && AllRowed(slices, size)
    ensures Keeps(parts, skip, kept) && Holds(Tail(slices, skip, size), Assembled(parts, kept))
  {
    if slices == [] {
      kept := [];
    } else {
      var n := SatSub(|parts[0]|, skip);
      AllHoldRest(slices, parts, size);
      var rest := TailHolds(slices[1..], parts[1..], SatSub(skip, n), size);
      kept := [n] + rest;
      assert kept[1..] == rest;
      TailHoldsStep(slices, parts[0], n, skip, size, Assembled(parts[1..], rest));
    }
  }

  /** With nothing to drop, every part is kept whole. */
  lemma {:induction false} KeepsAll(parts: seq<seq<Sample>>, kept: seq<nat>)
    requires Keeps(parts, 0, kept)
    ensures Assembled(parts, kept) == Assembled(parts, Lengths(parts))
  {
    if parts != [] {
      assert Lengths(parts)[1..] == Lengths(parts[1..]);
      KeepsAll(parts[1..], kept[1..]);
    }
  }

  function Lengths(parts: seq<seq<Sample>>): (ns: seq<nat>)
    ensures |ns| == |parts|
  {
    seq(|parts|, i requires 0 <= i < |parts| => |parts[i]|)
  }

  lemma {:induction false} AssembledStep(parts: seq<seq<Sample>>)
    requires parts != []
    ensures Assembled(parts, Lengths(parts)) == Assembled(parts[1..], Lengths(parts[1..])) + parts[0]
  {
    assert Lengths(parts)[1..] == Lengths(parts[1..]);
    assert parts[0][..|parts[0]|] == parts[0];
  }

  /** Whole parts, assembled, are the parts joined. */
  lemma {:induction false} AssembledWhole(nodes: seq<Node>, start: Ref, end: Ref, k: nat, parts: seq<seq<Sample>>)
    requires k <= |nodes| && |parts| == |nodes| - k
    requires forall i | 0 <= i < |parts| :: parts[i] == Part(nodes, start, end, k + i)
    ensures Assembled(parts, Lengths(parts)) == Joined(nodes, start, end, k)
    decreases |parts|
  {
    if parts != [] {
      forall i | 0 <= i < |parts| - 1 ensures parts[1..][i] == Part(nodes, start, end, k + 1 + i) {
        assert parts[1..][i] == parts[i + 1];
      }
      AssembledWhole(nodes, start, end, k + 1, parts[1..]);
      AssembledStep(parts);
    }
  }

  lemma PartRows(size: nat, nodes: seq<Node>, start: Ref, end: Ref)
    requires AllAligned(size, nodes) && start.node <= |nodes|
    ensures AllPartRows(RangeSamples(nodes, start, end), size)
  {
    var parts := RangeSamples(nodes, start, end);
    forall i | 0 <= i < |parts| ensures AllRows(parts[i], size) {
      NodeRows(size, nodes[start.node + i]);
    }
  }

  /** What of node `k` lies in the range, by the positions of its ends. */
  predicate IsPart(nodes: seq<Node>, start: Ref, end: Ref, k: nat, part: seq<Sample>)
    requires k < |nodes|
  {
    var samples := NodeSamples(nodes[k]);
    part == Cut(samples, if k == start.node then start.index else 0, if k == end.node then end.index + 1 else |samples|)
  }

  /** The parts of a range, newest first. */
  predicate AreParts(nodes: seq<Node>, start: Ref, end: Ref, parts: seq<seq<Sample>>) {
    && start.node < |nodes| && |parts| == |nodes| - start.node
    && forall i | 0 <= i < |parts| :: IsPart(nodes, start, end, start.node + i, parts[i])
  }

  lemma PartsAre(size: nat, nodes: seq<Node>, start: Ref, end: Ref)
    requires AllAligned(size, nodes) && InBounds(NodeTimes(nodes), start, end)
    ensures AreParts(nodes, start, end, RangeSamples(nodes, start, end))
  {
    var parts := RangeSamples(nodes, start, end);
    forall i | 0 <= i < |parts| ensures IsPart(nodes, start, end, start.node + i, parts[i]) {
      PartIs(size, nodes, start, end, start.node + i);
    }
  }

  /** These samples at the back, and zeros in front of them. */
  predicate ZerosThen(reply: Slice, back: seq<Sample>) {
    && |back| <= |reply.times| && |DataOf(back)| <= |reply.data|
    && var n, m := |reply.times| - |back|, |reply.data| - |DataOf(back)|;
       && (forall i | 0 <= i < n :: reply.times[i] == 0) && reply.times[n..] == TimesOf(back)
       && (forall i | 0 <= i < m :: reply.data[i] == 0) && reply.data[m..] == DataOf(back)
  }

  /**
   A reply with a limit: as many samples as there are in the parts, or as allowed; of these the back is
   what is kept of the parts and the front, what is missing from the count, is zeros.
   */
  predicate LimitedParts(parts: seq<seq<Sample>>, limit: Option<nat>, size: nat, reply: Slice, kept: seq<nat>) {
    && |kept| == |parts|
    && var total := Sum(Lengths(parts));
       && |reply.times| == (if limit.Some? && limit.value < total then limit.value else total)
       && |reply.data| == |reply.times| * size
       && Keeps(parts, total - |reply.times|, kept)
       && ZerosThen(reply, Assembled(parts, kept))
  }

  /** That, of the parts of a range. */
  predicate LimitedAnswer(
    nodes: seq<Node>, start: Ref, end: Ref, limit: Option<nat>, size: nat, reply: Slice, parts: seq<seq<Sample>>, kept: seq<nat>)
  {
    AreParts(nodes, start, end, parts) && LimitedParts(parts, limit, size, reply, kept)
  }

  function Sum(ns: seq<nat>): nat {
    if ns == [] then 0 else ns[0] + Sum(ns[1..])
  }

  lemma {:induction false} TotalIsSum(slices: seq<Slice>, parts: seq<seq<Sample>>)
    requires AllHold(slices, parts)
    ensures Total(slices) == Sum(Lengths(parts))
  {
    if slices != [] {
      assert Holds(slices[0], parts[0]);
      assert Lengths(parts)[1..] == Lengths(parts[1..]);
      TotalIsSum(slices[1..], parts[1..]);
    }
  }

  lemma PaddedIsZerosThen(tail: Slice, len: nat, size: nat, back: seq<Sample>)
    requires Holds(tail, back) && Rowed(tail, size) && |tail.times| <= len
    ensures ZerosThen(Padded(tail, len, size), back)
  {
  }

  lemma PaddedParts(parts: seq<seq<Sample>>, limit: Option<nat>, size: nat, tail: Slice, kept: seq<nat>, total: nat)
    requires |kept| == |parts| && total == Sum(Lengths(parts))
    requires Rowed(tail, size) && |tail.times| <= ReplyLen(total, limit)
    requires Keeps(parts, total - ReplyLen(total, limit), kept) && Holds(tail, Assembled(parts, kept))
    ensures LimitedParts(parts, limit, size, Padded(tail, ReplyLen(total, limit), size), kept)
  {
    PaddedIsZerosThen(tail, ReplyLen(total, limit), size, Assembled(parts, kept));
  }

  lemma ReplyIsPadded(slices: seq<Slice>, size: nat, limit: Option<nat>) returns (tail: Slice)
    requires AllRowed(slices, size)
    ensures var len := ReplyLen(Total(slices), limit);
            && tail == Tail(slices, Total(slices) - len, size)
            && |tail.times| <= len && Reply(slices, size, limit) == Padded(tail, len, size)
  {
    var len := ReplyLen(Total(slices), limit);
    tail := Tail(slices, Total(slices) - len, size);
    TailFits(slices, Total(slices) - len, size);
  }

  lemma PartsReply(slices: seq<Slice>, parts: seq<seq<Sample>>, size: nat, limit: Option<nat>) returns (kept: seq<nat>)
    requires AllHold(slices, parts) && AllPartRows(parts, size) && AllRowed(slices, size)
    ensures LimitedParts(parts, limit, size, Reply(slices, size, limit), kept)
  {
    TotalIsSum(slices, parts);
    kept := TailHolds(slices, parts, Total(slices) - ReplyLen(Total(slices), limit), size);
    var tail := ReplyIsPadded(slices, size, limit);
    PaddedParts(parts, limit, size, tail, kept, Total(slices));
  }

  /** What `Reply` makes of the slices of a range. */
  lemma ReplyIsLimitedAnswer(
    size: nat, nodes: seq<Node>, start: Ref, end: Ref, slices: seq<Slice>, limit: Option<nat>)
    returns (kept: seq<nat>)
    requires AllAligned(size, nodes) && InBounds(NodeTimes(nodes), start, end)
    requires AllHold(slices, RangeSamples(nodes, start, end))
    ensures AllRowed(slices, size)
    ensures LimitedAnswer(nodes, start, end, limit, size, Reply(slices, size, limit), RangeSamples(nodes, start, end), kept)
  {
    HeldIsRowed(size, nodes, start, end, slices);
    PartsAre(size, nodes, start, end);
    PartRows(size, nodes, start, end);
    kept := PartsReply(slices, RangeSamples(nodes, start, end), size, limit);
  }

  lemma WholeReply(slices: seq<Slice>, parts: seq<seq<Sample>>, size: nat, all: seq<Sample>)
    requires AllHold(slices, parts) && AllPartRows(parts, size) && AllRowed(slices, size)
    requires Assembled(parts, Lengths(parts)) == all
    ensures Holds(Reply(slices, size, None), all)
  {
    var kept := TailHolds(slices, parts, 0, size);
    KeepsAll(parts, kept);
    NothingSkipped(slices, size);
    var tail := Tail(slices, 0, size);
    assert ZeroTimes(0) + tail.times == tail.times && Zeros(0) + tail.data == tail.data;
    assert 0 * size == 0;
  }

  /** Without a limit that is the whole answer. */
  lemma ReplyIsAnswer(size: nat, nodes: seq<Node>, start: Ref, end: Ref, slices: seq<Slice>)
    requires AllAligned(size, nodes) && InBounds(NodeTimes(nodes), start, end)
    requires AllHold(slices, RangeSamples(nodes, start, end))
    ensures AllRowed(slices, size)
    ensures Holds(Reply(slices, size, None), Answer(nodes, start, end))
  {
    var parts := RangeSamples(nodes, start, end);
    HeldIsRowed(size, nodes, start, end, slices);
    PartRows(size, nodes, start, end);
    AssembledWhole(nodes, start, end, start.node, parts);
    JoinedIsAnswer(size, nodes, start, end);
    WholeReply(slices, parts, size, Answer(nodes, start, end));
  }
}

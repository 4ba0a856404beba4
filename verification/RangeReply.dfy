/**
 What a range query answers, compared with the samples the client asked for: for which ranges the
 reply is exactly those, and how it travels to the client.
 */
module RangeReply {
  import opened Bytes
  import opened TimeSeries
  import opened Search
  import opened ReplySlices
  import opened ReplyContents
  import Framing
  import Packets
  import Persist
  import VTables

  // ---------------------------------------------------------------- what was asked for

  function InRange(samples: seq<Sample>, a: Timestamp, b: Timestamp): seq<Sample> {
    if samples == [] then []
    else (if a <= samples[0].timestamp <= b then [samples[0]] else []) + InRange(samples[1..], a, b)
  }

  /** The first `limit` stored samples with `a <= t <= b`. */
  function Wanted(nodes: seq<Node>, a: Timestamp, b: Timestamp, limit: Option<nat>): seq<Sample> {
    var w := InRange(Samples(nodes), a, b);
    w[..ReplyLen(|w|, limit)]
  }

  lemma {:induction false} InRangeConcat(x: seq<Sample>, y: seq<Sample>, a: Timestamp, b: Timestamp)
    ensures InRange(x + y, a, b) == InRange(x, a, b) + InRange(y, a, b)
  {
    if x == [] {
      assert x + y == y;
    } else {
      assert (x + y)[1..] == x[1..] + y;
      InRangeConcat(x[1..], y, a, b);
    }
  }

  lemma {:induction false} InRangeMembers(samples: seq<Sample>, a: Timestamp, b: Timestamp, s: Sample)
    ensures s in InRange(samples, a, b) <==> s in samples && a <= s.timestamp <= b
  {
    if samples != [] {
      InRangeMembers(samples[1..], a, b, s);
      assert samples == [samples[0]] + samples[1..];
    }
  }

  lemma {:induction false} InRangeIsSlice(samples: seq<Sample>, a: Timestamp, b: Timestamp, lo: nat, hi: nat)
    requires lo <= hi <= |samples|
    requires forall i | 0 <= i < lo :: samples[i].timestamp < a
    requires forall i | lo <= i < hi :: a <= samples[i].timestamp <= b
    requires forall i | hi <= i < |samples| :: samples[i].timestamp > b
    ensures InRange(samples, a, b) == samples[lo..hi]
  {
    if samples != [] {
      var rest := samples[1..];
      if lo > 0 {
        InRangeIsSlice(rest, a, b, lo - 1, hi - 1);
        SliceOfRest(samples, lo, hi);
      } else if hi > 0 {
        InRangeIsSlice(rest, a, b, 0, hi - 1);
        assert [samples[0]] + rest[0..hi - 1] == samples[0..hi];
      } else {
        InRangeIsSlice(rest, a, b, 0, 0);
      }
    }
  }

  lemma SliceOfRest<T>(xs: seq<T>, lo: nat, hi: nat)
    requires 0 < lo <= hi <= |xs|
    ensures xs[1..][lo - 1..hi - 1] == xs[lo..hi]
  {
  }

  lemma {:induction false} SampleOfNode(nodes: seq<Node>, k: nat, s: Sample)
    requires k < |nodes| && s in NodeSamples(nodes[k])
    ensures s in Samples(nodes)
  {
    if k > 0 {
      SampleOfNode(nodes[1..], k - 1, s);
    }
  }

  /** No sample of a node other than the oldest is in the range. */
  predicate NoneNewer(nodes: seq<Node>, a: Timestamp, b: Timestamp) {
    forall k | 0 <= k < |nodes| - 1 :: NoneInside(NodeSamples(nodes[k]), a, b)
  }

  predicate NoneInside(samples: seq<Sample>, a: Timestamp, b: Timestamp) {
    forall i | 0 <= i < |samples| :: !(a <= samples[i].timestamp <= b)
  }

  lemma {:induction false} NoneInsideIsEmpty(samples: seq<Sample>, a: Timestamp, b: Timestamp)
    requires NoneInside(samples, a, b)
    ensures InRange(samples, a, b) == []
  {
    if samples != [] {
      assert forall i | 0 <= i < |samples| - 1 :: samples[1..][i] == samples[i + 1];
      NoneInsideIsEmpty(samples[1..], a, b);
    }
  }

  lemma {:induction false} OnlyOldestCounts(nodes: seq<Node>, a: Timestamp, b: Timestamp)
    requires nodes != [] && NoneNewer(nodes, a, b)
    ensures InRange(Samples(nodes), a, b) == InRange(NodeSamples(nodes[|nodes| - 1]), a, b)
  {
    InRangeConcat(Samples(nodes[1..]), NodeSamples(nodes[0]), a, b);
    if |nodes| > 1 {
      assert NoneInside(NodeSamples(nodes[0]), a, b);
      NoneInsideIsEmpty(NodeSamples(nodes[0]), a, b);
      forall k | 0 <= k < |nodes[1..]| - 1 ensures NoneInside(NodeSamples(nodes[1..][k]), a, b) {
        assert NoneInside(NodeSamples(nodes[k + 1]), a, b);
      }
      OnlyOldestCounts(nodes[1..], a, b);
    }
  }

  // ---------------------------------------------------------------- strictly increasing series

  /** Each node strictly ascending, and every node strictly before those pushed after it. */
  predicate Increasing(lists: seq<Times>) {
    && (forall k | 0 <= k < |lists| :: Climbs(lists[k]))
    && (forall j, k | 0 <= j < k < |lists| :: Precedes(lists[k], lists[j]))
  }

  predicate Climbs(times: Times) {
    forall i, j | 0 <= i < j < |times| :: times[i] < times[j]
  }

  predicate Precedes(x: Times, y: Times) {
    forall i, j | 0 <= i < |x| && 0 <= j < |y| :: x[i] < y[j]
  }

  lemma IncreasingIsOrdered(lists: seq<Times>)
    requires Increasing(lists)
    ensures Ordered(lists)
  {
    forall k | 0 <= k < |lists| ensures Sorted(lists[k]) {
      assert Climbs(lists[k]);
    }
    forall j, k | 0 <= j < k < |lists| ensures NotAfter(lists[k], lists[j]) {
      assert Precedes(lists[k], lists[j]);
    }
  }

  /** What the two searches of a range promise. */
  ghost predicate Found(lists: seq<Times>, a: Timestamp, b: Timestamp, start: Ref, end: Ref) {
    && Increasing(lists) && InBounds(lists, start, end)
    && InsertionPoint(lists, a, start)
    && Neighbour(lists, b, end)
    && (lists[end.node][end.index] > b ==> end.index == 0)
  }

  /** Everything stored before the start is earlier than `a`. */
  lemma BeforeStart(lists: seq<Times>, a: Timestamp, b: Timestamp, start: Ref, end: Ref, k: nat, i: nat)
    requires Found(lists, a, b, start, end) && IsSample(lists, k, i) && Before(start, k, i)
    ensures lists[k][i] < a
  {
    assert Climbs(lists[k]);
    assert k > start.node ==> Precedes(lists[k], lists[start.node]);
    assert lists[k][i] == a ==> Stored(lists, a);
  }

  /** A range that is not inverted never indexes backwards. */
  lemma NeverBackwards(lists: seq<Times>, a: Timestamp, b: Timestamp, start: Ref, end: Ref)
    requires Found(lists, a, b, start, end) && a <= b && start.node == end.node
    ensures start.index <= end.index + 1
  {
    assert Climbs(lists[end.node]);
    var times, next := lists[end.node], end.index + 1;
    assert next < |times| ==> IsSample(lists, end.node, next) && NotBetween(times[end.index], times[next], b);
    forall i | 0 <= i < start.index ensures lists[start.node][i] < a {
      BeforeStart(lists, a, b, start, end, start.node, i);
    }
  }

  /** Where a range that starts in the oldest node ends in it. */
  function EndInOldest(lists: seq<Times>, end: Ref): nat
    requires lists != []
  {
    if end.node == |lists| - 1 then end.index + 1 else |lists[|lists| - 1]|
  }

  lemma UpToEnd(lists: seq<Times>, a: Timestamp, b: Timestamp, start: Ref, end: Ref, i: nat)
    requires Found(lists, a, b, start, end) && IsSample(lists, |lists| - 1, i)
    requires lists[|lists| - 1][0] <= b
    ensures lists[|lists| - 1][i] <= b <==> i < EndInOldest(lists, end)
  {
    var m := |lists| - 1;
    var s := lists[end.node][end.index];
    assert NotBetween(s, lists[m][i], b);
    if end.node == m {
      assert Climbs(lists[m]);
    } else {
      assert Precedes(lists[m], lists[end.node]);
    }
  }

  predicate Cuts(times: Times, a: Timestamp, b: Timestamp, lo: nat, hi: nat) {
    forall i | 0 <= i < |times| :: (times[i] < a <==> i < lo) && (times[i] <= b <==> i < hi)
  }

  lemma CutIsRange(samples: seq<Sample>, a: Timestamp, b: Timestamp, lo: nat, hi: nat)
    requires lo <= hi <= |samples| && Cuts(TimesOf(samples), a, b, lo, hi)
    ensures InRange(samples, a, b) == samples[lo..hi]
  {
    assert forall i | 0 <= i < |samples| :: samples[i].timestamp == TimesOf(samples)[i];
    InRangeIsSlice(samples, a, b, lo, hi);
  }

  /** The range cuts the oldest node where `a` and `b` do. */
  lemma OldestCut(lists: seq<Times>, a: Timestamp, b: Timestamp, start: Ref, end: Ref)
    requires Found(lists, a, b, start, end) && start.node == |lists| - 1 && lists[|lists| - 1][0] <= b
    ensures Cuts(lists[|lists| - 1], a, b, start.index, EndInOldest(lists, end))
  {
    var m := |lists| - 1;
    forall i | 0 <= i < |lists[m]|
      ensures (lists[m][i] <= b <==> i < EndInOldest(lists, end)) && (lists[m][i] < a <==> i < start.index)
    {
      assert IsSample(lists, m, i);
      UpToEnd(lists, a, b, start, end, i);
      if Before(start, m, i) {
        BeforeStart(lists, a, b, start, end, m, i);
      }
    }
  }

  // ---------------------------------------------------------------- a range inside the oldest node

  lemma OneTail(slice: Slice, skip: nat, size: nat)
    requires Rowed(slice, size) && skip <= |slice.times|
    ensures var len := |slice.times| - skip;
            && 0 <= len * size <= |slice.data|
            && Tail([slice], skip, size) == Slice(slice.times[..len], slice.data[..len * size])
            && Total([slice]) == |slice.times|
  {
    assert [slice][1..] == [] && [slice][0..] == [slice];
    TailStep([slice], 0, skip, size);
    assert forall t: Times :: [] + t == t;
    assert forall d: seq<byte> :: [] + d == d;
  }

  lemma OneSlice(slice: Slice, samples: seq<Sample>, size: nat, limit: Option<nat>)
    requires Holds(slice, samples) && AllRows(samples, size) && Rowed(slice, size)
    ensures Holds(Reply([slice], size, limit), samples[..ReplyLen(|samples|, limit)])
  {
    var len := ReplyLen(|samples|, limit);
    DataOfPrefix(samples, size, len);
    OneTail(slice, |samples| - len, size);
    assert Reply([slice], size, limit) == Slice(slice.times[..len], slice.data[..len * size]);
    assert TimesOf(samples)[..len] == TimesOf(samples[..len]);
  }

  lemma OldestPart(size: nat, nodes: seq<Node>, a: Timestamp, b: Timestamp, start: Ref, end: Ref)
    requires AllAligned(size, nodes) && Found(NodeTimes(nodes), a, b, start, end) && a <= b
    requires start.node == |nodes| - 1
    ensures var samples := NodeSamples(nodes[|nodes| - 1]);
            var hi := EndInOldest(NodeTimes(nodes), end);
            && AllRows(samples, size)
            && start.index <= hi <= |samples|
            && Part(nodes, start, end, |nodes| - 1) == samples[start.index..hi]
  {
    var m := |nodes| - 1;
    NodeRows(size, nodes[m]);
    if end.node == m {
      NeverBackwards(NodeTimes(nodes), a, b, start, end);
    }
    assert NodeTimes(nodes)[m] != [];
  }

  /** A range that starts in the oldest node is answered with one slice of it. */
  lemma OldestReply(size: nat, nodes: seq<Node>, a: Timestamp, b: Timestamp, start: Ref, end: Ref, slices: seq<Slice>, limit: Option<nat>)
    requires AllAligned(size, nodes) && Found(NodeTimes(nodes), a, b, start, end) && a <= b
    requires start.node == |nodes| - 1 && AllHold(slices, RangeSamples(nodes, start, end))
    ensures AllRowed(slices, size)
    ensures var part := Part(nodes, start, end, |nodes| - 1);
            Holds(Reply(slices, size, limit), part[..ReplyLen(|part|, limit)])
  {
    HeldIsRowed(size, nodes, start, end, slices);
    OldestPart(size, nodes, a, b, start, end);
    assert slices == [slices[0]];
    OneSlice(slices[0], Part(nodes, start, end, |nodes| - 1), size, limit);
  }

  /** And that slice is what was asked of the node, if the node begins no later than `b`. */
  lemma OldestInRange(size: nat, nodes: seq<Node>, a: Timestamp, b: Timestamp, start: Ref, end: Ref)
    requires AllAligned(size, nodes) && Found(NodeTimes(nodes), a, b, start, end) && a <= b
    requires start.node == |nodes| - 1 && NodeTimes(nodes)[|nodes| - 1][0] <= b
    ensures InRange(NodeSamples(nodes[|nodes| - 1]), a, b) == Part(nodes, start, end, |nodes| - 1)
  {
    var lists, m := NodeTimes(nodes), |nodes| - 1;
    NodeRows(size, nodes[m]);
    OldestPart(size, nodes, a, b, start, end);
    OldestCut(lists, a, b, start, end);
    CutIsRange(NodeSamples(nodes[m]), a, b, start.index, EndInOldest(lists, end));
  }

  lemma AllTooLate(size: nat, nodes: seq<Node>, a: Timestamp, b: Timestamp)
    requires AllAligned(size, nodes) && nodes != [] && Increasing(NodeTimes(nodes))
    requires NodeTimes(nodes)[|nodes| - 1] != [] && NodeTimes(nodes)[|nodes| - 1][0] > b
    ensures InRange(Samples(nodes), a, b) == []
  {
    var lists, m := NodeTimes(nodes), |nodes| - 1;
    forall k | 0 <= k < |nodes| ensures NoneInside(NodeSamples(nodes[k]), a, b) {
      NodeRows(size, nodes[k]);
      assert k < m ==> Precedes(lists[m], lists[k]);
      assert Climbs(lists[k]);
    }
    OnlyOldestCounts(nodes, a, b);
    NoneInsideIsEmpty(NodeSamples(nodes[m]), a, b);
  }

  /** When all of the oldest node is after `b`, something is returned all the same. */
  lemma OldestTooLate(size: nat, nodes: seq<Node>, a: Timestamp, b: Timestamp, start: Ref, end: Ref)
    requires AllAligned(size, nodes) && Found(NodeTimes(nodes), a, b, start, end) && a <= b
    requires start.node == |nodes| - 1 && NodeTimes(nodes)[|nodes| - 1][0] > b
    ensures Part(nodes, start, end, |nodes| - 1) != []
  {
    OldestPart(size, nodes, a, b, start, end);
    assert NodeTimes(nodes)[|nodes| - 1] != [];
    assert IsSample(NodeTimes(nodes), |nodes| - 1, 0);
  }

  // ---------------------------------------------------------------- the replies

  /**
   One node: the reply is the first `limit` samples with `a <= t <= b`, in order, timestamps and
   rows in step, exactly when the series begins no later than `b` or nothing may be returned.
   */
  lemma OneNodeReply(size: nat, nodes: seq<Node>, a: Timestamp, b: Timestamp, start: Ref, end: Ref, slices: seq<Slice>, limit: Option<nat>)
    requires |nodes| == 1 && AllAligned(size, nodes) && Found(NodeTimes(nodes), a, b, start, end) && a <= b
    requires AllHold(slices, RangeSamples(nodes, start, end))
    ensures AllRowed(slices, size)
    ensures Holds(Reply(slices, size, limit), Wanted(nodes, a, b, limit)) <==>
              limit == Some(0) || NodeTimes(nodes)[0][0] <= b
  {
    OldestReply(size, nodes, a, b, start, end, slices, limit);
    if NodeTimes(nodes)[0][0] <= b {
      OldestInRange(size, nodes, a, b, start, end);
      OnlyOldestCounts(nodes, a, b);
    } else {
      OldestTooLate(size, nodes, a, b, start, end);
      AllTooLate(size, nodes, a, b);
      assert Wanted(nodes, a, b, limit) == [];
    }
  }

  /** A tail that is not short begins with the first sample of the last slice. */
  lemma {:induction false} FullTailLeads(slices: seq<Slice>, skip: nat, size: nat)
    requires AllRowed(slices, size) && slices != [] && slices[|slices| - 1].times != []
    requires skip < Total(slices) && |Tail(slices, skip, size).times| == Total(slices) - skip
    ensures Tail(slices, skip, size).times[0] == slices[|slices| - 1].times[0]
  {
    TailStep(slices, 0, skip, size);
    assert slices[0..] == slices;
    if |slices| > 1 {
      var kept := SatSub(|slices[0].times|, skip);
      TailFits(slices[1..], SatSub(skip, kept), size);
      LastCounts(slices[1..]);
      FullTailLeads(slices[1..], SatSub(skip, kept), size);
    } else {
      assert slices[1..] == [];
    }
  }

  lemma {:induction false} LastCounts(slices: seq<Slice>)
    requires slices != [] && slices[|slices| - 1].times != []
    ensures Total(slices) > 0
  {
    if |slices| > 1 {
      LastCounts(slices[1..]);
    }
  }

  /** A reply begins with the first sample of the oldest slice, or with a zero nothing was copied to. */
  lemma ReplyFront(slices: seq<Slice>, size: nat, limit: Option<nat>)
    requires AllRowed(slices, size) && slices != [] && slices[|slices| - 1].times != [] && limit != Some(0)
    ensures var times := Reply(slices, size, limit).times;
            times != [] && (times[0] == slices[|slices| - 1].times[0] || (limit.Some? && times[0] == 0))
  {
    LastCounts(slices);
    var total := Total(slices);
    var skip := total - ReplyLen(total, limit);
    TailFits(slices, skip, size);
    if limit.None? {
      NothingSkipped(slices, size);
    }
    if |Tail(slices, skip, size).times| == total - skip {
      FullTailLeads(slices, skip, size);
    }
  }

  /** No answer that begins before `a` is what was asked for. */
  lemma EarlyReplyFails(nodes: seq<Node>, a: Timestamp, b: Timestamp, limit: Option<nat>, reply: Slice)
    requires reply.times != [] && reply.times[0] < a
    ensures !Holds(reply, Wanted(nodes, a, b, limit))
  {
    var w := Wanted(nodes, a, b, limit);
    if |w| > 0 {
      assert w[0] == InRange(Samples(nodes), a, b)[0];
      InRangeMembers(Samples(nodes), a, b, w[0]);
    }
  }

  /** Seen from a newer start, the part of the oldest node begins with its first sample. */
  lemma OldestPartLeads(size: nat, nodes: seq<Node>, a: Timestamp, b: Timestamp, start: Ref, end: Ref)
    requires AllAligned(size, nodes) && Found(NodeTimes(nodes), a, b, start, end) && start.node < |nodes| - 1
    ensures Part(nodes, start, end, |nodes| - 1) != []
    ensures Part(nodes, start, end, |nodes| - 1)[0].timestamp < a
  {
    var lists, m := NodeTimes(nodes), |nodes| - 1;
    NodeRows(size, nodes[m]);
    assert lists[m] != [] && IsSample(lists, m, 0);
    BeforeStart(lists, a, b, start, end, m, 0);
  }

  /** A range that starts in a newer node answers with the oldest node as well, or with zeros. */
  lemma NewerStartFails(
    size: nat, nodes: seq<Node>, a: Timestamp, b: Timestamp, start: Ref, end: Ref, slices: seq<Slice>, limit: Option<nat>)
    requires AllAligned(size, nodes) && Found(NodeTimes(nodes), a, b, start, end)
    requires start.node < |nodes| - 1 && AllHold(slices, RangeSamples(nodes, start, end))
    requires limit != Some(0) && (limit.None? || a > 0)
    ensures AllRowed(slices, size)
    ensures !Holds(Reply(slices, size, limit), Wanted(nodes, a, b, limit))
  {
    HeldIsRowed(size, nodes, start, end, slices);
    OldestPartLeads(size, nodes, a, b, start, end);
    var part := Part(nodes, start, end, |nodes| - 1);
    assert slices[|slices| - 1].times == TimesOf(part);
    ReplyFront(slices, size, limit);
    assert Reply(slices, size, limit).times[0] < a;
    EarlyReplyFails(nodes, a, b, limit, Reply(slices, size, limit));
  }

  /** What is asked of the oldest node comes first in what is asked of all. */
  lemma {:induction false} OldestComesFirst(nodes: seq<Node>, a: Timestamp, b: Timestamp)
    requires nodes != []
    ensures InRange(NodeSamples(nodes[|nodes| - 1]), a, b) <= InRange(Samples(nodes), a, b)
  {
    InRangeConcat(Samples(nodes[1..]), NodeSamples(nodes[0]), a, b);
    if |nodes| > 1 {
      OldestComesFirst(nodes[1..], a, b);
    } else {
      assert Samples(nodes[1..]) == [] && [] + NodeSamples(nodes[0]) == NodeSamples(nodes[0]);
    }
  }

  lemma NodesPrecede(size: nat, nodes: seq<Node>, m: nat, k: nat, o: Sample, s: Sample)
    requires AllAligned(size, nodes) && Increasing(NodeTimes(nodes)) && k < m < |nodes|
    requires o in NodeSamples(nodes[m]) && s in NodeSamples(nodes[k])
    ensures o.timestamp < s.timestamp
  {
    var lists := NodeTimes(nodes);
    NodeRows(size, nodes[k]);
    NodeRows(size, nodes[m]);
    assert Precedes(lists[m], lists[k]);
    var j :| 0 <= j < |NodeSamples(nodes[m])| && NodeSamples(nodes[m])[j] == o;
    var i :| 0 <= i < |NodeSamples(nodes[k])| && NodeSamples(nodes[k])[i] == s;
    assert lists[m][j] < lists[k][i];
  }

  lemma SomeNewer(nodes: seq<Node>, a: Timestamp, b: Timestamp) returns (k: nat, s: Sample)
    requires !NoneNewer(nodes, a, b)
    ensures k < |nodes| - 1 && s in NodeSamples(nodes[k]) && a <= s.timestamp <= b
  {
    k :| 0 <= k < |nodes| - 1 && !NoneInside(NodeSamples(nodes[k]), a, b);
    var i :| 0 <= i < |NodeSamples(nodes[k])| && a <= NodeSamples(nodes[k])[i].timestamp <= b;
    s := NodeSamples(nodes[k])[i];
  }

  /** More is wanted than the oldest node has exactly when a newer node has some. */
  lemma WantedLength(size: nat, nodes: seq<Node>, a: Timestamp, b: Timestamp)
    requires AllAligned(size, nodes) && nodes != [] && Increasing(NodeTimes(nodes))
    ensures var oldest, all := InRange(NodeSamples(nodes[|nodes| - 1]), a, b), InRange(Samples(nodes), a, b);
            oldest <= all && (|oldest| == |all| <==> NoneNewer(nodes, a, b))
  {
    var m := |nodes| - 1;
    var oldest, all := InRange(NodeSamples(nodes[m]), a, b), InRange(Samples(nodes), a, b);
    OldestComesFirst(nodes, a, b);
    if NoneNewer(nodes, a, b) {
      OnlyOldestCounts(nodes, a, b);
    } else {
      var k, s := SomeNewer(nodes, a, b);
      SampleOfNode(nodes, k, s);
      InRangeMembers(Samples(nodes), a, b, s);
      if |oldest| == |all| {
        assert s in oldest;
        InRangeMembers(NodeSamples(nodes[m]), a, b, s);
        NodesPrecede(size, nodes, m, k, s, s);
        assert false;
      }
    }
  }

  /** The range's samples in newer nodes do not matter: there are none, or the limit is reached before them. */
  predicate OldestSuffices(nodes: seq<Node>, a: Timestamp, b: Timestamp, limit: Option<nat>)
    requires nodes != []
  {
    || NoneNewer(nodes, a, b)
    || (limit.Some? && limit.value <= |InRange(NodeSamples(nodes[|nodes| - 1]), a, b)|)
  }

  /** Exactly the queries that are answered with what was asked for, however many nodes there are. */
  predicate Answerable(nodes: seq<Node>, a: Timestamp, b: Timestamp, limit: Option<nat>)
    requires nodes != [] && NoneEmpty(NodeTimes(nodes))
  {
    limit == Some(0) || (
      && LandsInOldest(NodeTimes(nodes), a)        // the range starts in the oldest node,
      && NodeTimes(nodes)[|nodes| - 1][0] <= b     // which begins no later than b,
      && OldestSuffices(nodes, a, b, limit))       // and it need go no further
  }

  /** The first `n` of two sequences, one of which begins with the other, agree unless `n` tells them apart. */
  lemma PrefixesAgree<T>(x: seq<T>, all: seq<T>, limit: Option<nat>)
    requires x <= all
    ensures x[..ReplyLen(|x|, limit)] == all[..ReplyLen(|all|, limit)]
            <==> |x| == |all| || (limit.Some? && limit.value <= |x|)
  {
    assert |x| == |all| ==> x == all;
  }

  lemma HoldsOnlyOne(reply: Slice, x: seq<Sample>, y: seq<Sample>)
    requires Holds(reply, x) && Holds(reply, y)
    ensures |x| == |y|
  {
    assert |TimesOf(x)| == |TimesOf(y)|;
  }

  lemma OldestStartAnswers(
    size: nat, nodes: seq<Node>, a: Timestamp, b: Timestamp, start: Ref, end: Ref, reply: Slice, limit: Option<nat>)
    requires AllAligned(size, nodes) && Found(NodeTimes(nodes), a, b, start, end) && a <= b && limit != Some(0)
    requires start.node == |nodes| - 1
    requires var part := Part(nodes, start, end, |nodes| - 1); Holds(reply, part[..ReplyLen(|part|, limit)])
    ensures Holds(reply, Wanted(nodes, a, b, limit)) <==>
              NodeTimes(nodes)[|nodes| - 1][0] <= b && OldestSuffices(nodes, a, b, limit)
  {
    var part, all := Part(nodes, start, end, |nodes| - 1), InRange(Samples(nodes), a, b);
    if NodeTimes(nodes)[|nodes| - 1][0] <= b {
      OldestInRange(size, nodes, a, b, start, end);
      WantedLength(size, nodes, a, b);
      PrefixesAgree(part, all, limit);
      if Holds(reply, Wanted(nodes, a, b, limit)) {
        HoldsOnlyOne(reply, part[..ReplyLen(|part|, limit)], Wanted(nodes, a, b, limit));
      }
    } else {
      OldestTooLate(size, nodes, a, b, start, end);
      AllTooLate(size, nodes, a, b);
      if Holds(reply, Wanted(nodes, a, b, limit)) {
        HoldsOnlyOne(reply, part[..ReplyLen(|part|, limit)], Wanted(nodes, a, b, limit));
      }
    }
  }

  /** Nothing asked for, nothing answered. */
  lemma NothingAsked(slices: seq<Slice>, nodes: seq<Node>, a: Timestamp, b: Timestamp, size: nat)
    requires AllRowed(slices, size)
    ensures Holds(Reply(slices, size, Some(0)), Wanted(nodes, a, b, Some(0)))
  {
    assert Wanted(nodes, a, b, Some(0)) == [];
    assert |Reply(slices, size, Some(0)).data| == 0 * size;
  }

  /**
   For any number of nodes, a reply is what was asked for exactly when the query is answerable. With
   a limit, zeros that nothing was copied over can pass for samples at time zero, so there the range
   has to lie after it.
   */
  lemma AnyNodesReply(
    size: nat, nodes: seq<Node>, a: Timestamp, b: Timestamp, start: Ref, end: Ref, slices: seq<Slice>, limit: Option<nat>)
    requires AllAligned(size, nodes) && Found(NodeTimes(nodes), a, b, start, end) && a <= b
    requires AllHold(slices, RangeSamples(nodes, start, end))
    requires start.node == Chosen(NodeTimes(nodes), a, 0)
    requires limit.None? || a > 0 || |nodes| == 1
    ensures AllRowed(slices, size)
    ensures Holds(Reply(slices, size, limit), Wanted(nodes, a, b, limit)) <==> Answerable(nodes, a, b, limit)
  {
    HeldIsRowed(size, nodes, start, end, slices);
    IncreasingIsOrdered(NodeTimes(nodes));
    ChosenIsOldest(NodeTimes(nodes), a, 0);
    if limit == Some(0) {
      NothingAsked(slices, nodes, a, b, size);
    } else if start.node < |nodes| - 1 {
      NewerStartFails(size, nodes, a, b, start, end, slices, limit);
    } else {
      OldestReply(size, nodes, a, b, start, end, slices, limit);
      OldestStartAnswers(size, nodes, a, b, start, end, Reply(slices, size, limit), limit);
    }
  }

  // ---------------------------------------------------------------- the whole query

  datatype Outcome = Replied(reply: Slice) | OutOfBounds | Panicked

  /** Only the newest node can be empty: it is created just before its first sample is written. */
  predicate OlderNonEmpty(nodes: seq<Node>) {
    forall k | 0 < k < |nodes| :: Timestamps(nodes[k]) != []
  }

  method GetRange(nodes: seq<Node>, a: Timestamp, b: Timestamp) returns (r: Option<(Ref, Ref)>)
    requires Increasing(NodeTimes(nodes)) && OlderNonEmpty(nodes)
    ensures r.None? <==> nodes == [] || Timestamps(nodes[0]) == []
    ensures r.Some? ==> Found(NodeTimes(nodes), a, b, r.value.0, r.value.1)
    ensures r.Some? ==> r.value.0.node == Chosen(NodeTimes(nodes), a, 0)
    ensures r.Some? ==> RightNode(NodeTimes(nodes), a, Some(r.value.0)) && RightNode(NodeTimes(nodes), b, Some(r.value.1))
  {
    var lists := NodeTimes(nodes);
    IncreasingIsOrdered(lists);
    if nodes != [] && lists[0] == [] {
      assert MeetsEmpty(lists, a);
    }
    var start := Nearest(lists, a, false);
    if start.None? {
      return None;
    }
    assert NoneEmpty(lists);
    var end := Nearest(lists, b, true);
    if end.None? {
      return None;
    }
    return Some((start.value, end.value));
  }

  /**
   The whole query. What the reply holds is stated for every range, by the places `at` where the two
   searches landed; and exactly when it is what was asked for.
   */
  method GetTimeSeries(size: nat, nodes: seq<Node>, a: Timestamp, b: Timestamp, limit: Option<nat>)
    returns (r: Outcome, ghost at: (Ref, Ref), ghost parts: seq<seq<Sample>>, ghost kept: seq<nat>)
    requires AllAligned(size, nodes) && Increasing(NodeTimes(nodes)) && OlderNonEmpty(nodes)
    ensures r.OutOfBounds? <==> nodes == [] || NodeTimes(nodes)[0] == []
    ensures a <= b ==> !r.Panicked?
    ensures r.Replied? ==> Rowed(r.reply, size) && nodes != [] && NoneEmpty(NodeTimes(nodes))
    ensures r.Replied? ==>
              && Found(NodeTimes(nodes), a, b, at.0, at.1)
              && RightNode(NodeTimes(nodes), a, Some(at.0)) && RightNode(NodeTimes(nodes), b, Some(at.1))
              && LimitedAnswer(nodes, at.0, at.1, limit, size, r.reply, parts, kept)
              && (limit.None? ==> Holds(r.reply, Answer(nodes, at.0, at.1)))
    ensures r.Replied? && a <= b && (limit.None? || a > 0 || |nodes| == 1) ==>
              (Holds(r.reply, Wanted(nodes, a, b, limit)) <==> Answerable(nodes, a, b, limit))
  {
    var range := GetRange(nodes, a, b);
    at, parts, kept := (Ref(0, 0, 0), Ref(0, 0, 0)), [], [];
    if range.None? {
      r := OutOfBounds;
      return;
    }
    var (start, end) := range.value;
    at := (start, end);
    var slices := RangeSlices(size, nodes, start, end);
    if slices.None? {
      if a <= b {
        NeverBackwards(NodeTimes(nodes), a, b, start, end);
        assert false;
      }
      r := Panicked;
      return;
    }
    r, parts, kept := Answered(size, nodes, a, b, limit, start, end, slices.value);
  }

  method Answered(
    size: nat, nodes: seq<Node>, a: Timestamp, b: Timestamp, limit: Option<nat>, ghost start: Ref, ghost end: Ref,
    slices: seq<Slice>) returns (r: Outcome, ghost parts: seq<seq<Sample>>, ghost kept: seq<nat>)
    requires AllAligned(size, nodes) && Found(NodeTimes(nodes), a, b, start, end)
    requires AllHold(slices, RangeSamples(nodes, start, end)) && start.node == Chosen(NodeTimes(nodes), a, 0)
    ensures r.Replied? && Rowed(r.reply, size)
    ensures LimitedAnswer(nodes, start, end, limit, size, r.reply, parts, kept)
    ensures limit.None? ==> Holds(r.reply, Answer(nodes, start, end))
    ensures a <= b && (limit.None? || a > 0 || |nodes| == 1) ==>
              (Holds(r.reply, Wanted(nodes, a, b, limit)) <==> Answerable(nodes, a, b, limit))
  {
    HeldIsRowed(size, nodes, start, end, slices);
    var reply := Fill(slices, size, limit);
    parts := RangeSamples(nodes, start, end);
    kept := ReplyIsLimitedAnswer(size, nodes, start, end, slices, limit);
    if limit.None? {
      ReplyIsAnswer(size, nodes, start, end, slices);
    }
    if a <= b && (limit.None? || a > 0 || |nodes| == 1) {
      AnyNodesReply(size, nodes, a, b, start, end, slices, limit);
    }
    r := Replied(reply);
  }

  /** Two nodes of one sample each, stored at 5 and 10: asked for 5 to 10, the reply lacks the second. */
  method TwoNodeQuery(row: seq<byte>) returns (r: Outcome)
    requires |row| == 8
    ensures r.Replied?
    ensures !Holds(r.reply, Wanted(Persist.StoreAll(8, [], [Sample(5, row), Sample(10, row)]), 5, 10, None))
  {
    TwoNodesStored(row);
    var nodes := [Node(10, 8, TimestampToLe(10), row), Node(5, 8, TimestampToLe(5), row)];
    TwoNodeTimes(row);
    ghost var at, parts, kept;
    r, at, parts, kept := GetTimeSeries(8, nodes, 5, 10, None);
  }

  lemma TwoNodesStored(row: seq<byte>)
    requires |row| == 8
    ensures Persist.StoreAll(8, [], [Sample(5, row), Sample(10, row)]) ==
              [Node(10, 8, TimestampToLe(10), row), Node(5, 8, TimestampToLe(5), row)]
  {
    var xs := [Sample(5, row), Sample(10, row)];
    var one := [Node(5, 8, TimestampToLe(5), row)];
    Persist.PushBufRolls(8, [], 5, row);
    assert one + [] == one;
    assert one[0].start == 5 && !HasStart(one, 10);
    Persist.PushBufRolls(8, one, 10, row);
    var ys := xs[1..];
    assert ys == [Sample(10, row)] && ys[1..] == [];
    var two := Persist.StoreAll(8, one, ys);
    assert two == Persist.StoreAll(8, [Node(10, 8, TimestampToLe(10), row)] + one, ys[1..]);
    assert Persist.StoreAll(8, [], xs) == two;
  }

  lemma OneSampleNode(ts: Timestamp, row: seq<byte>)
    requires |row| == 8
    ensures var node := Node(ts, 8, TimestampToLe(ts), row);
            Aligned(8, node) && Timestamps(node) == [ts] && |NodeSamples(node)| == 1 && NodeSamples(node)[0].timestamp == ts
  {
    var node := Node(ts, 8, TimestampToLe(ts), row);
    TimestampRoundTrip(ts);
    assert TimestampToLe(ts)[0..8] == TimestampToLe(ts);
    NodeRows(8, node);
  }

  lemma TwoNodeTimes(row: seq<byte>)
    requires |row| == 8
    ensures var nodes := [Node(10, 8, TimestampToLe(10), row), Node(5, 8, TimestampToLe(5), row)];
            && AllAligned(8, nodes) && Increasing(NodeTimes(nodes)) && OlderNonEmpty(nodes)
            && NodeTimes(nodes) == [[10], [5]] && !NoneNewer(nodes, 5, 10)
  {
    var nodes := [Node(10, 8, TimestampToLe(10), row), Node(5, 8, TimestampToLe(5), row)];
    OneSampleNode(10, row);
    OneSampleNode(5, row);
    assert !NoneInside(NodeSamples(nodes[0]), 5, 10);
  }

  // ---------------------------------------------------------------- the packet

  function TimeBytes(times: Times): (bytes: seq<byte>)
    ensures |bytes| == 8 * |times|
  {
    if times == [] then [] else TimestampToLe(times[0]) + TimeBytes(times[1..])
  }

  /** Sample count, then all timestamps, then all rows. */
  function ReplyBody(reply: Slice): seq<byte> {
    ToLe(|reply.times|, 8) + (TimeBytes(reply.times) + reply.data)
  }

  /** Builds the reply in a packet that may hold an earlier one; the prefix is set by hand. */
  method WriteReply(pkt: Packets.LenPacket, id: VTables.PacketId, requestId: byte, reply: Slice, size: nat)
    requires pkt.Valid() && Rowed(reply, size)
    modifies pkt
    ensures pkt.inner == Packets.Wire(Packets.TIME_SERIES, id, requestId, ReplyBody(reply))
  {
    pkt.inner := pkt.inner[..4] + [Packets.TIME_SERIES, id.0, id.1, requestId] + pkt.inner[8..];
    pkt.Clear();
    assert pkt.Header() == [Packets.TIME_SERIES, id.0, id.1, requestId];
    var len := |reply.times|;
    pkt.ExtendFromSlice(ToLe(len, 8));
    ghost var started := pkt.inner;
    pkt.inner := pkt.inner + (TimeBytes(reply.times) + reply.data);
    var pktLen := 8 + len * 8 + len * size + 4;
    pkt.inner := ToLe(pktLen, 4) + pkt.inner[4..];
    WireParts(started, [Packets.TIME_SERIES, id.0, id.1, requestId], ToLe(len, 8), TimeBytes(reply.times) + reply.data);
  }

  lemma WireParts(inner: seq<byte>, header: seq<byte>, count: seq<byte>, rest: seq<byte>)
    requires |header| == 4 && |inner| == 8 + |count| && inner[4..8] == header && inner[8..] == count
    ensures (inner + rest)[4..] == header + (count + rest)
  {
    assert inner[4..] == header + count;
  }

  /** A client's view of the body: the timestamps and the rest, or too few bytes. */
  function ClientTimes(len: nat, body: seq<byte>): Option<Times> {
    if 8 + 8 * len > |body| then None
    else Some(seq(len, i requires 0 <= i < len => TimestampFromLe(body[8 + 8 * i..8 + 8 * i + 8])))
  }

  function ClientData(len: nat, body: seq<byte>): Option<seq<byte>> {
    if 8 + 8 * len > |body| then None else Some(body[8 + 8 * len..])
  }

  lemma {:induction false} TimeBytesAt(times: Times, i: nat)
    requires i < |times|
    ensures TimeBytes(times)[8 * i..8 * i + 8] == TimestampToLe(times[i])
  {
    if i > 0 {
      TimeBytesAt(times[1..], i - 1);
      assert TimeBytes(times)[8 * i..8 * i + 8] == TimeBytes(times[1..])[8 * (i - 1)..8 * (i - 1) + 8];
    }
  }

  lemma BodyParts(reply: Slice)
    ensures var body, len := ReplyBody(reply), |reply.times|;
            && |body| == 8 + 8 * len + |reply.data|
            && body[..8] == ToLe(len, 8)
            && body[8..8 + 8 * len] == TimeBytes(reply.times)
            && body[8 + 8 * len..] == reply.data
  {
  }

  lemma ClientSplits(reply: Slice)
    ensures ClientTimes(|reply.times|, ReplyBody(reply)) == Some(reply.times)
    ensures ClientData(|reply.times|, ReplyBody(reply)) == Some(reply.data)
  {
    var body, len := ReplyBody(reply), |reply.times|;
    BodyParts(reply);
    forall i | 0 <= i < len ensures TimestampFromLe(body[8 + 8 * i..8 + 8 * i + 8]) == reply.times[i] {
      assert body[8 + 8 * i..8 + 8 * i + 8] == body[8..8 + 8 * len][8 * i..8 * i + 8];
      TimeBytesAt(reply.times, i);
      TimestampRoundTrip(reply.times[i]);
    }
    assert ClientTimes(len, body).value == reply.times;
  }

  lemma WireTail(prefix: seq<byte>, header: seq<byte>, body: seq<byte>)
    requires |prefix| == 4
    ensures (prefix + header + body)[4..] == header + body
  {
  }

  lemma ParseContent(id: VTables.PacketId, requestId: byte, body: seq<byte>)
    requires |body| >= 8
    ensures Packets.Parse([Packets.TIME_SERIES, id.0, id.1, requestId] + body) ==
              Ok(Packets.TimeSeriesPacket(id, requestId, FromLe(body[..8]), body))
  {
    assert ([Packets.TIME_SERIES, id.0, id.1, requestId] + body)[4..] == body;
  }

  /** A time-series frame parses to its count and body. */
  lemma ParseTimeSeries(id: VTables.PacketId, requestId: byte, body: seq<byte>, len: nat)
    requires len < Bytes.U64 && |body| >= 8 && body[..8] == ToLe(len, 8)
    ensures Packets.Parse(Packets.Wire(Packets.TIME_SERIES, id, requestId, body)[4..]) ==
              Ok(Packets.TimeSeriesPacket(id, requestId, len, body))
  {
    PowersOf256();
    FromLeToLe(len, 8);
    WireTail(ToLe(Packets.PACKET_HEADER_LEN + |body|, 4), [Packets.TIME_SERIES, id.0, id.1, requestId], body);
    ParseContent(id, requestId, body);
  }

  /** What the client parses from the frame is the reply. */
  lemma ClientReadsReply(id: VTables.PacketId, requestId: byte, reply: Slice)
    requires |reply.times| < Bytes.U64
    ensures var body := ReplyBody(reply);
            && Packets.Parse(Packets.Wire(Packets.TIME_SERIES, id, requestId, body)[4..]) ==
                 Ok(Packets.TimeSeriesPacket(id, requestId, |reply.times|, body))
            && ClientTimes(|reply.times|, body) == Some(reply.times)
            && ClientData(|reply.times|, body) == Some(reply.data)
  {
    ClientSplits(reply);
    BodyParts(reply);
    ParseTimeSeries(id, requestId, ReplyBody(reply), |reply.times|);
  }

  lemma ReplyIsFrame(id: VTables.PacketId, requestId: byte, reply: Slice, tail: seq<byte>)
    ensures var p := Packets.TimeSeriesPacket(id, requestId, |reply.times|, ReplyBody(reply));
            Flatten(Framing.Frames(Packets.Contents([p]), 4)) + tail
            == Packets.Wire(Packets.TIME_SERIES, id, requestId, ReplyBody(reply)) + tail
  {
    var p := Packets.TimeSeriesPacket(id, requestId, |reply.times|, ReplyBody(reply));
    Packets.WireIsFrame(Packets.TIME_SERIES, id, requestId, ReplyBody(reply));
    var frames := Framing.Frames(Packets.Contents([p]), 4);
    assert Packets.Contents([p]) == [Packets.Content(p)];
    assert frames == [Framing.FrameOf(Packets.Content(p), 4)];
    assert Flatten(frames) == frames[0] + Flatten(frames[1..]) == frames[0];
  }

  /**
   The client's side of a connection: whatever the chunking, a reply shorter than 2^32 bytes is cut
   from the stream by its prefix and read back as it was sent.
   */
  method ReceiveReply(
    reader: Framing.LengthDelReader, len: nat, ghost id: VTables.PacketId, ghost requestId: byte, ghost reply: Slice,
    ghost tail: seq<byte>) returns (times: Option<Times>, data: Option<seq<byte>>)
    requires reader.prefix == 4 && |reader.scratch| <= len
    requires 4 + |ReplyBody(reply)| < Bytes.U32 && 8 + |ReplyBody(reply)| <= len
    requires reader.Unread() == Packets.Wire(Packets.TIME_SERIES, id, requestId, ReplyBody(reply)) + tail
    modifies reader
    ensures times == Some(reply.times) && data == Some(reply.data)
    ensures reader.Unread() == tail
  {
    ghost var p := Packets.TimeSeriesPacket(id, requestId, |reply.times|, ReplyBody(reply));
    ReplyIsFrame(id, requestId, reply, tail);
    BodyParts(reply);
    PowersOf256();
    FromLeToLe(|reply.times|, 8);
    var out := Packets.ReceivePackets(reader, len, [p], 1, tail);
    assert out[0] == Ok(p);
    var packet := out[0].value;
    ClientSplits(reply);
    return ClientTimes(packet.len, packet.body), ClientData(packet.len, packet.body);
  }
}

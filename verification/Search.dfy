/**
 Searching a time series: the sample nearest to a time, over a list of nodes kept newest first.
 A node is seen here as its timestamps.
 */
module Search {
  import opened Bytes

  type Times = seq<Timestamp>

  /** Where a search landed. `timestamp` is what the search reports, not always the sample's own time. */
  datatype Ref = Ref(node: nat, index: nat, timestamp: Timestamp)

  // ---------------------------------------------------------------- order

  predicate Sorted(times: Times) {
    forall i, j | 0 <= i < j < |times| :: times[i] <= times[j]
  }

  predicate NotAfter(x: Times, y: Times) {
    forall i, j | 0 <= i < |x| && 0 <= j < |y| :: x[i] <= y[j]
  }

  /** Each node ascending, and every node no later than the nodes pushed after it. */
  predicate Ordered(nodes: seq<Times>) {
    && (forall k | 0 <= k < |nodes| :: Sorted(nodes[k]))
    && (forall j, k | 0 <= j < k < |nodes| :: NotAfter(nodes[k], nodes[j]))
  }

  predicate IsSample(nodes: seq<Times>, k: int, i: int) {
    0 <= k < |nodes| && 0 <= i < |nodes[k]|
  }

  // ---------------------------------------------------------------- what a search means

  /** Sample `(k, i)` was stored before the place `at`. */
  predicate Before(at: Ref, k: int, i: int) {
    k > at.node || (k == at.node && i < at.index)
  }

  /** `at` is a place where `q` could be inserted, and holds a sample at `q` if there is one. */
  ghost predicate InsertionPoint(nodes: seq<Times>, q: Timestamp, at: Ref) {
    && at.node < |nodes| && at.index <= |nodes[at.node]|
    && (forall k, i | IsSample(nodes, k, i) :: if Before(at, k, i) then nodes[k][i] <= q else nodes[k][i] >= q)
    && (Stored(nodes, q) ==> IsSample(nodes, at.node, at.index) && nodes[at.node][at.index] == q)
  }

  ghost predicate Stored(nodes: seq<Times>, q: Timestamp) {
    exists k, i | IsSample(nodes, k, i) :: nodes[k][i] == q
  }

  /** `at` is a sample next to `q`: none lies strictly between, and it is at `q` if any is. */
  ghost predicate Neighbour(nodes: seq<Times>, q: Timestamp, at: Ref) {
    && IsSample(nodes, at.node, at.index)
    && (forall k, i | IsSample(nodes, k, i) :: NotBetween(nodes[at.node][at.index], nodes[k][i], q))
  }

  predicate NotBetween(s: Timestamp, x: Timestamp, q: Timestamp) {
    !(s < x <= q) && !(q <= x < s)
  }

  /** The time reported: the sample's own if `q` falls inside the node, else that of its other end. */
  predicate Reports(times: Times, q: Timestamp, at: Ref) {
    times != [] && (
      if q > times[|times| - 1] then at.timestamp == times[0]
      else if q < times[0] then at.index == 0 && at.timestamp == times[|times| - 1]
      else at.index < |times| && at.timestamp == times[at.index])
  }

  /**
   Where a search may land: on a neighbour of `q` if inclusive, after it only at the start of a
   node; on its insertion point if not.
   */
  ghost predicate Landed(nodes: seq<Times>, q: Timestamp, inclusive: bool, at: Ref) {
    && (inclusive ==> Neighbour(nodes, q, at) && (nodes[at.node][at.index] > q ==> at.index == 0))
    && (!inclusive ==> InsertionPoint(nodes, q, at))
    && at.node < |nodes| && Reports(nodes[at.node], q, at)
  }

  /** The search meets an empty node before it is decided. */
  predicate MeetsEmpty(nodes: seq<Times>, q: Timestamp) {
    exists k | 0 <= k < |nodes| :: nodes[k] == [] && Passes(nodes, k, q)
  }

  /** The newest `k` nodes all begin after `q`. */
  predicate Passes(nodes: seq<Times>, k: nat, q: Timestamp)
    requires k <= |nodes|
  {
    forall j | 0 <= j < k :: nodes[j] != [] && q < nodes[j][0]
  }

  predicate NoneEmpty(nodes: seq<Times>) {
    forall k | 0 <= k < |nodes| :: nodes[k] != []
  }

  /**
   Which node is chosen: the newest that begins no later than `q`, or, when `q` lies in the gap
   after it, its successor if that one's last sample is closer than this one's first.
   */
  function Chosen(nodes: seq<Times>, q: Timestamp, k: nat): (node: nat)
    requires k <= |nodes| && nodes != [] && NoneEmpty(nodes)
    ensures node < |nodes|
    decreases |nodes| - k
  {
    if k == |nodes| then k - 1
    else if q < nodes[k][0] then Chosen(nodes, q, k + 1)
    else if q > nodes[k][|nodes[k]| - 1] then Closer(nodes, q, k)
    else k
  }

  function Closer(nodes: seq<Times>, q: Timestamp, k: nat): (node: nat)
    requires k < |nodes| && nodes[k] != [] && (k > 0 ==> nodes[k - 1] != [])
    ensures node < |nodes|
  {
    if k > 0 && Dist(nodes[k - 1][|nodes[k - 1]| - 1], q) < Dist(nodes[k][0], q) then k - 1 else k
  }

  /** Node `k` is the newest that begins no later than `q`. */
  predicate Decides(nodes: seq<Times>, q: Timestamp, k: nat) {
    k < |nodes| && Passes(nodes, k, q) && nodes[k] != [] && nodes[k][0] <= q
  }

  /**
   Where the search lands when that is node `k`: in it, unless `q` lies after it and the last sample of
   the node above is closer to `q` than its own first one.
   */
  function NodeFrom(nodes: seq<Times>, q: Timestamp, k: nat): nat
    requires Decides(nodes, q, k)
  {
    if q <= nodes[k][|nodes[k]| - 1] then k
    else if k > 0 && nodes[k - 1][|nodes[k - 1]| - 1] - q < q - nodes[k][0] then k - 1
    else k
  }

  ghost predicate RightNode(nodes: seq<Times>, q: Timestamp, r: Option<Ref>) {
    forall k: nat | Decides(nodes, q, k) :: r.Some? && r.value.node == NodeFrom(nodes, q, k)
  }

  lemma OneDecides(nodes: seq<Times>, q: Timestamp, k: nat, r: Option<Ref>)
    requires Decides(nodes, q, k) && r.Some? && r.value.node == NodeFrom(nodes, q, k)
    ensures RightNode(nodes, q, r)
  {
    assert forall j: nat | Decides(nodes, q, j) :: j == k;
  }

  /** The scan stops short of deciding at the end of the list or at an empty node. */
  lemma NoneDecides(nodes: seq<Times>, q: Timestamp, k: nat, r: Option<Ref>)
    requires k <= |nodes| && Passes(nodes, k, q) && (k < |nodes| ==> nodes[k] == [])
    ensures RightNode(nodes, q, r)
  {
  }

  lemma FarEndsApart(nodes: seq<Times>, q: Timestamp, k: nat)
    requires Ordered(nodes) && k < |nodes| && Passes(nodes, k, q) && nodes[k] != [] && q > nodes[k][|nodes[k]| - 1]
    ensures nodes[k][0] < q && (k > 0 ==> nodes[k - 1] != [] && nodes[k - 1][|nodes[k - 1]| - 1] > q)
  {
    assert Sorted(nodes[k]);
    assert k > 0 ==> q < nodes[k - 1][0] && Sorted(nodes[k - 1]);
  }

  function Dist(x: int, y: int): nat {
    if x < y then y - x else x - y
  }

  // ---------------------------------------------------------------- the search

  /** Some index of `q`, or the place where it would go. */
  method BinarySearch(times: Times, q: Timestamp) returns (found: bool, i: nat)
    requires Sorted(times)
    ensures i <= |times|
    ensures found ==> i < |times| && times[i] == q
    ensures !found ==> (forall k | 0 <= k < i :: times[k] < q) && (forall k | i <= k < |times| :: times[k] > q)
  {
    var lo, hi := 0, |times|;
    while lo < hi
      invariant 0 <= lo <= hi <= |times|
      invariant forall k | 0 <= k < lo :: times[k] < q
      invariant forall k | hi <= k < |times| :: times[k] > q
    {
      var mid := lo + (hi - lo) / 2;
      if times[mid] == q {
        return true, mid;
      }
      if times[mid] < q {
        lo := mid + 1;
      } else {
        hi := mid;
      }
    }
    return false, lo;
  }

  /** `q` lies in the gap after node `k`: the closer of the two nodes around the gap. */
  method AfterNode(nodes: seq<Times>, k: nat, q: Timestamp, inclusive: bool, prev: Option<Ref>) returns (r: Option<Ref>)
    requires Ordered(nodes) && k < |nodes| && Passes(nodes, k, q) && nodes[k] != []
    requires q > nodes[k][|nodes[k]| - 1]
    requires prev == if k == 0 then None else Some(Ref(k - 1, 0, nodes[k - 1][|nodes[k - 1]| - 1]))
    ensures r.Some? && Landed(nodes, q, inclusive, r.value)
    ensures r.value.node == Closer(nodes, q, k)
    ensures r.value.node ==
              if k > 0 && nodes[k - 1][|nodes[k - 1]| - 1] - q < q - nodes[k][0] then k - 1 else k
  {
    var times := nodes[k];
    FarEndsApart(nodes, q, k);
    if prev.Some? && Dist(prev.value.timestamp, q) < Dist(times[0], q) {
      PrevIsRight(nodes, k, q, prev.value);
      return prev;
    }
    var at := Ref(k, |times| - (if inclusive then 1 else 0), times[0]);
    LastIsRight(nodes, k, q, at);
    return Some(at);
  }

  /** `q` lies within node `k`. */
  method InNode(nodes: seq<Times>, k: nat, q: Timestamp, inclusive: bool) returns (r: Option<Ref>)
    requires Ordered(nodes) && k < |nodes| && Passes(nodes, k, q) && nodes[k] != []
    requires nodes[k][0] <= q <= nodes[k][|nodes[k]| - 1]
    ensures r.Some? && Landed(nodes, q, inclusive, r.value) && r.value.node == k
  {
    var times := nodes[k];
    var found, i := BinarySearch(times, q);
    var index := if found || !inclusive then i else i - 1;
    var at := Ref(k, index, times[index]);
    if inclusive {
      InsideNeighbour(nodes, k, q, at);
    } else {
      InsideInsertion(nodes, k, q, at);
    }
    return Some(at);
  }

  /** The newest node that begins no later than `q` decides. */
  method AtNode(nodes: seq<Times>, k: nat, q: Timestamp, inclusive: bool, prev: Option<Ref>) returns (r: Option<Ref>)
    requires Ordered(nodes) && Decides(nodes, q, k)
    requires prev == if k == 0 then None else Some(Ref(k - 1, 0, nodes[k - 1][|nodes[k - 1]| - 1]))
    ensures r.Some? && Landed(nodes, q, inclusive, r.value)
    ensures r.value.node == NodeFrom(nodes, q, k)
    ensures NoneEmpty(nodes) ==> r.value.node == Chosen(nodes, q, k)
  {
    if q > nodes[k][|nodes[k]| - 1] {
      r := AfterNode(nodes, k, q, inclusive, prev);
    } else {
      r := InNode(nodes, k, q, inclusive);
    }
  }

  /** All nodes begin after `q`, or an empty one stands in the way. */
  method Undecided(nodes: seq<Times>, k: nat, q: Timestamp, inclusive: bool, prev: Option<Ref>) returns (r: Option<Ref>)
    requires Ordered(nodes) && k <= |nodes| && Passes(nodes, k, q) && (k < |nodes| ==> nodes[k] == [])
    requires prev == if k == 0 then None else Some(Ref(k - 1, 0, nodes[k - 1][|nodes[k - 1]| - 1]))
    ensures r.None? <==> nodes == [] || MeetsEmpty(nodes, q)
    ensures r.Some? ==> Landed(nodes, q, inclusive, r.value) && k == |nodes| && r.value.node == |nodes| - 1
  {
    if k < |nodes| {
      return None;
    }
    NeverEmpty(nodes, q);
    if k > 0 {
      EarliestIsRight(nodes, q, prev.value);
    }
    return prev;
  }

  /** Passes over the nodes that begin after `q`, remembering the last of them. */
  method Scan(nodes: seq<Times>, q: Timestamp) returns (k: nat, prev: Option<Ref>)
    ensures k <= |nodes| && Passes(nodes, k, q)
    ensures k < |nodes| ==> nodes[k] == [] || q >= nodes[k][0]
    ensures prev == if k == 0 then None else Some(Ref(k - 1, 0, nodes[k - 1][|nodes[k - 1]| - 1]))
  {
    k, prev := 0, None;
    while k < |nodes|
      invariant 0 <= k <= |nodes| && Passes(nodes, k, q)
      invariant prev == if k == 0 then None else Some(Ref(k - 1, 0, nodes[k - 1][|nodes[k - 1]| - 1]))
    {
      var times := nodes[k];
      if times == [] || q >= times[0] {
        return;
      }
      prev := Some(Ref(k, 0, times[|times| - 1]));
      k := k + 1;
    }
  }

  /**
   Nothing is returned only for an empty list or when an empty node is met. Otherwise the
   inclusive search lands on a neighbour of `q` and the exclusive one on its insertion point.
   */
  method Nearest(nodes: seq<Times>, q: Timestamp, inclusive: bool) returns (r: Option<Ref>)
    requires Ordered(nodes)
    ensures r.None? <==> nodes == [] || MeetsEmpty(nodes, q)
    ensures r.Some? ==> Landed(nodes, q, inclusive, r.value)
    ensures nodes != [] && NoneEmpty(nodes) ==> r.Some? && r.value.node == Chosen(nodes, q, 0)
    ensures RightNode(nodes, q, r)
    ensures nodes != [] && Passes(nodes, |nodes|, q) ==> r.Some? && r.value.node == |nodes| - 1
  {
    var k, prev := Scan(nodes, q);
    if NoneEmpty(nodes) && nodes != [] {
      ChosenPasses(nodes, q, k);
    }
    if k == |nodes| || nodes[k] == [] {
      r := Undecided(nodes, k, q, inclusive, prev);
      NoneDecides(nodes, q, k, r);
    } else {
      DecidedAt(nodes, k, q);
      r := AtNode(nodes, k, q, inclusive, prev);
      OneDecides(nodes, q, k, r);
    }
  }

  lemma {:induction false} ChosenPasses(nodes: seq<Times>, q: Timestamp, k: nat)
    requires k <= |nodes| && Passes(nodes, k, q) && nodes != [] && NoneEmpty(nodes)
    ensures Chosen(nodes, q, 0) == Chosen(nodes, q, k)
  {
    if k > 0 {
      ChosenPasses(nodes, q, k - 1);
      assert q < nodes[k - 1][0];
    }
  }

  // ---------------------------------------------------------------- why it is right

  lemma DecidedAt(nodes: seq<Times>, k: nat, q: Timestamp)
    requires k < |nodes| && Passes(nodes, k, q) && nodes[k] != [] && q >= nodes[k][0]
    ensures !MeetsEmpty(nodes, q)
  {
  }

  lemma NeverEmpty(nodes: seq<Times>, q: Timestamp)
    requires Passes(nodes, |nodes|, q)
    ensures !MeetsEmpty(nodes, q)
  {
  }

  /** Nodes passed over hold only later samples, the oldest of them first. */
  lemma PassedAreLater(nodes: seq<Times>, k: nat, q: Timestamp)
    requires Ordered(nodes) && k <= |nodes| && Passes(nodes, k, q)
    ensures forall j, i | IsSample(nodes, j, i) && j < k :: nodes[j][i] >= nodes[k - 1][0] > q
  {
    forall j, i | IsSample(nodes, j, i) && j < k ensures nodes[j][i] >= nodes[k - 1][0] > q {
      assert nodes[k - 1] != [];
      if j < k - 1 {
        assert NotAfter(nodes[k - 1], nodes[j]);
      } else {
        assert Sorted(nodes[j]);
      }
    }
  }

  /** No sample of this node or an older one is later than this node's last. */
  lemma LastIsLatest(nodes: seq<Times>, k: nat)
    requires Ordered(nodes) && k < |nodes| && nodes[k] != []
    ensures forall j, i | IsSample(nodes, j, i) && j >= k :: nodes[j][i] <= nodes[k][|nodes[k]| - 1]
  {
    forall j, i | IsSample(nodes, j, i) && j >= k ensures nodes[j][i] <= nodes[k][|nodes[k]| - 1] {
      if j > k {
        assert NotAfter(nodes[j], nodes[k]);
      } else {
        assert Sorted(nodes[k]);
      }
    }
  }

  lemma PrevIsRight(nodes: seq<Times>, k: nat, q: Timestamp, at: Ref)
    requires Ordered(nodes) && 0 < k < |nodes| && Passes(nodes, k, q) && nodes[k] != []
    requires q > nodes[k][|nodes[k]| - 1]
    requires at == Ref(k - 1, 0, nodes[k - 1][|nodes[k - 1]| - 1])
    ensures Neighbour(nodes, q, at) && InsertionPoint(nodes, q, at) && Reports(nodes[k - 1], q, at)
  {
    PassedAreLater(nodes, k, q);
    LastIsLatest(nodes, k);
    assert IsSample(nodes, k - 1, |nodes[k - 1]| - 1);
  }

  lemma LastIsRight(nodes: seq<Times>, k: nat, q: Timestamp, at: Ref)
    requires Ordered(nodes) && k < |nodes| && Passes(nodes, k, q) && nodes[k] != []
    requires q > nodes[k][|nodes[k]| - 1]
    requires at.node == k && at.timestamp == nodes[k][0]
    ensures at.index == |nodes[k]| - 1 ==> Neighbour(nodes, q, at)
    ensures at.index == |nodes[k]| ==> InsertionPoint(nodes, q, at)
  {
    PassedAreLater(nodes, k, q);
    LastIsLatest(nodes, k);
  }

  /** Samples outside a node that spans `q`: the newer are later than `q`, the older earlier than the node. */
  lemma AroundNode(nodes: seq<Times>, k: nat, q: Timestamp)
    requires Ordered(nodes) && k < |nodes| && Passes(nodes, k, q) && nodes[k] != []
    ensures forall j, i | IsSample(nodes, j, i) && j < k :: nodes[j][i] > q
    ensures forall j, i | IsSample(nodes, j, i) && j > k :: nodes[j][i] <= nodes[k][0]
  {
    PassedAreLater(nodes, k, q);
    forall j, i | IsSample(nodes, j, i) && j > k ensures nodes[j][i] <= nodes[k][0] {
      assert NotAfter(nodes[j], nodes[k]);
    }
  }

  /** A match, or the last sample before `q`. */
  lemma InsideNeighbour(nodes: seq<Times>, k: nat, q: Timestamp, at: Ref)
    requires Ordered(nodes) && k < |nodes| && Passes(nodes, k, q)
    requires at.node == k && at.index < |nodes[k]| && nodes[k][at.index] <= q
    requires nodes[k][at.index] == q || forall i | at.index < i < |nodes[k]| :: nodes[k][i] > q
    ensures Neighbour(nodes, q, at)
  {
    AroundNode(nodes, k, q);
    assert Sorted(nodes[k]);
  }

  /** A match, or the first sample after `q`. */
  lemma InsideInsertion(nodes: seq<Times>, k: nat, q: Timestamp, at: Ref)
    requires Ordered(nodes) && k < |nodes| && Passes(nodes, k, q)
    requires at.node == k && at.index < |nodes[k]| && nodes[k][0] <= q <= nodes[k][at.index]
    requires nodes[k][at.index] == q || (nodes[k][0] < q && forall i | 0 <= i < at.index :: nodes[k][i] < q)
    ensures InsertionPoint(nodes, q, at)
  {
    AroundNode(nodes, k, q);
    assert Sorted(nodes[k]);
  }

  lemma EarliestIsRight(nodes: seq<Times>, q: Timestamp, at: Ref)
    requires Ordered(nodes) && nodes != [] && Passes(nodes, |nodes|, q)
    requires at == Ref(|nodes| - 1, 0, nodes[|nodes| - 1][|nodes[|nodes| - 1]| - 1])
    ensures Neighbour(nodes, q, at) && InsertionPoint(nodes, q, at) && Reports(nodes[|nodes| - 1], q, at)
  {
    PassedAreLater(nodes, |nodes|, q);
    assert IsSample(nodes, |nodes| - 1, |nodes[|nodes| - 1]| - 1);
  }

  // ---------------------------------------------------------------- what a caller can tell beforehand

  /**
   Whether a search lands in the oldest node: it is the only one, or the time is before the node
   above it and not in the gap between them nearer to the far end of that node.
   */
  predicate LandsInOldest(nodes: seq<Times>, q: Timestamp)
    requires nodes != [] && NoneEmpty(nodes)
  {
    var n := |nodes|;
    n == 1 || (
      var oldest, above := nodes[n - 1], nodes[n - 2];
      && q < above[0]
      && (q <= oldest[|oldest| - 1] || above[|above| - 1] - q >= q - oldest[0]))
  }

  lemma {:induction false} ChosenIsOldest(nodes: seq<Times>, q: Timestamp, k: nat)
    requires nodes != [] && NoneEmpty(nodes) && Ordered(nodes) && k < |nodes| && Passes(nodes, k, q)
    ensures Chosen(nodes, q, k) == |nodes| - 1 <==> LandsInOldest(nodes, q)
    decreases |nodes| - k
  {
    var n := |nodes|;
    if k == n - 1 {
      assert k > 0 ==> q < nodes[k - 1][0] && Sorted(nodes[k - 1]) && Sorted(nodes[k]);
    } else {
      assert k < n - 2 ==> NotAfter(nodes[n - 2], nodes[k]);
      assert Sorted(nodes[k]);
      if q < nodes[k][0] {
        ChosenIsOldest(nodes, q, k + 1);
      } else if k < n - 2 {
        assert nodes[n - 2][0] <= nodes[k][0];
      }
    }
  }

  /**
   The reported time is the sample's own exactly when the time searched for falls inside the node,
   or all of the node's samples have one time.
   */
  lemma ReportsOwnTime(nodes: seq<Times>, q: Timestamp, at: Ref)
    requires Ordered(nodes) && Landed(nodes, q, true, at)
    ensures var times := nodes[at.node];
            at.timestamp == times[at.index] <==>
              (times[0] <= q <= times[|times| - 1] || times[0] == times[|times| - 1])
  {
    var times := nodes[at.node];
    assert Sorted(times);
    assert IsSample(nodes, at.node, |times| - 1) && IsSample(nodes, at.node, 0);
    assert NotBetween(times[at.index], times[|times| - 1], q);
  }

  /** Past the end of two samples the second is found and the time of the first is reported. */
  method ReportsOtherTime() returns (r: Option<Ref>)
    ensures r.Some? && r.value.node == 0 && r.value.index == 1 && r.value.timestamp == 5
  {
    var nodes: seq<Times> := [[5, 7]];
    assert nodes[0] == [5, 7] && Sorted(nodes[0]);
    r := Nearest(nodes, 9, true);
    assert !MeetsEmpty(nodes, 9);
    assert IsSample(nodes, 0, 1) && IsSample(nodes, 0, 0);
    assert NotBetween(nodes[0][r.value.index], nodes[0][1], 9);
  }

  // ---------------------------------------------------------------- nearest, and not so near

  /** `at` is no further from `q` than any sample. */
  ghost predicate Closest(nodes: seq<Times>, q: Timestamp, at: Ref) {
    && IsSample(nodes, at.node, at.index)
    && (forall k, i | IsSample(nodes, k, i) :: Apart(nodes[at.node][at.index], q) <= Apart(nodes[k][i], q))
  }

  function Apart(x: int, y: int): (d: nat)
    ensures d == x - y || d == y - x
  {
    if x >= y then x - y else y - x
  }

  /**
   In a gap the far ends of the two nodes are compared, and the sample returned is at the near end of
   the one chosen. It is the closest if and only if the near ends compare the same way.
   */
  lemma ClosestInGapIff(nodes: seq<Times>, q: Timestamp, k: nat, at: Ref)
    requires Ordered(nodes) && 0 < k && Decides(nodes, q, k) && q > nodes[k][|nodes[k]| - 1]
    requires Landed(nodes, q, true, at) && at.node == NodeFrom(nodes, q, k)
    ensures var below, above := nodes[k][|nodes[k]| - 1], nodes[k - 1][0];
            Closest(nodes, q, at) <==> if at.node == k then q - below <= above - q else above - q <= q - below
  {
    var below, above := nodes[k][|nodes[k]| - 1], nodes[k - 1][0];
    PassedAreLater(nodes, k, q);
    LastIsLatest(nodes, k);
    assert IsSample(nodes, k, |nodes[k]| - 1) && IsSample(nodes, k - 1, 0);
    assert NotBetween(nodes[at.node][at.index], below, q) && NotBetween(nodes[at.node][at.index], above, q);
    var s := nodes[at.node][at.index];
    assert s == if at.node == k then below else above;
    assert Apart(below, q) == q - below && Apart(above, q) == above - q;
  }

  /** A sample one away is passed over for one eight away. */
  method NotTheNearest() returns (r: Option<Ref>)
    ensures r.Some? && r.value.node == 1 && r.value.index == 1 && !Closest([[10, 100], [0, 1]], 9, r.value)
  {
    var nodes: seq<Times> := [[10, 100], [0, 1]];
    assert nodes[0] == [10, 100] && nodes[1] == [0, 1];
    assert Sorted(nodes[0]) && Sorted(nodes[1]) && NotAfter(nodes[1], nodes[0]);
    assert Passes(nodes, 1, 9) && Decides(nodes, 9, 1);
    r := Nearest(nodes, 9, true);
    assert IsSample(nodes, 1, 1) && IsSample(nodes, 1, 0) && IsSample(nodes, 0, 0);
    assert NotBetween(nodes[1][r.value.index], nodes[1][1], 9);
    assert Apart(nodes[0][0], 9) == 1 && Apart(nodes[1][r.value.index], 9) == 8;
  }
}

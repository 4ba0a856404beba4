/**
 The lock-free list of nodes: pushes that retry a compare-and-swap on the head, and iterators
 that follow the links, in any interleaving of their single loads, stores and swaps.
 */
module AtomicStack {
  import opened Bytes

  /** What a node holds is not looked at. */
  type Value = nat

  datatype Node = Node(value: Value, prev: Option<nat>)

  /** A push under way, for the node it has allocated. */
  datatype Push =
    | Fresh                        // about to load the head
    | Loaded(head: Option<nat>)    // head loaded
    | Stored(head: Option<nat>)    // head stored as the node's link

  /** The next node to yield, what `next` has returned, and how many nodes the snapshot had. */
  datatype Iter = Iter(cursor: Option<nat>, yielded: seq<nat>, length: nat)

  /**
   `pushes` holds the pushes under way, each under the node it allocated; `published` lists the
   nodes in the order in which their swaps succeeded.
   */
  datatype State = State(
    nodes: seq<Node>,
    head: Option<nat>,
    pushes: map<nat, Push>,
    iters: map<nat, Iter>,
    published: seq<nat>)

  datatype Step =
    | Begin(value: Value)
    | LoadHead(node: nat)
    | StorePrev(node: nat)
    | Swap(node: nat, spurious: bool)   // a weak compare-and-swap may fail for no reason
    | NewIter(id: nat)
    | NextIter(id: nat)

  function Init(): State {
    State([], None, map[], map[], [])
  }

  predicate Enabled(s: State, step: Step) {
    match step
    case Begin(_) => true
    case LoadHead(n) => n in s.pushes && s.pushes[n].Fresh?
    case StorePrev(n) => n in s.pushes && s.pushes[n].Loaded? && n < |s.nodes|
    case Swap(n, _) => n in s.pushes && s.pushes[n].Stored?
    case NewIter(id) => id !in s.iters
    case NextIter(id) => id in s.iters && (s.iters[id].cursor.Some? ==> s.iters[id].cursor.value < |s.nodes|)
  }

  function Next(s: State, step: Step): State
    requires Enabled(s, step)
  {
    match step
    case Begin(v) =>
      s.(nodes := s.nodes + [Node(v, None)], pushes := s.pushes[|s.nodes| := Fresh])
    case LoadHead(n) => s.(pushes := s.pushes[n := Loaded(s.head)])
    case StorePrev(n) =>
      s.(nodes := s.nodes[n := s.nodes[n].(prev := s.pushes[n].head)], pushes := s.pushes[n := Stored(s.pushes[n].head)])
    case Swap(n, spurious) =>
      if !spurious && s.head == s.pushes[n].head
      then s.(head := Some(n), pushes := s.pushes - {n}, published := s.published + [n])
      else s.(pushes := s.pushes[n := Fresh])
    case NewIter(id) => s.(iters := s.iters[id := Iter(s.head, [], |s.published|)])
    case NextIter(id) =>
      var it := s.iters[id];
      if it.cursor.None? then s
      else s.(iters := s.iters[id := it.(cursor := s.nodes[it.cursor.value].prev, yielded := it.yielded + [it.cursor.value])])
  }

  // ---------------------------------------------------------------- the invariant

  /** The link below position `k` of the published nodes. */
  function Below(published: seq<nat>, k: nat): Option<nat>
    requires k <= |published|
  {
    if k == 0 then None else Some(published[k - 1])
  }

  /** Published node `k` is linked to the one below it and no push owns it any more. */
  predicate LinkOk(nodes: seq<Node>, pushes: map<nat, Push>, published: seq<nat>, k: nat)
    requires k < |published|
  {
    && published[k] < |nodes|
    && published[k] !in pushes
    && nodes[published[k]].prev == Below(published, k)
  }

  predicate Distinct(published: seq<nat>) {
    forall i, j | 0 <= i < j < |published| :: published[i] != published[j]
  }

  predicate Chained(s: State) {
    && s.head == Below(s.published, |s.published|)
    && (forall k | 0 <= k < |s.published| :: LinkOk(s.nodes, s.pushes, s.published, k))
    && Distinct(s.published)
  }

  predicate PushOk(nodes: seq<Node>, n: nat, p: Push) {
    n < |nodes| && (p.Stored? ==> nodes[n].prev == p.head)
  }

  predicate PushesOk(s: State) {
    forall n | n in s.pushes :: PushOk(s.nodes, n, s.pushes[n])
  }

  /** What is published from position `hi` down to position `lo`, newest first. */
  function Newest(published: seq<nat>, lo: nat, hi: nat): seq<nat>
    requires lo <= hi <= |published|
    decreases hi - lo
  {
    if lo >= hi then [] else Newest(published, lo + 1, hi) + [published[lo]]
  }

  /** An iterator has yielded the newest nodes of its snapshot and points at the next one. */
  predicate IterOk(published: seq<nat>, it: Iter) {
    && |it.yielded| <= it.length <= |published|
    && it.cursor == Below(published, it.length - |it.yielded|)
    && it.yielded == Newest(published, it.length - |it.yielded|, it.length)
  }

  /** No node is lost: its push has published it or is still under way. */
  predicate Accounted(s: State) {
    forall n | 0 <= n < |s.nodes| :: n in s.pushes || n in s.published
  }

  predicate Inv(s: State) {
    Chained(s) && PushesOk(s) && Accounted(s) && forall id | id in s.iters :: IterOk(s.published, s.iters[id])
  }

  // ---------------------------------------------------------------- preservation

  lemma {:induction false} NewestGrow(published: seq<nat>, n: nat, lo: nat, hi: nat)
    requires lo <= hi <= |published|
    ensures Newest(published + [n], lo, hi) == Newest(published, lo, hi)
    decreases hi - lo
  {
    if lo < hi {
      NewestGrow(published, n, lo + 1, hi);
    }
  }

  /** Steps of a push before its swap touch no published node. */
  lemma PushStepInv(s: State, step: Step)
    requires Inv(s) && Enabled(s, step)
    requires step.Begin? || step.LoadHead? || step.StorePrev? || (step.Swap? && Next(s, step).published == s.published)
    ensures Inv(Next(s, step))
  {
    var t := Next(s, step);
    forall k | 0 <= k < |t.published| ensures LinkOk(t.nodes, t.pushes, t.published, k) {
      assert LinkOk(s.nodes, s.pushes, s.published, k);
    }
    forall n | n in t.pushes ensures PushOk(t.nodes, n, t.pushes[n]) {
      if n in s.pushes {
        assert PushOk(s.nodes, n, s.pushes[n]);
      }
    }
  }

  lemma SwapChains(s: State, n: nat)
    requires Chained(s) && n in s.pushes && PushOk(s.nodes, n, s.pushes[n])
    requires s.pushes[n] == Stored(s.head)
    ensures Chained(s.(head := Some(n), pushes := s.pushes - {n}, published := s.published + [n]))
  {
    var pushes, published := s.pushes - {n}, s.published + [n];
    forall k | 0 <= k < |published|
      ensures LinkOk(s.nodes, pushes, published, k)
      ensures k < |s.published| ==> published[k] != n
    {
      if k < |s.published| {
        assert LinkOk(s.nodes, s.pushes, s.published, k);
        assert Below(published, k) == Below(s.published, k);
      }
    }
  }

  lemma SwapKeepsIter(published: seq<nat>, n: nat, it: Iter)
    requires IterOk(published, it)
    ensures IterOk(published + [n], it)
  {
    NewestGrow(published, n, it.length - |it.yielded|, it.length);
  }

  lemma SwapInv(s: State, n: nat)
    requires Inv(s) && n in s.pushes && s.pushes[n].Stored? && s.head == s.pushes[n].head
    ensures Inv(Next(s, Swap(n, false)))
  {
    var t := Next(s, Swap(n, false));
    assert PushOk(s.nodes, n, s.pushes[n]);
    SwapChains(s, n);
    forall m | m in t.pushes ensures PushOk(t.nodes, m, t.pushes[m]) {
      assert PushOk(s.nodes, m, s.pushes[m]);
    }
    forall id | id in t.iters ensures IterOk(t.published, t.iters[id]) {
      SwapKeepsIter(s.published, n, s.iters[id]);
    }
  }

  lemma IterAdvances(s: State, it: Iter)
    requires Chained(s) && IterOk(s.published, it) && it.cursor.Some?
    ensures it.cursor.value < |s.nodes|
    ensures IterOk(s.published, it.(cursor := s.nodes[it.cursor.value].prev, yielded := it.yielded + [it.cursor.value]))
  {
    var k := it.length - |it.yielded| - 1;
    assert LinkOk(s.nodes, s.pushes, s.published, k);
    assert Newest(s.published, k, it.length) == Newest(s.published, k + 1, it.length) + [s.published[k]];
  }

  lemma IterStepInv(s: State, step: Step)
    requires Inv(s) && Enabled(s, step) && (step.NewIter? || step.NextIter?)
    ensures Inv(Next(s, step))
  {
    var t := Next(s, step);
    forall id | id in t.iters ensures IterOk(t.published, t.iters[id]) {
      if id in s.iters {
        assert IterOk(s.published, s.iters[id]);
        if step == NextIter(id) && s.iters[id].cursor.Some? {
          IterAdvances(s, s.iters[id]);
        }
      }
    }
  }

  lemma StepInv(s: State, step: Step)
    requires Inv(s) && Enabled(s, step)
    ensures Inv(Next(s, step))
  {
    if step.NewIter? || step.NextIter? {
      IterStepInv(s, step);
    } else if step.Swap? && !step.spurious && s.head == s.pushes[step.node].head {
      SwapInv(s, step.node);
    } else {
      PushStepInv(s, step);
    }
  }

  // ---------------------------------------------------------------- runs

  predicate Run(ss: seq<State>, steps: seq<Step>) {
    && |ss| == |steps| + 1
    && ss[0] == Init()
    && forall i | 0 <= i < |steps| :: Enabled(ss[i], steps[i]) && ss[i + 1] == Next(ss[i], steps[i])
  }

  lemma {:induction false} RunInv(ss: seq<State>, steps: seq<Step>, i: nat)
    requires Run(ss, steps) && i < |ss|
    ensures Inv(ss[i])
  {
    if i > 0 {
      RunInv(ss, steps, i - 1);
      StepInv(ss[i - 1], steps[i - 1]);
    }
  }

  /** One step keeps what is published and every published node. */
  lemma StepKeepsPublished(s: State, step: Step)
    requires Inv(s) && Enabled(s, step)
    ensures s.published <= Next(s, step).published
    ensures forall k | 0 <= k < |s.published| :: KeptNode(s.nodes, Next(s, step).nodes, s.published[k])
  {
    forall k | 0 <= k < |s.published| ensures KeptNode(s.nodes, Next(s, step).nodes, s.published[k]) {
      assert LinkOk(s.nodes, s.pushes, s.published, k);
    }
  }

  predicate KeptNode(a: seq<Node>, b: seq<Node>, n: nat) {
    n < |a| && n < |b| && a[n] == b[n]
  }

  /** Order, links and values of what `s` has published are the same in `t`. */
  predicate Kept(s: State, t: State) {
    s.published <= t.published
    && forall k | 0 <= k < |s.published| :: KeptNode(s.nodes, t.nodes, s.published[k])
  }

  lemma KeptSelf(s: State)
    requires Inv(s)
    ensures Kept(s, s)
  {
    forall k | 0 <= k < |s.published| ensures KeptNode(s.nodes, s.nodes, s.published[k]) {
      assert LinkOk(s.nodes, s.pushes, s.published, k);
    }
  }

  lemma KeptTransitive(s: State, t: State, u: State)
    requires Kept(s, t) && Kept(t, u)
    ensures Kept(s, u)
  {
    forall k | 0 <= k < |s.published| ensures KeptNode(s.nodes, u.nodes, s.published[k]) {
      assert KeptNode(t.nodes, u.nodes, t.published[k]);
    }
  }

  /** Publication is permanent: order, links and values of published nodes never change. */
  lemma {:induction false} PublishedIsStable(ss: seq<State>, steps: seq<Step>, i: nat, j: nat)
    requires Run(ss, steps) && i <= j < |ss|
    ensures Kept(ss[i], ss[j])
    decreases j - i
  {
    if i < j {
      PublishedIsStable(ss, steps, i, j - 1);
      RunInv(ss, steps, j - 1);
      StepKeepsPublished(ss[j - 1], steps[j - 1]);
      KeptTransitive(ss[i], ss[j - 1], ss[j]);
    } else {
      RunInv(ss, steps, i);
      KeptSelf(ss[i]);
    }
  }

  /**
   Pushes are linearizable. A swap publishes its node if and only if the head is the one loaded and
   the exchange does not fail spuriously; then the node goes on top of everything published and its
   push is over. A swap that does not publish only sends its push back to the start, and no other
   step touches the head or what is published.
   */
  lemma PushIsAtomic(s: State, step: Step)
    requires Inv(s) && Enabled(s, step)
    ensures var t := Next(s, step);
            step.Swap? ==>
              var n := step.node;
              && n in s.pushes && n < |s.nodes| && n !in s.published && s.nodes[n].prev == s.pushes[n].head
              && (!step.spurious && s.head == s.pushes[n].head <==> t.published == s.published + [n])
              && (t.published == s.published + [n] ==>
                    t == s.(head := Some(n), pushes := s.pushes - {n}, published := s.published + [n]))
              && (t.published != s.published + [n] ==> t == s.(pushes := s.pushes[n := Fresh]))
    ensures !step.Swap? ==> Next(s, step).head == s.head && Next(s, step).published == s.published
  {
    if step.Swap? {
      assert PushOk(s.nodes, step.node, s.pushes[step.node]);
      forall k | 0 <= k < |s.published| ensures s.published[k] != step.node {
        assert LinkOk(s.nodes, s.pushes, s.published, k);
      }
    }
  }

  /** At every point of every run, each node ever allocated is published, just once, or its push is under way. */
  lemma EveryPushOnce(ss: seq<State>, steps: seq<Step>, i: nat, n: nat)
    requires Run(ss, steps) && i < |ss| && n < |ss[i].nodes|
    ensures n in ss[i].pushes <==> n !in ss[i].published
    ensures forall j, k | 0 <= j < |ss[i].published| && 0 <= k < |ss[i].published| ::
              ss[i].published[j] == n == ss[i].published[k] ==> j == k
  {
    RunInv(ss, steps, i);
    var s := ss[i];
    assert Distinct(s.published);
    assert n in s.published ==> exists k :: 0 <= k < |s.published| && s.published[k] == n && LinkOk(s.nodes, s.pushes, s.published, k) by {
      if n in s.published {
        var k :| 0 <= k < |s.published| && s.published[k] == n;
        assert LinkOk(s.nodes, s.pushes, s.published, k);
      }
    }
  }

  /** An iterator that has come to its end has yielded its snapshot, newest first. */
  lemma IterYieldsSnapshot(ss: seq<State>, steps: seq<Step>, made: nat, i: nat, id: nat)
    requires Run(ss, steps) && made < i < |ss| && steps[made] == NewIter(id)
    requires id in ss[i].iters && ss[i].iters[id].cursor.None?
    ensures |ss[made].published| <= |ss[i].published|
    ensures ss[i].iters[id].yielded == Newest(ss[made].published, 0, |ss[made].published|)
  {
    RunInv(ss, steps, made);
    RunInv(ss, steps, i);
    PublishedIsStable(ss, steps, made, i);
    IterLengthKept(ss, steps, made, i, id);
    var it := ss[i].iters[id];
    assert IterOk(ss[i].published, it);
    NewestPrefix(ss[made].published, ss[i].published, 0, it.length);
  }

  lemma {:induction false} NewestPrefix(a: seq<nat>, b: seq<nat>, lo: nat, hi: nat)
    requires a <= b && lo <= hi <= |a|
    ensures Newest(a, lo, hi) == Newest(b, lo, hi)
    decreases hi - lo
  {
    if lo < hi {
      NewestPrefix(a, b, lo + 1, hi);
    }
  }

  lemma {:induction false} IterLengthKept(ss: seq<State>, steps: seq<Step>, made: nat, i: nat, id: nat)
    requires Run(ss, steps) && made < i < |ss| && steps[made] == NewIter(id)
    ensures id in ss[i].iters && ss[i].iters[id].length == |ss[made].published|
    decreases i - made
  {
    if i == made + 1 {
      assert Enabled(ss[made], steps[made]) && ss[i] == Next(ss[made], steps[made]);
    } else {
      IterLengthKept(ss, steps, made, i - 1, id);
      assert Enabled(ss[i - 1], steps[i - 1]) && ss[i] == Next(ss[i - 1], steps[i - 1]);
    }
  }

  // ---------------------------------------------------------------- pushes and iterators get on

  lemma {:induction false} NewestAt(published: seq<nat>, lo: nat, hi: nat)
    requires lo <= hi <= |published|
    ensures |Newest(published, lo, hi)| == hi - lo
    ensures forall k | 0 <= k < hi - lo :: Newest(published, lo, hi)[k] == published[hi - 1 - k]
    decreases hi - lo
  {
    if lo < hi {
      NewestAt(published, lo + 1, hi);
    }
  }

  /**
   At every point an iterator has yielded the newest nodes of its snapshot, from the top down without a
   gap; it is at its end exactly when those are all; and until then every call yields one more.
   */
  lemma IterYieldsInOrder(ss: seq<State>, steps: seq<Step>, made: nat, i: nat, id: nat)
    requires Run(ss, steps) && made < i < |ss| && steps[made] == NewIter(id)
    ensures id in ss[i].iters
    ensures var it, n := ss[i].iters[id], |ss[made].published|;
            && |it.yielded| <= n
            && (forall k | 0 <= k < |it.yielded| :: it.yielded[k] == ss[made].published[n - 1 - k])
            && (it.cursor.None? <==> |it.yielded| == n)
            && (it.cursor.Some? ==>
                  && Enabled(ss[i], NextIter(id))
                  && Next(ss[i], NextIter(id)).iters[id].yielded == it.yielded + [ss[made].published[n - 1 - |it.yielded|]])
  {
    RunInv(ss, steps, i);
    PublishedIsStable(ss, steps, made, i);
    IterLengthKept(ss, steps, made, i, id);
    var it := ss[i].iters[id];
    assert IterOk(ss[i].published, it);
    NewestAt(ss[i].published, it.length - |it.yielded|, it.length);
    if it.cursor.Some? {
      assert LinkOk(ss[i].nodes, ss[i].pushes, ss[i].published, it.length - |it.yielded| - 1);
    }
  }

  /** A push that nobody disturbs, from wherever it starts anew, publishes its node on top. */
  lemma UndisturbedPush(s: State, n: nat) returns (t: State)
    requires Inv(s) && n in s.pushes && s.pushes[n].Fresh?
    ensures Enabled(s, LoadHead(n))
    ensures var s1 := Next(s, LoadHead(n));
            && Enabled(s1, StorePrev(n))
            && var s2 := Next(s1, StorePrev(n));
               Enabled(s2, Swap(n, false)) && t == Next(s2, Swap(n, false))
    ensures t.head == Some(n) && t.published == s.published + [n] && t.pushes == s.pushes - {n}
    ensures n < |s.nodes| && t.nodes == s.nodes[n := Node(s.nodes[n].value, s.head)] && t.iters == s.iters
  {
    assert PushOk(s.nodes, n, s.pushes[n]);
    t := Next(Next(Next(s, LoadHead(n)), StorePrev(n)), Swap(n, false));
  }

  lemma ValueKept(s: State, step: Step, n: nat)
    requires Enabled(s, step) && n < |s.nodes|
    ensures n < |Next(s, step).nodes| && Next(s, step).nodes[n].value == s.nodes[n].value
  {
  }

  /** Every node, published or not, holds what it was made with. */
  lemma {:induction false} NodeHoldsItsValue(ss: seq<State>, steps: seq<Step>, made: nat, i: nat, v: Value)
    requires Run(ss, steps) && made < i < |ss| && steps[made] == Begin(v)
    ensures |ss[made].nodes| < |ss[i].nodes| && ss[i].nodes[|ss[made].nodes|].value == v
  {
    assert Enabled(ss[i - 1], steps[i - 1]) && ss[i] == Next(ss[i - 1], steps[i - 1]);
    if made + 1 < i {
      NodeHoldsItsValue(ss, steps, made, i - 1, v);
      ValueKept(ss[i - 1], steps[i - 1], |ss[made].nodes|);
    }
  }
}

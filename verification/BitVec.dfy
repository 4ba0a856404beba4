/**
 The vector of "field filled" flags: 64-bit words, each kept as the set of its one bits, with
 the operations that the program performs on them.
 */
module BitVec {
  import opened Bytes

  type Word = set<nat>

  datatype BitVec = BitVec(words: seq<Word>, size: nat)

  /** The bits 0..n. */
  function Below(n: nat): (s: set<nat>)
    ensures forall b: nat :: b in s <==> b < n
    ensures |s| == n
  {
    if n == 0 then {} else Below(n - 1) + {n - 1}
  }

  lemma SubsetCount(a: set<nat>, b: set<nat>)
    requires a <= b
    ensures |a| <= |b|
    ensures |a| == |b| ==> a == b
  {
    assert b == a + (b - a);
    assert |b| == |a| + |b - a|;
  }

  /** Every bit of the word is below `n`. */
  predicate OnlyBelow(w: Word, n: nat) {
    forall b | b in w :: b < n
  }

  /** Every bit below `n` is in the word. */
  predicate AllBelow(w: Word, n: nat) {
    forall b: nat | b < n :: b in w
  }

  lemma OnlyBelowCount(w: Word, n: nat)
    requires OnlyBelow(w, n)
    ensures |w| <= n
    ensures |w| == n ==> AllBelow(w, n)
  {
    SubsetCount(w, Below(n));
  }

  lemma AllBelowCount(w: Word, n: nat)
    requires AllBelow(w, n)
    ensures |w| >= n
  {
    SubsetCount(Below(n), w);
  }

  // ---------------------------------------------------------------- operations

  function WordCount(size: nat): nat {
    (size + 63) / 64
  }

  function New(size: nat): BitVec {
    BitVec(seq(WordCount(size), i => {}), size)
  }

  /** Ors a bit into its word; writing `false` ors nothing. */
  function Set(v: BitVec, index: nat, value: bool): Option<BitVec> {
    if index >= v.size || index / 64 >= |v.words| then None
    else
      var w := v.words[index / 64];
      Some(v.(words := v.words[index / 64 := if value then w + {index % 64} else w]))
  }

  function Get(v: BitVec, index: nat): Option<bool> {
    if index >= v.size || index / 64 >= |v.words| then None
    else Some(index % 64 in v.words[index / 64])
  }

  /** Sum of the population counts of the words. */
  function Ones(words: seq<Word>): nat {
    if words == [] then 0 else |words[0]| + Ones(words[1..])
  }

  predicate AllSet(v: BitVec) {
    Ones(v.words) >= v.size
  }

  function SetAll(v: BitVec, value: bool): BitVec {
    v.(words := seq(|v.words|, i => if value then Below(64) else {}))
  }

  // ---------------------------------------------------------------- the object

  class AtomicBitVec {
    var words: seq<Word>
    const size: nat

    ghost function Abs(): BitVec
      reads this
    {
      BitVec(words, size)
    }

    constructor (size: nat)
      ensures Abs() == New(size)
    {
      this.size := size;
      words := seq((size + 63) / 64, i => {});
    }

    /** The popcount test, word by word. */
    method AllSetNow() returns (r: bool)
      ensures r == AllSet(Abs())
    {
      var sum, i := 0, 0;
      while i < |words|
        invariant 0 <= i <= |words|
        invariant sum + Ones(words[i..]) == Ones(words)
      {
        sum := sum + |words[i]|;
        i := i + 1;
      }
      r := sum >= size;
    }

    method Store(value: bool)
      modifies this
      ensures Abs() == SetAll(old(Abs()), value)
    {
      var i := 0;
      while i < |words|
        invariant 0 <= i <= |words| == |old(words)|
        invariant forall j | 0 <= j < i :: words[j] == if value then Below(64) else {}
      {
        words := words[i := if value then Below(64) else {}];
        i := i + 1;
      }
      assert words == SetAll(old(Abs()), value).words;
    }
  }

  // ---------------------------------------------------------------- what every run keeps

  /** Bits of word `w` that stand for an index below `size`. */
  function Room(size: nat, w: nat): nat {
    if size >= 64 * w + 64 then 64 else if size >= 64 * w then size - 64 * w else 0
  }

  predicate PaddingClear(v: BitVec) {
    forall w | 0 <= w < |v.words| :: OnlyBelow(v.words[w], Room(v.size, w))
  }

  predicate EveryBitSet(v: BitVec) {
    forall w | 0 <= w < |v.words| :: AllBelow(v.words[w], 64)
  }

  /** Either the padding bits are zero, or every bit of every word is one. */
  predicate Inv(v: BitVec) {
    && |v.words| == WordCount(v.size)
    && (PaddingClear(v) || EveryBitSet(v))
  }

  datatype Call = CallSet(index: nat, value: bool) | CallSetAll(value: bool)

  function Perform(v: BitVec, c: Call): BitVec {
    match c
    case CallSet(i, b) => if Set(v, i, b).Some? then Set(v, i, b).value else v
    case CallSetAll(b) => SetAll(v, b)
  }

  function PerformAll(v: BitVec, calls: seq<Call>): BitVec
    decreases |calls|
  {
    if calls == [] then v else PerformAll(Perform(v, calls[0]), calls[1..])
  }

  lemma SetKeepsPadding(v: BitVec, index: nat, value: bool)
    requires PaddingClear(v) && Set(v, index, value).Some?
    ensures PaddingClear(Set(v, index, value).value)
  {
    var v', i := Set(v, index, value).value, index / 64;
    forall w | 0 <= w < |v'.words| ensures OnlyBelow(v'.words[w], Room(v.size, w)) {
      assert OnlyBelow(v.words[w], Room(v.size, w));
      if w == i {
        assert index == 64 * i + index % 64;
      }
    }
  }

  lemma SetKeepsFull(v: BitVec, index: nat, value: bool)
    requires EveryBitSet(v) && Set(v, index, value).Some?
    ensures EveryBitSet(Set(v, index, value).value)
  {
    var v' := Set(v, index, value).value;
    forall w | 0 <= w < |v'.words| ensures AllBelow(v'.words[w], 64) {
      assert AllBelow(v.words[w], 64);
    }
  }

  lemma SetAllInv(v: BitVec, value: bool)
    requires |v.words| == WordCount(v.size)
    ensures if value then EveryBitSet(SetAll(v, value)) else PaddingClear(SetAll(v, value))
  {
  }

  lemma PerformInv(v: BitVec, c: Call)
    requires Inv(v)
    ensures Inv(Perform(v, c)) && Perform(v, c).size == v.size
    ensures PaddingClear(v) && c != CallSetAll(true) ==> PaddingClear(Perform(v, c))
  {
    match c
    case CallSetAll(b) => SetAllInv(v, b);
    case CallSet(i, b) =>
      if Set(v, i, b).Some? {
        if PaddingClear(v) {
          SetKeepsPadding(v, i, b);
        } else {
          SetKeepsFull(v, i, b);
        }
      }
  }

  lemma {:induction false} PerformAllInv(v: BitVec, calls: seq<Call>)
    requires Inv(v)
    ensures Inv(PerformAll(v, calls)) && PerformAll(v, calls).size == v.size
    decreases |calls|
  {
    if calls != [] {
      PerformInv(v, calls[0]);
      PerformAllInv(Perform(v, calls[0]), calls[1..]);
    }
  }

  // ---------------------------------------------------------------- what a flag reads

  /** What flag `i` reads after these calls: the last call that touches it decides, and lowering it alone is no such call. */
  predicate Raised(calls: seq<Call>, i: nat) {
    calls != [] &&
    var last := calls[|calls| - 1];
    if last.CallSetAll? then last.value
    else last == CallSet(i, true) || Raised(calls[..|calls| - 1], i)
  }

  lemma {:induction false} PerformAllSnoc(v: BitVec, calls: seq<Call>)
    requires calls != []
    ensures PerformAll(v, calls) == Perform(PerformAll(v, calls[..|calls| - 1]), calls[|calls| - 1])
    decreases |calls|
  {
    if |calls| > 1 {
      PerformAllSnoc(Perform(v, calls[0]), calls[1..]);
      assert calls[1..][..|calls| - 2] == calls[..|calls| - 1][1..];
    }
  }

  lemma GetAfterCall(v: BitVec, c: Call, i: nat)
    requires |v.words| == WordCount(v.size) && i < v.size
    ensures Get(Perform(v, c), i) ==
              if c.CallSetAll? then Some(c.value) else if c == CallSet(i, true) then Some(true) else Get(v, i)
    ensures |Perform(v, c).words| == WordCount(v.size) && Perform(v, c).size == v.size
  {
    assert i == 64 * (i / 64) + i % 64;
    if c.CallSet? {
      assert c.index == 64 * (c.index / 64) + c.index % 64;
    }
  }

  lemma {:induction false} ReadsAsRaisedAt(size: nat, calls: seq<Call>, i: nat)
    requires i < size
    ensures Get(PerformAll(New(size), calls), i) == Some(Raised(calls, i))
    ensures PerformAll(New(size), calls).size == size && |PerformAll(New(size), calls).words| == WordCount(size)
    decreases |calls|
  {
    if calls == [] {
      assert New(size).words[i / 64] == {};
    } else {
      ReadsAsRaisedAt(size, calls[..|calls| - 1], i);
      PerformAllSnoc(New(size), calls);
      GetAfterCall(PerformAll(New(size), calls[..|calls| - 1]), calls[|calls| - 1], i);
    }
  }

  /** Over any run of calls a flag reads as raised or not by the calls, and there is none past the size. */
  lemma ReadsAsRaised(size: nat, calls: seq<Call>, i: nat)
    ensures Get(PerformAll(New(size), calls), i) == if i < size then Some(Raised(calls, i)) else None
  {
    if i < size {
      ReadsAsRaisedAt(size, calls, i);
    } else {
      assert PaddingClear(New(size));
      PerformAllInv(New(size), calls);
    }
  }

  // ---------------------------------------------------------------- the popcount test

  /** All the bits that stand for an index are one. */
  predicate WordsFull(words: seq<Word>, size: nat) {
    forall w | 0 <= w < |words| :: AllBelow(words[w], Room(size, w))
  }

  lemma {:induction false} FullCount(words: seq<Word>, size: nat)
    requires |words| == WordCount(size) && WordsFull(words, size)
    ensures Ones(words) >= size
    decreases size
  {
    if words != [] {
      var rest := if size >= 64 then size - 64 else 0;
      forall w | 0 <= w < |words[1..]| ensures AllBelow(words[1..][w], Room(rest, w)) {
        assert AllBelow(words[w + 1], Room(size, w + 1));
      }
      FullCount(words[1..], rest);
      AllBelowCount(words[0], Room(size, 0));
    }
  }

  lemma {:induction false} CountFull(words: seq<Word>, size: nat)
    requires |words| == WordCount(size)
    requires forall w | 0 <= w < |words| :: OnlyBelow(words[w], Room(size, w))
    ensures Ones(words) <= size
    ensures Ones(words) == size ==> WordsFull(words, size)
    decreases size
  {
    if words != [] {
      var rest := if size >= 64 then size - 64 else 0;
      forall w | 0 <= w < |words[1..]| ensures OnlyBelow(words[1..][w], Room(rest, w)) {
        assert OnlyBelow(words[w + 1], Room(size, w + 1));
      }
      CountFull(words[1..], rest);
      OnlyBelowCount(words[0], Room(size, 0));
      if Ones(words) == size {
        forall w | 0 <= w < |words| ensures AllBelow(words[w], Room(size, w)) {
          if w > 0 {
            assert AllBelow(words[1..][w - 1], Room(rest, w - 1));
          }
        }
      }
    }
  }

  lemma WordsFullIffGet(v: BitVec)
    requires |v.words| == WordCount(v.size)
    ensures WordsFull(v.words, v.size) <==> forall i: nat | i < v.size :: Get(v, i) == Some(true)
  {
    if WordsFull(v.words, v.size) {
      forall i: nat | i < v.size ensures Get(v, i) == Some(true) {
        assert i == 64 * (i / 64) + i % 64;
        assert AllBelow(v.words[i / 64], Room(v.size, i / 64));
      }
    }
    if forall i: nat | i < v.size :: Get(v, i) == Some(true) {
      forall w | 0 <= w < |v.words| ensures AllBelow(v.words[w], Room(v.size, w)) {
        forall b: nat | b < Room(v.size, w) ensures b in v.words[w] {
          assert (64 * w + b) / 64 == w && (64 * w + b) % 64 == b;
          assert Get(v, 64 * w + b) == Some(true);
        }
      }
    }
  }

  /** The popcount test holds exactly when every flag reads true, whatever calls came before. */
  lemma AllSetExact(size: nat, calls: seq<Call>)
    ensures var v := PerformAll(New(size), calls);
            AllSet(v) <==> forall i: nat | i < size :: Get(v, i) == Some(true)
  {
    assert PaddingClear(New(size));
    PerformAllInv(New(size), calls);
    AllSetIffEveryGet(PerformAll(New(size), calls));
  }

  lemma AllSetIffEveryGet(v: BitVec)
    requires Inv(v)
    ensures AllSet(v) <==> forall i: nat | i < v.size :: Get(v, i) == Some(true)
  {
    WordsFullIffGet(v);
    if WordsFull(v.words, v.size) {
      FullCount(v.words, v.size);
    } else {
      CountFull(v.words, v.size);
    }
  }
}

/**
 The fill / send / replace / notify protocol of a vtable stream: one plan task per field
 writes its range of a shared packet, and a sender ships the packet when every field is
 filled. Each step is one atomic access or one closure run under the packet's mutex; the
 popcount test and the clearing of the flags go word by word.
 */
module FieldTable {
  import opened Bytes
  import BV = BitVec

  datatype Range = Range(lo: nat, hi: nat)

  /** Field ranges in the packet, past its length prefix and header, and timestamp ranges. */
  datatype Config = Config(len: nat, shard: seq<Range>, stamp: seq<Option<Range>>)

  const HEADER: nat := 8

  predicate RangeOk(r: Range, len: nat) {
    HEADER <= r.lo <= r.hi <= len
  }

  predicate ConfigOk(c: Config) {
    && |c.shard| == |c.stamp|
    && c.len >= HEADER
    && (forall i | 0 <= i < |c.shard| :: RangeOk(c.shard[i], c.len))
    && (forall i | 0 <= i < |c.stamp| && c.stamp[i].Some? :: RangeOk(c.stamp[i].value, c.len))
  }

  datatype Plan = Waiting | InRound | Dead

  datatype Sender =
    | Checking(next: nat, count: nat)  // all_set: `next` words read, `count` ones so far
    | Ready                            // the test held; about to take the packet
    | Holding(packet: seq<byte>)       // packet taken out of the table
    | Sent(packet: seq<byte>)          // transmitted, not yet put back
    | Clearing(next: nat)              // packet back; clearing the flags word by word

  /**
   `rounds[i]` lists, for plan `i`, the packet as it was at the end of each finished round;
   `sends` lists the packets transmitted.
   */
  datatype State = State(
    flags: BV.BitVec,
    plans: seq<Plan>,
    sender: Sender,
    table: Option<seq<byte>>,
    rounds: seq<seq<seq<byte>>>,
    sends: seq<seq<byte>>)

  datatype Step =
    | Enter(i: nat)                                 // wait_writeable saw the flag down
    | WriteShard(i: nat, bytes: seq<byte>)          // with_buf on the field's range
    | WriteStamp(i: nat, bytes: seq<byte>)          // with_buf on the timestamp's range
    | EndRound(i: nat, finished: bool)              // set_written if every stage has finished
    | Abort(i: nat)                                 // a stage failed; the plan ends
    | ReadWord                                      // one word of the popcount test
    | Take
    | Send(requestId: byte)
    | Replace
    | ClearWord                                     // one word of set_all(false)

  function Init(c: Config, packet: seq<byte>): State {
    State(BV.New(|c.shard|), seq(|c.shard|, i => Waiting), Checking(0, 0), Some(packet),
          seq(|c.shard|, i => []), [])
  }

  predicate Flag(v: BV.BitVec, i: nat) {
    BV.Get(v, i) == Some(true)
  }

  function Overwrite(packet: seq<byte>, r: Range, bytes: seq<byte>): (p: seq<byte>)
    requires r.lo <= r.hi <= |packet| && |bytes| == r.hi - r.lo
    ensures |p| == |packet|
  {
    packet[..r.lo] + bytes + packet[r.hi..]
  }

  function Part(packet: seq<byte>, r: Range): seq<byte> {
    if r.lo <= r.hi <= |packet| then packet[r.lo..r.hi] else []
  }

  /** A closure of the right length; whether the packet is there is not assumed but proved. */
  predicate CanWrite(s: State, i: nat, r: Range, bytes: seq<byte>) {
    i < |s.plans| && s.plans[i].InRound? && |bytes| == r.hi - r.lo && r.lo <= r.hi
  }

  predicate Enabled(c: Config, s: State, step: Step) {
    match step
    case Enter(i) => i < |s.plans| && s.plans[i].Waiting? && !Flag(s.flags, i)
    case WriteShard(i, bytes) => i < |c.shard| && CanWrite(s, i, c.shard[i], bytes)
    case WriteStamp(i, bytes) => i < |c.stamp| && c.stamp[i].Some? && CanWrite(s, i, c.stamp[i].value, bytes)
    case EndRound(i, _) => i < |s.plans| && s.plans[i].InRound?
    case Abort(i) => i < |s.plans| && s.plans[i].InRound?
    case ReadWord => s.sender.Checking?
    case Take => s.sender.Ready?
    case Send(_) => s.sender.Holding?
    case Replace => s.sender.Sent?
    case ClearWord => s.sender.Clearing?
  }

  /** The two places where the program would panic for want of the packet. */
  predicate Panics(s: State, step: Step) {
    (step.WriteShard? || step.WriteStamp? || step.Take?) && s.table.None?
  }

  function Write(s: State, r: Range, bytes: seq<byte>): State {
    if s.table.Some? && r.lo <= r.hi <= |s.table.value| && |bytes| == r.hi - r.lo
    then s.(table := Some(Overwrite(s.table.value, r, bytes))) else s
  }

  function Next(c: Config, s: State, step: Step): State
    requires ConfigOk(c) && Enabled(c, s, step) && |s.plans| == |s.rounds| == |c.shard|
  {
    match step
    case Enter(i) => s.(plans := s.plans[i := InRound])
    case WriteShard(i, bytes) => Write(s, c.shard[i], bytes)
    case WriteStamp(i, bytes) => Write(s, c.stamp[i].value, bytes)
    case EndRound(i, finished) =>
      if finished && BV.Set(s.flags, i, true).Some? then
        s.(plans := s.plans[i := Waiting],
           flags := BV.Set(s.flags, i, true).value,
           rounds := s.rounds[i := s.rounds[i] + [if s.table.Some? then s.table.value else []]])
      else s.(plans := s.plans[i := Waiting])
    case Abort(i) => s.(plans := s.plans[i := Dead])
    case ReadWord =>
      var next, count := s.sender.next, s.sender.count;
      if next < |s.flags.words| then s.(sender := Checking(next + 1, count + |s.flags.words[next]|))
      else if count >= s.flags.size then s.(sender := Ready)
      else s.(sender := Checking(0, 0))
    case Take =>
      if s.table.Some? then s.(sender := Holding(s.table.value), table := None) else s
    case Send(requestId) =>
      var p := s.sender.packet;
      var p' := if 7 < |p| then p[7 := requestId] else p;
      s.(sender := Sent(p'), sends := s.sends + [p'])
    case Replace => s.(sender := Clearing(0), table := Some(s.sender.packet))
    case ClearWord =>
      var k := s.sender.next;
      if k < |s.flags.words| then s.(sender := Clearing(k + 1), flags := s.flags.(words := s.flags.words[k := {}]))
      else s.(sender := Checking(0, 0))
  }

  // ---------------------------------------------------------------- the invariant

  /** Flag `i` stands for a round that has been sent already. */
  predicate Settled(sender: Sender, i: nat) {
    sender.Sent? || (sender.Clearing? && i / 64 >= sender.next)
  }

  /** The packet, wherever it is. */
  function Packet(s: State): seq<byte> {
    match s.sender
    case Holding(p) => p
    case Sent(p) => p
    case _ => if s.table.Some? then s.table.value else []
  }

  /** A range that plan `i` writes, its field's or its timestamp's, and no other plan does. */
  predicate Owned(c: Config, i: nat, r: Range)
    requires ConfigOk(c)
  {
    && i < |c.shard|
    && (r == c.shard[i] || c.stamp[i] == Some(r))
    && (forall j | 0 <= j < |c.shard| && j != i :: Disjoint(r, c.shard[j]))
    && (forall j | 0 <= j < |c.stamp| && j != i && c.stamp[j].Some? :: Disjoint(r, c.stamp[j].value))
  }

  predicate Disjoint(a: Range, b: Range) {
    a.hi <= b.lo || b.hi <= a.lo
  }

  predicate Shape(c: Config, s: State) {
    && |s.plans| == |s.rounds| == |c.shard| == s.flags.size
    && BV.Inv(s.flags) && BV.PaddingClear(s.flags)
    && |Packet(s)| == c.len
    && (s.table.None? <==> s.sender.Holding? || s.sender.Sent?)
  }

  /** A raised flag means that its plan waits; past the test all flags are up. */
  predicate FlagsOk(s: State) {
    && (forall i | 0 <= i < |s.plans| && Flag(s.flags, i) :: s.plans[i].Waiting?)
    && (s.sender.Ready? || s.sender.Holding? ==> forall i | 0 <= i < |s.plans| :: Flag(s.flags, i))
    && (forall i | 0 <= i < |s.plans| && Settled(s.sender, i) :: Flag(s.flags, i))
    && (s.sender.Checking? ==>
          s.sender.next <= |s.flags.words| && s.sender.count <= BV.Ones(s.flags.words[..s.sender.next]))
  }

  /** Finished rounds are counted by sends, plus one where a flag is up for the next send. */
  predicate CountsOk(s: State, i: nat)
    requires i < |s.rounds|
  {
    |s.rounds[i]| == |s.sends| + if Flag(s.flags, i) && !Settled(s.sender, i) then 1 else 0
  }

  /** Packet `k` carries round `k` in the range `r`. */
  predicate SendsMatch(sends: seq<seq<byte>>, rounds: seq<seq<byte>>, r: Range) {
    forall k | 0 <= k < |sends| :: k < |rounds| && Part(sends[k], r) == Part(rounds[k], r)
  }

  /** What is in the packet, and what was sent, in a range that plan `i` owns. */
  predicate ContentsOk(s: State, i: nat, r: Range)
    requires i < |s.rounds|
  {
    && (Flag(s.flags, i) && !Settled(s.sender, i) ==>
          |s.rounds[i]| > 0 && Part(Packet(s), r) == Part(s.rounds[i][|s.rounds[i]| - 1], r))
    && SendsMatch(s.sends, s.rounds[i], r)
  }

  ghost predicate Inv(c: Config, s: State) {
    && ConfigOk(c)
    && Shape(c, s)
    && FlagsOk(s)
    && (forall i | 0 <= i < |s.rounds| :: CountsOk(s, i))
    && (forall i, r: Range | 0 <= i < |s.rounds| && Owned(c, i, r) :: ContentsOk(s, i, r))
  }

  // ---------------------------------------------------------------- no panic

  /** The packet is missing only while the sender has it, and then no plan is inside a round. */
  lemma NeverPanics(c: Config, s: State, step: Step)
    requires Inv(c, s) && Enabled(c, s, step)
    ensures !Panics(s, step)
    ensures s.table.None? ==> forall i | 0 <= i < |s.plans| :: Flag(s.flags, i) && s.plans[i].Waiting?
  {
    if s.table.None? {
      forall i | 0 <= i < |s.plans| ensures Flag(s.flags, i) {
        assert s.sender.Sent? ==> Settled(s.sender, i);
      }
    }
  }

  // ---------------------------------------------------------------- preservation

  lemma {:induction false} OnesPrefix(words: seq<BV.Word>, k: nat)
    requires k < |words|
    ensures BV.Ones(words[..k + 1]) == BV.Ones(words[..k]) + |words[k]|
  {
    if k == 0 {
      assert words[..1] == [words[0]] && words[..0] == [];
      assert BV.Ones([words[0]]) == |words[0]| + BV.Ones([]);
    } else {
      assert words[..k + 1][1..] == words[1..][..k] && words[..k][1..] == words[1..][..k - 1];
      OnesPrefix(words[1..], k - 1);
    }
  }

  lemma {:induction false} OnesGrow(a: seq<BV.Word>, b: seq<BV.Word>)
    requires |a| == |b| && forall k | 0 <= k < |a| :: a[k] <= b[k]
    ensures BV.Ones(a) <= BV.Ones(b)
  {
    if a != [] {
      BV.SubsetCount(a[0], b[0]);
      OnesGrow(a[1..], b[1..]);
    }
  }

  lemma SetFlag(v: BV.BitVec, i: nat, j: nat)
    requires |v.words| == BV.WordCount(v.size) && i < v.size
    ensures BV.Set(v, i, true).Some?
    ensures BV.Get(BV.Set(v, i, true).value, j) == if i == j then Some(true) else BV.Get(v, j)
  {
    assert i == 64 * (i / 64) + i % 64;
    assert j == 64 * (j / 64) + j % 64;
  }

  lemma EnterInv(c: Config, s: State, i: nat)
    requires Inv(c, s) && Enabled(c, s, Enter(i))
    ensures Inv(c, Next(c, s, Enter(i)))
  {
    var t := Next(c, s, Enter(i));
    forall j | 0 <= j < |t.rounds| ensures CountsOk(t, j) {
      assert CountsOk(s, j);
    }
    forall j, r: Range | 0 <= j < |t.rounds| && Owned(c, j, r) ensures ContentsOk(t, j, r) {
      assert ContentsOk(s, j, r);
    }
  }

  lemma AbortInv(c: Config, s: State, i: nat)
    requires Inv(c, s) && Enabled(c, s, Abort(i))
    ensures Inv(c, Next(c, s, Abort(i)))
  {
    var t := Next(c, s, Abort(i));
    forall j | 0 <= j < |t.rounds| ensures CountsOk(t, j) {
      assert CountsOk(s, j);
    }
    forall j, r: Range | 0 <= j < |t.rounds| && Owned(c, j, r) ensures ContentsOk(t, j, r) {
      assert ContentsOk(s, j, r);
    }
  }

  lemma OverwriteElsewhere(packet: seq<byte>, r: Range, bytes: seq<byte>, q: Range)
    requires r.lo <= r.hi <= |packet| && |bytes| == r.hi - r.lo && Disjoint(q, r)
    ensures Part(Overwrite(packet, r, bytes), q) == Part(packet, q)
  {
  }

  lemma WriteContents(c: Config, s: State, i: nat, r: Range, bytes: seq<byte>, j: nat, q: Range)
    requires Inv(c, s) && i < |c.shard| && CanWrite(s, i, r, bytes)
    requires r == c.shard[i] || c.stamp[i] == Some(r)
    requires j < |s.rounds| && Owned(c, j, q)
    ensures ContentsOk(Write(s, r, bytes), j, q)
  {
    assert ContentsOk(s, j, q);
    if j != i && Write(s, r, bytes) != s {
      OverwriteElsewhere(s.table.value, r, bytes, q);
    }
  }

  /** A write by plan `i` touches no range that another plan owns, and its own flag is down. */
  lemma WriteInv(c: Config, s: State, i: nat, r: Range, bytes: seq<byte>)
    requires Inv(c, s) && i < |c.shard| && CanWrite(s, i, r, bytes)
    requires r == c.shard[i] || c.stamp[i] == Some(r)
    ensures Inv(c, Write(s, r, bytes))
  {
    var t := Write(s, r, bytes);
    forall j | 0 <= j < |t.rounds| ensures CountsOk(t, j) {
      assert CountsOk(s, j);
    }
    forall j, q: Range | 0 <= j < |t.rounds| && Owned(c, j, q) ensures ContentsOk(t, j, q) {
      WriteContents(c, s, i, r, bytes, j, q);
    }
  }

  lemma EndRoundFlags(c: Config, s: State, i: nat)
    requires Inv(c, s) && Enabled(c, s, EndRound(i, true))
    ensures var t := Next(c, s, EndRound(i, true));
            && FlagsOk(t)
            && BV.Inv(t.flags) && BV.PaddingClear(t.flags)
            && !Flag(s.flags, i) && Flag(t.flags, i) && !Settled(t.sender, i)
            && forall j | 0 <= j < |s.plans| && j != i :: Flag(t.flags, j) == Flag(s.flags, j)
  {
    SetFlag(s.flags, i, i);
    var t := Next(c, s, EndRound(i, true));
    BV.SetKeepsPadding(s.flags, i, true);
    forall j | 0 <= j < |s.plans| ensures Flag(t.flags, j) == (j == i || Flag(s.flags, j)) {
      SetFlag(s.flags, i, j);
    }
    if s.sender.Checking? {
      var k := s.sender.next;
      OnesGrow(s.flags.words[..k], t.flags.words[..k]);
    }
  }

  lemma EndRoundInv(c: Config, s: State, i: nat, finished: bool)
    requires Inv(c, s) && Enabled(c, s, EndRound(i, finished))
    ensures Inv(c, Next(c, s, EndRound(i, finished)))
  {
    var t := Next(c, s, EndRound(i, finished));
    if finished {
      SetFlag(s.flags, i, i);
      EndRoundFlags(c, s, i);
      NeverPanics(c, s, WriteShard(i, Part(Packet(s), c.shard[i])));
    }
    forall j | 0 <= j < |t.rounds| ensures CountsOk(t, j) {
      assert CountsOk(s, j);
    }
    forall j, r: Range | 0 <= j < |t.rounds| && Owned(c, j, r) ensures ContentsOk(t, j, r) {
      assert ContentsOk(s, j, r) && CountsOk(s, j);
    }
  }

  /** The test can only succeed once every flag is up: flags never fall while it runs. */
  lemma TestMeansAllUp(s: State, n: nat)
    requires BV.Inv(s.flags) && s.flags.size == n && s.sender.Checking?
    requires s.sender.next == |s.flags.words| && s.sender.count <= BV.Ones(s.flags.words[..s.sender.next])
    requires s.sender.count >= n
    ensures forall i: nat | i < n :: Flag(s.flags, i)
  {
    assert s.flags.words[..s.sender.next] == s.flags.words;
    BV.AllSetIffEveryGet(s.flags);
  }

  lemma ReadWordInv(c: Config, s: State)
    requires Inv(c, s) && Enabled(c, s, ReadWord)
    ensures Inv(c, Next(c, s, ReadWord))
  {
    var t, k := Next(c, s, ReadWord), s.sender.next;
    if k < |s.flags.words| {
      OnesPrefix(s.flags.words, k);
    } else if s.sender.count >= s.flags.size {
      TestMeansAllUp(s, s.flags.size);
    }
    forall j | 0 <= j < |t.rounds| ensures CountsOk(t, j) {
      assert CountsOk(s, j);
    }
    forall j, r: Range | 0 <= j < |t.rounds| && Owned(c, j, r) ensures ContentsOk(t, j, r) {
      assert ContentsOk(s, j, r);
    }
  }

  lemma TakeInv(c: Config, s: State)
    requires Inv(c, s) && Enabled(c, s, Take)
    ensures Inv(c, Next(c, s, Take))
  {
    var t := Next(c, s, Take);
    forall j | 0 <= j < |t.rounds| ensures CountsOk(t, j) {
      assert CountsOk(s, j);
    }
    forall j, r: Range | 0 <= j < |t.rounds| && Owned(c, j, r) ensures ContentsOk(t, j, r) {
      assert ContentsOk(s, j, r);
    }
  }

  /** The request id lies in the header, ahead of every range. */
  lemma RequestIdElsewhere(packet: seq<byte>, requestId: byte, r: Range)
    requires RangeOk(r, |packet|)
    ensures Part(packet[7 := requestId], r) == Part(packet, r)
  {
    assert packet[7 := requestId][r.lo..r.hi] == packet[r.lo..r.hi];
  }

  lemma SendsMatchMore(sends: seq<seq<byte>>, rounds: seq<seq<byte>>, r: Range, packet: seq<byte>)
    requires SendsMatch(sends, rounds, r) && |rounds| == |sends| + 1 && Part(packet, r) == Part(rounds[|sends|], r)
    ensures SendsMatch(sends + [packet], rounds, r)
  {
  }

  lemma SendContents(c: Config, s: State, requestId: byte, j: nat, r: Range)
    requires Inv(c, s) && Enabled(c, s, Send(requestId)) && j < |s.rounds| && Owned(c, j, r)
    ensures ContentsOk(Next(c, s, Send(requestId)), j, r)
  {
    assert ContentsOk(s, j, r) && CountsOk(s, j) && Flag(s.flags, j);
    RequestIdElsewhere(s.sender.packet, requestId, r);
    SendsMatchMore(s.sends, s.rounds[j], r, s.sender.packet[7 := requestId]);
  }

  lemma SendInv(c: Config, s: State, requestId: byte)
    requires Inv(c, s) && Enabled(c, s, Send(requestId))
    ensures Inv(c, Next(c, s, Send(requestId)))
  {
    var t := Next(c, s, Send(requestId));
    forall j | 0 <= j < |t.rounds| ensures CountsOk(t, j) {
      assert CountsOk(s, j) && Flag(s.flags, j);
    }
    forall j, r: Range | 0 <= j < |t.rounds| && Owned(c, j, r) ensures ContentsOk(t, j, r) {
      SendContents(c, s, requestId, j, r);
    }
  }

  lemma ReplaceInv(c: Config, s: State)
    requires Inv(c, s) && Enabled(c, s, Replace)
    ensures Inv(c, Next(c, s, Replace))
  {
    var t := Next(c, s, Replace);
    forall j | 0 <= j < |t.rounds| ensures CountsOk(t, j) {
      assert CountsOk(s, j) && Settled(s.sender, j) && Settled(t.sender, j);
    }
    forall j, r: Range | 0 <= j < |t.rounds| && Owned(c, j, r) ensures ContentsOk(t, j, r) {
      assert ContentsOk(s, j, r);
    }
  }

  lemma ClearedFlag(s: State, k: nat, i: nat)
    requires k < |s.flags.words| && i < s.flags.size && |s.flags.words| == BV.WordCount(s.flags.size)
    ensures var t := s.(flags := s.flags.(words := s.flags.words[k := {}]));
            Flag(t.flags, i) == (i / 64 != k && Flag(s.flags, i))
  {
  }

  lemma ClearWordShape(c: Config, s: State)
    requires Inv(c, s) && s.sender.Clearing? && s.sender.next < |s.flags.words|
    ensures Shape(c, Next(c, s, ClearWord)) && FlagsOk(Next(c, s, ClearWord))
  {
    var t, k := Next(c, s, ClearWord), s.sender.next;
    forall w | 0 <= w < |t.flags.words| ensures BV.OnlyBelow(t.flags.words[w], BV.Room(t.flags.size, w)) {
      assert BV.OnlyBelow(s.flags.words[w], BV.Room(s.flags.size, w));
    }
    forall i | 0 <= i < |s.plans| ensures Flag(t.flags, i) == (i / 64 != k && Flag(s.flags, i)) {
      ClearedFlag(s, k, i);
    }
  }

  lemma ClearWordInv(c: Config, s: State)
    requires Inv(c, s) && Enabled(c, s, ClearWord)
    ensures Inv(c, Next(c, s, ClearWord))
  {
    var t, k := Next(c, s, ClearWord), s.sender.next;
    if k < |s.flags.words| {
      ClearWordShape(c, s);
      forall i | 0 <= i < |s.plans| ensures Flag(t.flags, i) == (i / 64 != k && Flag(s.flags, i)) {
        ClearedFlag(s, k, i);
      }
    }
    forall j | 0 <= j < |t.rounds| ensures CountsOk(t, j) {
      assert CountsOk(s, j);
      assert j / 64 < |s.flags.words|;
    }
    forall j, r: Range | 0 <= j < |t.rounds| && Owned(c, j, r) ensures ContentsOk(t, j, r) {
      assert ContentsOk(s, j, r);
      assert j / 64 < |s.flags.words|;
    }
  }

  lemma StepInv(c: Config, s: State, step: Step)
    requires Inv(c, s) && Enabled(c, s, step)
    ensures Inv(c, Next(c, s, step))
  {
    match step
    case Enter(i) => EnterInv(c, s, i);
    case WriteShard(i, bytes) => WriteInv(c, s, i, c.shard[i], bytes);
    case WriteStamp(i, bytes) => WriteInv(c, s, i, c.stamp[i].value, bytes);
    case EndRound(i, finished) => EndRoundInv(c, s, i, finished);
    case Abort(i) => AbortInv(c, s, i);
    case ReadWord => ReadWordInv(c, s);
    case Take => TakeInv(c, s);
    case Send(requestId) => SendInv(c, s, requestId);
    case Replace => ReplaceInv(c, s);
    case ClearWord => ClearWordInv(c, s);
  }

  // ---------------------------------------------------------------- runs

  predicate Run(c: Config, ss: seq<State>, steps: seq<Step>) {
    && ConfigOk(c)
    && |ss| == |steps| + 1
    && ss[0].table.Some? && |ss[0].table.value| == c.len && ss[0] == Init(c, ss[0].table.value)
    && forall i | 0 <= i < |steps| :: Moves(c, ss[i], steps[i], ss[i + 1])
  }

  predicate Moves(c: Config, s: State, step: Step, t: State)
    requires ConfigOk(c)
  {
    |s.plans| == |s.rounds| == |c.shard| && Enabled(c, s, step) && t == Next(c, s, step)
  }

  lemma InitialInv(c: Config, packet: seq<byte>)
    requires ConfigOk(c) && |packet| == c.len
    ensures Inv(c, Init(c, packet))
  {
    var s := Init(c, packet);
    forall i | 0 <= i < |s.plans| ensures !Flag(s.flags, i) {
    }
    assert BV.PaddingClear(s.flags);
  }

  lemma {:induction false} RunInv(c: Config, ss: seq<State>, steps: seq<Step>, i: nat)
    requires Run(c, ss, steps) && i < |ss|
    ensures Inv(c, ss[i])
  {
    if i == 0 {
      InitialInv(c, ss[0].table.value);
    } else {
      RunInv(c, ss, steps, i - 1);
      assert Moves(c, ss[i - 1], steps[i - 1], ss[i]);
      StepInv(c, ss[i - 1], steps[i - 1]);
    }
  }

  lemma RunStep(c: Config, ss: seq<State>, steps: seq<Step>, at: nat)
    requires Run(c, ss, steps) && at < |steps|
    ensures Inv(c, ss[at]) && Enabled(c, ss[at], steps[at]) && ss[at + 1] == Next(c, ss[at], steps[at])
    ensures steps[..at + 1] == steps[..at] + [steps[at]]
  {
    RunInv(c, ss, steps, at);
    assert Moves(c, ss[at], steps[at], ss[at + 1]);
  }

  /**
   In every interleaving: no step finds the packet missing, every plan has finished exactly one
   round per packet sent (plus at most one for the next), and packet number `k` carries, in each
   range that its plan alone writes, exactly what was there at the end of that plan's round number
   `k`: a field's data and its timestamp are of the same round.
   */
  lemma EverySendIsOneRound(c: Config, ss: seq<State>, steps: seq<Step>, at: nat, field: nat, k: nat)
    requires Run(c, ss, steps) && at < |ss| && field < |c.shard| && k < |ss[at].sends|
    ensures at < |steps| ==> !Panics(ss[at], steps[at])
    ensures field < |ss[at].rounds| && |ss[at].sends| <= |ss[at].rounds[field]| <= |ss[at].sends| + 1
    ensures forall r: Range | Owned(c, field, r) :: Part(ss[at].sends[k], r) == Part(ss[at].rounds[field][k], r)
  {
    RunInv(c, ss, steps, at);
    if at < |steps| {
      RunStep(c, ss, steps, at);
      NeverPanics(c, ss[at], steps[at]);
    }
    assert CountsOk(ss[at], field);
    forall r: Range | Owned(c, field, r) ensures Part(ss[at].sends[k], r) == Part(ss[at].rounds[field][k], r) {
      assert ContentsOk(ss[at], field, r);
    }
  }

  /** The packet is there whenever a closure runs on it or the sender takes it. */
  lemma NoStepPanics(c: Config, ss: seq<State>, steps: seq<Step>, at: nat)
    requires Run(c, ss, steps) && at < |steps|
    ensures !Panics(ss[at], steps[at])
    ensures steps[at].WriteShard? || steps[at].WriteStamp? || steps[at].Take? ==>
              ss[at].table.Some? && |ss[at].table.value| == c.len
  {
    RunStep(c, ss, steps, at);
    NeverPanics(c, ss[at], steps[at]);
  }

  // ---------------------------------------------------------------- what the plans wrote

  /** A range of plan `i` that nothing else is written to, by another plan or by itself. */
  predicate Sole(c: Config, i: nat, r: Range)
    requires ConfigOk(c)
  {
    && Owned(c, i, r)
    && (r == c.shard[i] || Disjoint(r, c.shard[i]))
    && (c.stamp[i].None? || c.stamp[i].value == r || Disjoint(r, c.stamp[i].value))
  }

  /** What plan `i` last wrote to `r` in these steps, or what the first packet had there. */
  function LastWrite(c: Config, first: seq<byte>, steps: seq<Step>, i: nat, r: Range): seq<byte>
    requires ConfigOk(c) && i < |c.shard|
  {
    if steps == [] then Part(first, r)
    else
      match steps[|steps| - 1]
      case WriteShard(j, bytes) =>
        if j == i && r == c.shard[i] then bytes else LastWrite(c, first, steps[..|steps| - 1], i, r)
      case WriteStamp(j, bytes) =>
        if j == i && c.stamp[i] == Some(r) then bytes else LastWrite(c, first, steps[..|steps| - 1], i, r)
      case _ => LastWrite(c, first, steps[..|steps| - 1], i, r)
  }

  /** That, at the end of each round of plan `i` in which every stage finished. */
  function RoundWrites(c: Config, first: seq<byte>, steps: seq<Step>, i: nat, r: Range): seq<seq<byte>>
    requires ConfigOk(c) && i < |c.shard|
  {
    if steps == [] then []
    else
      RoundWrites(c, first, steps[..|steps| - 1], i, r) +
      if steps[|steps| - 1] == EndRound(i, true) then [LastWrite(c, first, steps[..|steps| - 1], i, r)] else []
  }

  /** Packet and rounds hold what was written. */
  predicate WritesOk(c: Config, s: State, i: nat, r: Range, last: seq<byte>, writes: seq<seq<byte>>)
    requires i < |s.rounds|
  {
    && Part(Packet(s), r) == last
    && |s.rounds[i]| == |writes|
    && forall k | 0 <= k < |writes| :: Part(s.rounds[i][k], r) == writes[k]
  }

  lemma OverwritePart(packet: seq<byte>, r: Range, bytes: seq<byte>)
    requires r.lo <= r.hi <= |packet| && |bytes| == r.hi - r.lo
    ensures Part(Overwrite(packet, r, bytes), r) == bytes
  {
  }

  /** A write changes its own range to the bytes written. */
  lemma WriteWrites(
    c: Config, s: State, i: nat, q: Range, bytes: seq<byte>, j: nat, r: Range, last: seq<byte>, writes: seq<seq<byte>>)
    requires Inv(c, s) && i < |c.shard| && CanWrite(s, i, q, bytes) && (q == c.shard[i] || c.stamp[i] == Some(q))
    requires j < |c.shard| && Sole(c, j, r) && WritesOk(c, s, j, r, last, writes)
    ensures WritesOk(c, Write(s, q, bytes), j, r, if j == i && q == r then bytes else last, writes)
  {
    NeverPanics(c, s, WriteShard(i, Part(Packet(s), c.shard[i])));
    assert s.table.Some?;
    if j == i && q == r {
      OverwritePart(s.table.value, r, bytes);
    } else {
      OverwriteElsewhere(s.table.value, q, bytes, r);
    }
  }

  lemma EndRoundWrites(
    c: Config, s: State, j: nat, finished: bool, i: nat, r: Range, last: seq<byte>, writes: seq<seq<byte>>)
    requires Inv(c, s) && Enabled(c, s, EndRound(j, finished))
    requires i < |c.shard| && Sole(c, i, r) && WritesOk(c, s, i, r, last, writes)
    ensures WritesOk(c, Next(c, s, EndRound(j, finished)), i, r, last, writes + if j == i && finished then [last] else [])
  {
    SetFlag(s.flags, j, j);
    NeverPanics(c, s, WriteShard(j, Part(Packet(s), c.shard[j])));
  }

  lemma OtherStepWrites(c: Config, s: State, step: Step, i: nat, r: Range, last: seq<byte>, writes: seq<seq<byte>>)
    requires Inv(c, s) && Enabled(c, s, step) && !step.WriteShard? && !step.WriteStamp?
    requires i < |c.shard| && Sole(c, i, r) && WritesOk(c, s, i, r, last, writes)
    ensures WritesOk(c, Next(c, s, step), i, r, last, writes + if step == EndRound(i, true) then [last] else [])
  {
    if step.EndRound? {
      EndRoundWrites(c, s, step.i, step.finished, i, r, last, writes);
    } else if step.Send? {
      RequestIdElsewhere(s.sender.packet, step.requestId, r);
    }
  }

  lemma {:induction false} WritesAfter(c: Config, first: seq<byte>, before: seq<Step>, step: Step, i: nat, r: Range)
    requires ConfigOk(c) && i < |c.shard|
    ensures var last := LastWrite(c, first, before, i, r);
            && RoundWrites(c, first, before + [step], i, r) ==
                 RoundWrites(c, first, before, i, r) + (if step == EndRound(i, true) then [last] else [])
            && LastWrite(c, first, before + [step], i, r) ==
                 (match step
                  case WriteShard(j, bytes) => if j == i && r == c.shard[i] then bytes else last
                  case WriteStamp(j, bytes) => if j == i && c.stamp[i] == Some(r) then bytes else last
                  case _ => last)
  {
    assert (before + [step])[..|before|] == before;
  }

  /** That, of what these steps wrote. */
  predicate WritesMatch(c: Config, s: State, first: seq<byte>, steps: seq<Step>, i: nat, r: Range)
    requires ConfigOk(c) && i < |c.shard|
  {
    && i < |s.rounds|
    && WritesOk(c, s, i, r, LastWrite(c, first, steps, i, r), RoundWrites(c, first, steps, i, r))
  }

  lemma StepWrites(c: Config, s: State, step: Step, first: seq<byte>, before: seq<Step>, i: nat, r: Range)
    requires Inv(c, s) && Enabled(c, s, step) && i < |c.shard| && Sole(c, i, r)
    requires WritesMatch(c, s, first, before, i, r)
    ensures WritesMatch(c, Next(c, s, step), first, before + [step], i, r)
  {
    var last, writes := LastWrite(c, first, before, i, r), RoundWrites(c, first, before, i, r);
    WritesAfter(c, first, before, step, i, r);
    match step
    case WriteShard(j, bytes) => WriteWrites(c, s, j, c.shard[j], bytes, i, r, last, writes);
    case WriteStamp(j, bytes) => WriteWrites(c, s, j, c.stamp[j].value, bytes, i, r, last, writes);
    case _ => OtherStepWrites(c, s, step, i, r, last, writes);
  }

  lemma InitialWrites(c: Config, first: seq<byte>, i: nat, r: Range)
    requires ConfigOk(c) && i < |c.shard|
    ensures WritesMatch(c, Init(c, first), first, [], i, r)
  {
  }

  lemma {:induction false} RunWrites(c: Config, ss: seq<State>, steps: seq<Step>, at: nat, i: nat, r: Range)
    requires Run(c, ss, steps) && at < |ss| && i < |c.shard| && Sole(c, i, r)
    ensures WritesMatch(c, ss[at], ss[0].table.value, steps[..at], i, r)
  {
    if at == 0 {
      InitialWrites(c, ss[0].table.value, i, r);
      assert steps[..0] == [];
    } else {
      RunWrites(c, ss, steps, at - 1, i, r);
      RunStep(c, ss, steps, at - 1);
      StepWrites(c, ss[at - 1], steps[at - 1], ss[0].table.value, steps[..at - 1], i, r);
    }
  }

  /**
   Over any run, packet number `k` carries in each range what its plan had last written there when
   its round number `k` ended: nothing written is lost, by a write, by the sender or by another plan.
   */
  lemma EverySendCarriesWrites(c: Config, ss: seq<State>, steps: seq<Step>, at: nat, i: nat, r: Range, k: nat)
    requires Run(c, ss, steps) && at < |ss| && i < |c.shard| && Sole(c, i, r) && k < |ss[at].sends|
    ensures k < |RoundWrites(c, ss[0].table.value, steps[..at], i, r)|
    ensures Part(ss[at].sends[k], r) == RoundWrites(c, ss[0].table.value, steps[..at], i, r)[k]
  {
    RunWrites(c, ss, steps, at, i, r);
    EverySendIsOneRound(c, ss, steps, at, i, k);
  }

  // ---------------------------------------------------------------- the rest of the packet

  /** No plan writes at this position. */
  predicate Untouched(c: Config, at: nat) {
    && (forall i | 0 <= i < |c.shard| :: !(c.shard[i].lo <= at < c.shard[i].hi))
    && (forall i | 0 <= i < |c.stamp| && c.stamp[i].Some? :: !(c.stamp[i].value.lo <= at < c.stamp[i].value.hi))
  }

  const REQUEST_ID: nat := 7

  /** Length and all bytes that no plan writes are those of the first packet, the request id aside. */
  predicate FrameOk(c: Config, first: seq<byte>, packet: seq<byte>) {
    && |packet| == |first| == c.len
    && forall at | 0 <= at < c.len && at != REQUEST_ID && Untouched(c, at) :: packet[at] == first[at]
  }

  /** The request ids of the sends among these steps, in order. */
  function SendIds(steps: seq<Step>): seq<byte> {
    if steps == [] then []
    else SendIds(steps[..|steps| - 1]) +
         if steps[|steps| - 1].Send? then [steps[|steps| - 1].requestId] else []
  }

  /** Every packet sent is framed as the first was, and carries the id it was sent with. */
  predicate SendsFramed(c: Config, first: seq<byte>, sends: seq<seq<byte>>, ids: seq<byte>) {
    && |sends| == |ids|
    && forall k | 0 <= k < |sends| :: FrameOk(c, first, sends[k]) && c.len > REQUEST_ID && sends[k][REQUEST_ID] == ids[k]
  }

  lemma WriteKeepsFrame(c: Config, first: seq<byte>, packet: seq<byte>, r: Range, bytes: seq<byte>)
    requires FrameOk(c, first, packet) && r.lo <= r.hi <= |packet| && |bytes| == r.hi - r.lo
    requires r in c.shard || Some(r) in c.stamp
    ensures FrameOk(c, first, Overwrite(packet, r, bytes))
  {
    forall at | 0 <= at < c.len && at != REQUEST_ID && Untouched(c, at)
      ensures Overwrite(packet, r, bytes)[at] == first[at]
    {
      assert !(r.lo <= at < r.hi) by {
        if r in c.shard {
          var i :| 0 <= i < |c.shard| && c.shard[i] == r;
        } else {
          var i :| 0 <= i < |c.stamp| && c.stamp[i] == Some(r);
        }
      }
    }
  }

  lemma StepFramed(c: Config, s: State, step: Step, first: seq<byte>, ids: seq<byte>)
    requires Inv(c, s) && Enabled(c, s, step)
    requires FrameOk(c, first, Packet(s)) && SendsFramed(c, first, s.sends, ids)
    ensures FrameOk(c, first, Packet(Next(c, s, step)))
    ensures SendsFramed(c, first, Next(c, s, step).sends, ids + if step.Send? then [step.requestId] else [])
  {
    if step.WriteShard? {
      if s.table.Some? && Write(s, c.shard[step.i], step.bytes) != s {
        WriteKeepsFrame(c, first, s.table.value, c.shard[step.i], step.bytes);
      }
    } else if step.WriteStamp? {
      if s.table.Some? && Write(s, c.stamp[step.i].value, step.bytes) != s {
        WriteKeepsFrame(c, first, s.table.value, c.stamp[step.i].value, step.bytes);
      }
    }
  }

  lemma {:induction false} RunFramed(c: Config, ss: seq<State>, steps: seq<Step>, at: nat)
    requires Run(c, ss, steps) && at < |ss|
    ensures FrameOk(c, ss[0].table.value, Packet(ss[at]))
    ensures SendsFramed(c, ss[0].table.value, ss[at].sends, SendIds(steps[..at]))
  {
    if at > 0 {
      RunFramed(c, ss, steps, at - 1);
      RunStep(c, ss, steps, at - 1);
      StepFramed(c, ss[at - 1], steps[at - 1], ss[0].table.value, SendIds(steps[..at - 1]));
      assert steps[..at][..at - 1] == steps[..at - 1];
    }
  }

  /**
   What else a packet holds: number `k` has the length of the first packet and, wherever no plan
   writes, its bytes, length prefix, packet type and id included; byte 7 is the request id that it was
   sent with.
   */
  lemma EverySendIsFramed(c: Config, ss: seq<State>, steps: seq<Step>, at: nat, k: nat)
    requires Run(c, ss, steps) && at < |ss| && k < |ss[at].sends|
    ensures |SendIds(steps[..at])| == |ss[at].sends| && |ss[at].sends[k]| == c.len >= HEADER
    ensures forall p | 0 <= p < HEADER - 1 :: ss[at].sends[k][p] == ss[0].table.value[p]
    ensures ss[at].sends[k][HEADER - 1] == SendIds(steps[..at])[k]
    ensures forall p | HEADER <= p < c.len && Untouched(c, p) :: ss[at].sends[k][p] == ss[0].table.value[p]
  {
    RunFramed(c, ss, steps, at);
    assert FrameOk(c, ss[0].table.value, ss[at].sends[k]);
    assert forall p | 0 <= p < HEADER :: Untouched(c, p);
  }

  // ---------------------------------------------------------------- the sender gets on

  /** The state after the sender has read the rest of the flags, with nobody else moving. */
  function ReadOn(c: Config, s: State, n: nat): State
    requires ConfigOk(c) && |s.plans| == |s.rounds| == |c.shard| && s.sender.Checking?
    decreases n
  {
    if n == 0 then s
    else
      var t := Next(c, s, ReadWord);
      if t.sender.Checking? then ReadOn(c, t, n - 1) else t
  }

  lemma {:induction false} OnesSplit(words: seq<BV.Word>, k: nat)
    requires k <= |words|
    ensures BV.Ones(words) == BV.Ones(words[..k]) + BV.Ones(words[k..])
  {
    if k == 0 {
      assert words[0..] == words && words[..0] == [];
    } else {
      assert words[1..][..k - 1] == words[..k][1..] && words[1..][k - 1..] == words[k..];
      OnesSplit(words[1..], k - 1);
    }
  }

  lemma {:induction false} ReadsToTheEnd(c: Config, s: State, k: nat)
    requires ConfigOk(c) && |s.plans| == |s.rounds| == |c.shard|
    requires k <= |s.flags.words| && s.sender == Checking(k, BV.Ones(s.flags.words[..k]))
    ensures ReadOn(c, s, |s.flags.words| - k + 1) ==
              s.(sender := if BV.Ones(s.flags.words) >= s.flags.size then Ready else Checking(0, 0))
    decreases |s.flags.words| - k
  {
    if k == |s.flags.words| {
      assert s.flags.words[..k] == s.flags.words;
      assert ReadOn(c, Next(c, s, ReadWord).(sender := Checking(0, 0)), 0) == Next(c, s, ReadWord).(sender := Checking(0, 0));
    } else {
      OnesPrefix(s.flags.words, k);
      ReadsToTheEnd(c, Next(c, s, ReadWord), k + 1);
    }
  }

  /**
   An undisturbed test of the flags, begun afresh, lets the packet be taken if and only if every plan
   has raised its flag.
   */
  lemma TestSucceedsIff(c: Config, s: State)
    requires Inv(c, s) && s.sender == Checking(0, 0)
    ensures ReadOn(c, s, |s.flags.words| + 1).sender.Ready? <==> forall i | 0 <= i < |s.plans| :: Flag(s.flags, i)
  {
    assert s.flags.words[..0] == [];
    ReadsToTheEnd(c, s, 0);
    BV.AllSetIffEveryGet(s.flags);
    assert forall i: nat | i < s.flags.size :: Flag(s.flags, i) <==> BV.Get(s.flags, i) == Some(true);
  }

  // ---------------------------------------------------------------- one round, one turn

  /**
   A plan that waits with its flag down can do a round: its bytes get into the packet, the round is
   recorded with them, and its flag, and no other, goes up.
   */
  lemma RoundOfPlan(c: Config, s: State, i: nat, bytes: seq<byte>) returns (t: State)
    requires Inv(c, s) && i < |s.plans| && s.plans[i].Waiting? && !Flag(s.flags, i)
    requires |bytes| == c.shard[i].hi - c.shard[i].lo
    ensures Enabled(c, s, Enter(i))
    ensures var s1 := Next(c, s, Enter(i));
            && Inv(c, s1) && Enabled(c, s1, WriteShard(i, bytes))
            && var s2 := Next(c, s1, WriteShard(i, bytes));
               && Inv(c, s2) && Enabled(c, s2, EndRound(i, true))
               && t == Next(c, s2, EndRound(i, true))
    ensures s.table.Some? && t.table.Some? && Part(t.table.value, c.shard[i]) == bytes
    ensures t.rounds == s.rounds[i := s.rounds[i] + [t.table.value]]
    ensures t.plans == s.plans && t.sender == s.sender && t.sends == s.sends
    ensures forall j | 0 <= j < |s.plans| :: Flag(t.flags, j) == (j == i || Flag(s.flags, j))
  {
    var s1 := Next(c, s, Enter(i));
    EnterInv(c, s, i);
    NeverPanics(c, s, Enter(i));
    var s2 := Next(c, s1, WriteShard(i, bytes));
    WriteInv(c, s1, i, c.shard[i], bytes);
    OverwritePart(s.table.value, c.shard[i], bytes);
    EndRoundFlags(c, s2, i);
    t := Next(c, s2, EndRound(i, true));
    SetFlag(s2.flags, i, i);
    assert s.plans[i := InRound][i := Waiting] == s.plans;
  }

  /** A round in which some stage has not finished raises no flag, and another can begin at once. */
  lemma UnfinishedRoundRepeats(c: Config, s: State, i: nat)
    requires Inv(c, s) && Enabled(c, s, EndRound(i, false))
    ensures var t := Next(c, s, EndRound(i, false));
            Inv(c, t) && Enabled(c, t, Enter(i)) && t == s.(plans := t.plans) && Next(c, t, Enter(i)) == s
  {
    var t := Next(c, s, EndRound(i, false));
    EndRoundInv(c, s, i, false);
    assert t.plans[i := InRound] == s.plans;
  }

  /** The state after the sender has cleared the rest of the flags, with nobody else moving. */
  function ClearOn(c: Config, s: State, n: nat): State
    requires ConfigOk(c) && |s.plans| == |s.rounds| == |c.shard| && s.sender.Clearing?
    decreases n
  {
    if n == 0 then s
    else
      var t := Next(c, s, ClearWord);
      if t.sender.Clearing? then ClearOn(c, t, n - 1) else t
  }

  lemma {:induction false} ClearsAll(c: Config, s: State, k: nat)
    requires ConfigOk(c) && |s.plans| == |s.rounds| == |c.shard| && s.sender == Clearing(k)
    requires k <= |s.flags.words| && forall w | 0 <= w < k :: s.flags.words[w] == {}
    ensures var t := ClearOn(c, s, |s.flags.words| - k + 1);
            && t == s.(sender := Checking(0, 0), flags := t.flags) && t.flags.size == s.flags.size
            && |t.flags.words| == |s.flags.words| && forall w | 0 <= w < |t.flags.words| :: t.flags.words[w] == {}
    decreases |s.flags.words| - k
  {
    if k < |s.flags.words| {
      ClearsAll(c, Next(c, s, ClearWord), k + 1);
    }
  }

  /** Everything the sender does after its test: take, send, put back. */
  lemma TurnOfSender(c: Config, s: State, requestId: byte) returns (t: State)
    requires Inv(c, s) && s.sender.Ready?
    ensures Enabled(c, s, Take)
    ensures var s1 := Next(c, s, Take);
            && Inv(c, s1) && Enabled(c, s1, Send(requestId))
            && var s2 := Next(c, s1, Send(requestId));
               Inv(c, s2) && Enabled(c, s2, Replace) && t == Next(c, s2, Replace)
    ensures Inv(c, t)
    ensures s.table.Some? && |s.table.value| > REQUEST_ID
    ensures var p := s.table.value[REQUEST_ID := requestId];
            t == s.(table := Some(p), sends := s.sends + [p], sender := Clearing(0))
  {
    NeverPanics(c, s, Take);
    TakeInv(c, s);
    SendInv(c, Next(c, s, Take), requestId);
    t := Next(c, Next(c, Next(c, s, Take), Send(requestId)), Replace);
    ReplaceInv(c, Next(c, Next(c, s, Take), Send(requestId)));
  }

  /** And then it takes every flag down, and begins to test them afresh. */
  lemma FlagsAllDown(c: Config, s: State)
    requires Inv(c, s) && s.sender == Clearing(0)
    ensures var t := ClearOn(c, s, |s.flags.words| + 1);
            t == s.(sender := Checking(0, 0), flags := t.flags) && forall i: nat :: !Flag(t.flags, i)
  {
    ClearsAll(c, s, 0);
  }

  // ---------------------------------------------------------------- a plan that has ended

  /** Plan `i` is over, after `n` rounds. */
  predicate Ended(s: State, i: nat, n: nat) {
    i < |s.plans| && i < |s.rounds| && s.plans[i].Dead? && |s.rounds[i]| == n
  }

  lemma StaysEnded(c: Config, s: State, step: Step, i: nat, n: nat)
    requires Inv(c, s) && Enabled(c, s, step) && Ended(s, i, n)
    ensures Ended(Next(c, s, step), i, n)
  {
  }

  lemma AbortEnds(c: Config, s: State, i: nat)
    requires Inv(c, s) && Enabled(c, s, Abort(i))
    ensures Ended(Next(c, s, Abort(i)), i, |s.sends|)
  {
    assert CountsOk(s, i);
  }

  lemma {:induction false} EndedFromThen(c: Config, ss: seq<State>, steps: seq<Step>, k: nat, at: nat, i: nat, n: nat)
    requires Run(c, ss, steps) && k <= at < |ss| && Ended(ss[k], i, n)
    ensures Ended(ss[at], i, n)
  {
    if k < at {
      EndedFromThen(c, ss, steps, k, at - 1, i, n);
      RunStep(c, ss, steps, at - 1);
      StaysEnded(c, ss[at - 1], steps[at - 1], i, n);
    }
  }

  /** Once a plan has ended, no packet is sent any more, whatever the others do. */
  lemma AbortEndsStream(c: Config, ss: seq<State>, steps: seq<Step>, k: nat, at: nat, i: nat)
    requires Run(c, ss, steps) && k < at < |ss| && steps[k] == Abort(i)
    ensures ss[at].sends == ss[k].sends
  {
    RunStep(c, ss, steps, k);
    AbortEnds(c, ss[k], i);
    EndedFromThen(c, ss, steps, k + 1, at, i, |ss[k].sends|);
    RunInv(c, ss, steps, at);
    assert CountsOk(ss[at], i);
    SendsKept(c, ss, steps, k, at);
  }

  lemma {:induction false} SendsKept(c: Config, ss: seq<State>, steps: seq<Step>, k: nat, at: nat)
    requires Run(c, ss, steps) && k <= at < |ss|
    ensures ss[k].sends <= ss[at].sends
  {
    if k < at {
      SendsKept(c, ss, steps, k, at - 1);
      RunStep(c, ss, steps, at - 1);
    }
  }
}

/**
 A write-ahead ring in use: one task that pushes records, a piece at a time, any number of
 readers, and the persist reader, which is registered first and stays. Their steps interleave
 freely and are those of the code, with no condition of safety on them. What a record is made
 from and how it is cut into pieces is left to the user of the ring.
 */
module Wal {
  import opened Arithmetic
  import opened Bytes
  import opened Disruptor
  import opened Broadcast
  import RecordRing

  /** The pushing side: between pushes, or `pc` steps into one. */
  datatype Pusher<T> = Ready | Busy(x: T, pc: nat)

  /** `pushed` lists what has been published. */
  datatype Log<T> = Log(w: World, pusher: Pusher<T>, pushed: seq<T>)

  /** What one push copies into its grant, in order, and the id of the persist reader. */
  datatype Config<!T> = Config(pieces: T -> seq<seq<byte>>, persist: nat)

  datatype Event<T> =
    | Begin(x: T)               // room granted
    | Advance                   // copy a piece, store the mark, publish, or finish the call
    | ReaderStep(step: Step)
    | PersistStep               // the persist reader is done with its read grant

  function Record<T>(c: Config<T>, x: T): seq<byte> {
    Flatten(c.pieces(x))
  }

  function Records<T>(c: Config<T>, xs: seq<T>): (frames: seq<seq<byte>>)
    ensures |frames| == |xs| && forall i | 0 <= i < |xs| :: frames[i] == Record(c, xs[i])
  {
    seq(|xs|, i requires 0 <= i < |xs| => Record(c, xs[i]))
  }

  /** The bytes of the first `k` pieces. */
  function Copied<T>(c: Config<T>, x: T, k: nat): seq<byte> {
    if k <= |c.pieces(x)| then Flatten(c.pieces(x)[..k]) else Record(c, x)
  }

  /** Joining, leaving and reading, by anyone but the persist reader's own release. */
  predicate IsReaderStep(persist: nat, step: Step) {
    match step
    case StepRegister(_) => true
    case StepLoadWrite(_) => true
    case StepLoadMark(_) => true
    case StepRelease(id) => id != persist
    case StepUnregister(id) => id != persist
    case _ => false
  }

  /** The ring access of step `pc` of a push; after the last there is none. */
  function PushAccess<T>(c: Config<T>, x: T, pc: nat): Step {
    var k := |c.pieces(x)|;
    if pc < k then StepFill(|Copied(c, x, pc)|, c.pieces(x)[pc])
    else if pc == k then StepStoreMark
    else StepPublish
  }

  /** Accesses of a push after its grant. */
  function Accesses<T>(c: Config<T>, x: T): nat {
    |c.pieces(x)| + 2
  }

  predicate Possible<T>(c: Config<T>, e: Log<T>, ev: Event<T>) {
    && e.w.hist.Keys == e.w.s.readers.Keys
    && match ev
       case Begin(x) => e.pusher.Ready? && Enabled(e.w.s, StepGrant(|Record(c, x)|))
       case Advance =>
         e.pusher.Busy? &&
         (e.pusher.pc < Accesses(c, e.pusher.x) ==> Enabled(e.w.s, PushAccess(c, e.pusher.x, e.pusher.pc)))
       case ReaderStep(step) => IsReaderStep(c.persist, step) && Enabled(e.w.s, step)
       case PersistStep => Enabled(e.w.s, StepRelease(c.persist))
  }

  /** The one step of the ring that an event takes, if any. */
  function Access<T>(c: Config<T>, e: Log<T>, ev: Event<T>): (step: Option<Step>)
    requires Possible(c, e, ev)
    ensures step.Some? ==> Enabled(e.w.s, step.value)
  {
    match ev
    case Begin(x) => Some(StepGrant(|Record(c, x)|))
    case Advance =>
      if e.pusher.pc < Accesses(c, e.pusher.x) then Some(PushAccess(c, e.pusher.x, e.pusher.pc)) else None
    case ReaderStep(step) => Some(step)
    case PersistStep => Some(StepRelease(c.persist))
  }

  function PusherAfter<T>(c: Config<T>, p: Pusher<T>, ev: Event<T>): Pusher<T> {
    match ev
    case Begin(x) => Busy(x, 0)
    case Advance =>
      if p.Ready? then p else if p.pc < Accesses(c, p.x) then Busy(p.x, p.pc + 1) else Ready
    case _ => p
  }

  /** Whether this event makes a record visible. */
  predicate Publishes<T>(c: Config<T>, p: Pusher<T>, ev: Event<T>) {
    ev.Advance? && p.Busy? && p.pc == Accesses(c, p.x) - 1
  }

  function Happen<T>(c: Config<T>, e: Log<T>, ev: Event<T>): Log<T>
    requires Possible(c, e, ev)
  {
    Log(if Access(c, e, ev).Some? then Next(e.w, Access(c, e, ev).value) else e.w,
        PusherAfter(c, e.pusher, ev),
        if Publishes(c, e.pusher, ev) then e.pushed + [e.pusher.x] else e.pushed)
  }

  // ---------------------------------------------------------------- the invariant

  /** How far the current push has come in filling its grant. */
  predicate PusherOk<T>(c: Config<T>, s: State, p: Pusher<T>) {
    match p
    case Ready => s.grant.Free?
    case Busy(x, pc) =>
      && pc <= Accesses(c, x)
      && (pc == Accesses(c, x) <==> s.grant.Free?)
      && (pc < Accesses(c, x) ==>
            && s.grant.Granted? && s.grant.end == s.grant.start + |Record(c, x)| <= |s.ring|
            && s.grant.marked == (pc > |c.pieces(x)|)
            && |Copied(c, x, pc)| <= |Record(c, x)|
            && Slice(s.ring, s.grant.start, s.grant.start + |Copied(c, x, pc)|) == Copied(c, x, pc))
  }

  predicate Inv<T>(c: Config<T>, e: Log<T>) {
    && WorldInv(e.w)
    && c.persist in e.w.s.readers && c.persist in e.w.hist
    && PusherOk(c, e.w.s, e.pusher)
    && e.w.hist[c.persist].sent == Records(c, e.pushed)
  }

  /** The only events that may do harm are grants of the unsafe family. */
  predicate Harmless<T>(c: Config<T>, e: Log<T>, ev: Event<T>)
    requires |e.w.s.ring| > 0
  {
    ev.Begin? ==> SafeGrant(e.w.s, |Record(c, ev.x)|)
  }

  // ---------------------------------------------------------------- preservation

  lemma CopiedStep<T>(c: Config<T>, x: T, pc: nat)
    requires pc < |c.pieces(x)|
    ensures Copied(c, x, pc + 1) == Copied(c, x, pc) + c.pieces(x)[pc]
    ensures |Copied(c, x, pc + 1)| <= |Record(c, x)|
  {
    var ps := c.pieces(x);
    assert ps[..pc + 1] == ps[..pc] + [ps[pc]];
    FlattenAppend(ps[..pc], ps[pc]);
    FlattenSplit(ps, 0, pc + 1, |ps|);
    assert ps[0..|ps|] == ps && ps[0..pc + 1] == ps[..pc + 1];
  }

  lemma CopiedAll<T>(c: Config<T>, x: T, pc: nat)
    requires pc >= |c.pieces(x)|
    ensures Copied(c, x, pc) == Record(c, x)
  {
    assert c.pieces(x)[..|c.pieces(x)|] == c.pieces(x);
  }

  lemma SliceExtends(ring: seq<byte>, at: nat, done: seq<byte>, data: seq<byte>)
    requires at + |done| + |data| <= |ring| && Slice(ring, at, at + |done|) == done
    ensures var from := at + |done|;
            var ring' := ring[..from] + data + ring[from + |data|..];
            |ring'| == |ring| && Slice(ring', at, at + |done + data|) == done + data
  {
    var from := at + |done|;
    var ring' := ring[..from] + data + ring[from + |data|..];
    assert ring'[at..from] == ring[at..from];
    assert ring'[from..from + |data|] == data;
    assert ring'[at..from + |data|] == ring'[at..from] + ring'[from..from + |data|];
  }

  /** A push that has its grant is never stuck: its next access is always possible. */
  lemma NeverStuck<T>(c: Config<T>, e: Log<T>)
    requires Inv(c, e) && e.pusher.Busy?
    ensures Possible(c, e, Advance)
    ensures var t := Happen(c, e, Advance);
            if e.pusher.pc == |c.pieces(e.pusher.x)| + 2 then t.pusher.Ready? && t.pushed == e.pushed
            else
              && t.pusher == Busy(e.pusher.x, e.pusher.pc + 1)
              && t.pushed == e.pushed + if e.pusher.pc == |c.pieces(e.pusher.x)| + 1 then [e.pusher.x] else []
  {
    var x, pc := e.pusher.x, e.pusher.pc;
    if pc < |c.pieces(x)| {
      CopiedStep(c, x, pc);
    }
  }

  lemma PusherFills<T>(c: Config<T>, s: State, x: T, pc: nat)
    requires PusherOk(c, s, Busy(x, pc)) && pc < |c.pieces(x)| && Enabled(s, PushAccess(c, x, pc))
    ensures PusherOk(c, NextState(s, PushAccess(c, x, pc)), Busy(x, pc + 1))
  {
    var data, t := c.pieces(x)[pc], NextState(s, PushAccess(c, x, pc));
    CopiedStep(c, x, pc);
    assert t == Fill(s, |Copied(c, x, pc)|, data);
    SliceExtends(s.ring, s.grant.start, Copied(c, x, pc), data);
  }

  lemma PusherMoves<T>(c: Config<T>, s: State, x: T, pc: nat)
    requires PusherOk(c, s, Busy(x, pc)) && pc < Accesses(c, x) && Enabled(s, PushAccess(c, x, pc))
    ensures PusherOk(c, NextState(s, PushAccess(c, x, pc)), Busy(x, pc + 1))
  {
    if pc < |c.pieces(x)| {
      PusherFills(c, s, x, pc);
    } else {
      CopiedAll(c, x, pc);
      CopiedAll(c, x, pc + 1);
    }
  }

  lemma PusherBegins<T>(c: Config<T>, s: State, x: T)
    requires |s.ring| > 0 && s.committed <= |s.ring| && s.grant.Free? && TryGrant(s, |Record(c, x)|).Ok?
    ensures PusherOk(c, TryGrant(s, |Record(c, x)|).value, Busy(x, 0))
  {
    PositionModCapacity(s.committed, |s.ring|);
    assert c.pieces(x)[..0] == [] && Copied(c, x, 0) == [];
    assert Slice(s.ring, 0, 0) == [];
  }

  lemma PusherUndisturbed<T>(c: Config<T>, s: State, step: Step, p: Pusher<T>)
    requires PusherOk(c, s, p) && Enabled(s, step) && (IsReaderStep(c.persist, step) || step.StepRelease?)
    ensures PusherOk(c, NextState(s, step), p)
  {
    var t := NextState(s, step);
    assert t.ring == s.ring && t.grant == s.grant;
  }

  lemma PusherInv<T>(c: Config<T>, e: Log<T>, ev: Event<T>)
    requires Inv(c, e) && Possible(c, e, ev)
    ensures PusherOk(c, Happen(c, e, ev).w.s, PusherAfter(c, e.pusher, ev))
  {
    match ev
    case Begin(x) => PusherBegins(c, e.w.s, x);
    case Advance =>
      if e.pusher.pc < Accesses(c, e.pusher.x) {
        PusherMoves(c, e.w.s, e.pusher.x, e.pusher.pc);
      }
    case ReaderStep(step) => PusherUndisturbed(c, e.w.s, step, e.pusher);
    case PersistStep => PusherUndisturbed(c, e.w.s, StepRelease(c.persist), e.pusher);
  }

  /** With the persist reader present, joining is always safe; so only a grant can be unsafe. */
  lemma HarmlessIsSafe<T>(c: Config<T>, e: Log<T>, ev: Event<T>)
    requires Inv(c, e) && Possible(c, e, ev) && Harmless(c, e, ev) && Access(c, e, ev).Some?
    ensures Safe(e.w.s, Access(c, e, ev).value)
  {
    AnyReaderMakesJoiningSafe(e.w.s, c.persist);
  }

  lemma PersistStays<T>(c: Config<T>, e: Log<T>, ev: Event<T>)
    requires Inv(c, e) && Possible(c, e, ev)
    ensures c.persist in Happen(c, e, ev).w.s.readers && c.persist in Happen(c, e, ev).w.hist
  {
    if Access(c, e, ev).Some? {
      StepKeepsReader(e.w, Access(c, e, ev).value, c.persist);
    }
  }

  lemma StepKeepsReader(w: World, step: Step, id: nat)
    requires w.hist.Keys == w.s.readers.Keys && Enabled(w.s, step) && id in w.s.readers && step != StepUnregister(id)
    ensures id in Next(w, step).s.readers && id in Next(w, step).hist
    ensures step != StepRelease(id) ==> Next(w, step).hist[id].ends == w.hist[id].ends
  {
  }

  /** Every step but a publish leaves what was sent to a reader that stays. */
  lemma QuietSent(w: World, step: Step, id: nat)
    requires w.hist.Keys == w.s.readers.Keys && Enabled(w.s, step)
    requires !step.StepPublish? && step != StepUnregister(id) && id in w.s.readers
    ensures id in Next(w, step).hist && Next(w, step).hist[id].sent == w.hist[id].sent
  {
  }

  lemma PublishSent(w: World, id: nat)
    requires w.hist.Keys == w.s.readers.Keys && Enabled(w.s, StepPublish) && id in w.s.readers
    ensures id in Next(w, StepPublish).hist
    ensures Next(w, StepPublish).hist[id].sent == w.hist[id].sent + [Frame(w.s)]
  {
  }

  lemma FrameIsRecord<T>(c: Config<T>, s: State, x: T, pc: nat)
    requires PusherOk(c, s, Busy(x, pc)) && pc == Accesses(c, x) - 1
    ensures Frame(s) == Record(c, x)
  {
    CopiedAll(c, x, pc);
  }

  lemma RecordsSnoc<T>(c: Config<T>, xs: seq<T>, x: T)
    ensures Records(c, xs + [x]) == Records(c, xs) + [Record(c, x)]
  {
  }

  lemma SentInv<T>(c: Config<T>, e: Log<T>, ev: Event<T>)
    requires Inv(c, e) && Possible(c, e, ev)
    ensures c.persist in Happen(c, e, ev).w.hist
    ensures Happen(c, e, ev).w.hist[c.persist].sent == Records(c, Happen(c, e, ev).pushed)
  {
    var step := Access(c, e, ev);
    if Publishes(c, e.pusher, ev) {
      PublishSent(e.w, c.persist);
      FrameIsRecord(c, e.w.s, e.pusher.x, e.pusher.pc);
      RecordsSnoc(c, e.pushed, e.pusher.x);
    } else if step.Some? {
      QuietSent(e.w, step.value, c.persist);
    }
  }

  /** Every step but the persist reader's release leaves how much it has taken. */
  lemma TakenKept<T>(c: Config<T>, e: Log<T>, ev: Event<T>)
    requires Inv(c, e) && Possible(c, e, ev) && !ev.PersistStep?
    ensures c.persist in Happen(c, e, ev).w.hist
    ensures Happen(c, e, ev).w.hist[c.persist].ends == e.w.hist[c.persist].ends
  {
    if Access(c, e, ev).Some? {
      StepKeepsReader(e.w, Access(c, e, ev).value, c.persist);
    }
  }

  lemma HappenInv<T>(c: Config<T>, e: Log<T>, ev: Event<T>)
    requires Inv(c, e) && Possible(c, e, ev) && Harmless(c, e, ev)
    ensures Inv(c, Happen(c, e, ev))
  {
    PusherInv(c, e, ev);
    SentInv(c, e, ev);
    PersistStays(c, e, ev);
    if Access(c, e, ev).Some? {
      HarmlessIsSafe(c, e, ev);
      StepWorldInv(e.w, Access(c, e, ev).value);
    }
  }

  // ---------------------------------------------------------------- runs

  /** A ring just created, with the persist reader registered. */
  function Start<T>(c: Config<T>, ringSize: nat): Log<T> {
    Log(World(Register(Init(ringSize), c.persist), map[c.persist := History([], [], [], 0, 0)]), Ready, [])
  }

  lemma StartInv<T>(c: Config<T>, ringSize: nat)
    requires 0 < ringSize < U64
    ensures Inv(c, Start(c, ringSize))
  {
    InitInv(ringSize);
    RegisterInv(Init(ringSize), c.persist);
    var w := Start(c, ringSize).w;
    assert WholeFrames([], [], []);
    assert Slice(w.s.ring, 0, 0) == [];
    assert HistoryOk(w.s, w.s.readers[c.persist], w.hist[c.persist]);
  }

  ghost predicate Run<T>(c: Config<T>, ringSize: nat, es: seq<Log<T>>, evs: seq<Event<T>>) {
    && 0 < ringSize < U64
    && |es| == |evs| + 1
    && es[0] == Start(c, ringSize)
    && forall i | 0 <= i < |evs| :: Possible(c, es[i], evs[i]) && es[i + 1] == Happen(c, es[i], evs[i])
  }

  /** No push was admitted into the unsafe family. */
  predicate HarmlessRun<T>(c: Config<T>, es: seq<Log<T>>, evs: seq<Event<T>>) {
    |es| == |evs| + 1 && forall i | 0 <= i < |evs| :: |es[i].w.s.ring| > 0 && Harmless(c, es[i], evs[i])
  }

  lemma {:induction false} RunInv<T>(c: Config<T>, ringSize: nat, es: seq<Log<T>>, evs: seq<Event<T>>, i: nat)
    requires Run(c, ringSize, es, evs) && HarmlessRun(c, es, evs) && i < |es|
    ensures Inv(c, es[i])
  {
    if i == 0 {
      StartInv(c, ringSize);
    } else {
      RunInv(c, ringSize, es, evs, i - 1);
      assert Possible(c, es[i - 1], evs[i - 1]) && es[i] == Happen(c, es[i - 1], evs[i - 1]);
      HappenInv(c, es[i - 1], evs[i - 1]);
    }
  }

  // ---------------------------------------------------------------- records that do not divide the ring

  predicate RecordsOf<T>(c: Config<T>, evs: seq<Event<T>>, m: nat) {
    forall i | 0 <= i < |evs| && evs[i].Begin? :: |Record(c, evs[i].x)| == m
  }

  lemma HappenAligned<T>(c: Config<T>, e: Log<T>, ev: Event<T>, m: nat)
    requires m > 0 && Inv(c, e) && Possible(c, e, ev)
    requires RecordRing.Aligned(e.w.s, m) && !Multiple(|e.w.s.ring|, m)
    requires ev.Begin? ==> |Record(c, ev.x)| == m
    ensures Harmless(c, e, ev)
    ensures RecordRing.Aligned(Happen(c, e, ev).w.s, m) && |Happen(c, e, ev).w.s.ring| == |e.w.s.ring|
  {
    RecordRing.AlignedGrantIsSafe(e.w.s, m);
    if Access(c, e, ev).Some? {
      RecordRing.StepAligned(e.w.s, Access(c, e, ev).value, m);
    }
  }

  lemma {:induction false} FixedRecordsInv<T>(
    c: Config<T>, ringSize: nat, es: seq<Log<T>>, evs: seq<Event<T>>, m: nat, i: nat)
    requires Run(c, ringSize, es, evs) && RecordsOf(c, evs, m) && m > 0 && ringSize % m != 0 && i < |es|
    ensures Inv(c, es[i]) && RecordRing.Aligned(es[i].w.s, m) && |es[i].w.s.ring| == ringSize
  {
    MultipleIsDivisible(ringSize, m);
    if i == 0 {
      StartInv(c, ringSize);
    } else {
      FixedRecordsInv(c, ringSize, es, evs, m, i - 1);
      assert Possible(c, es[i - 1], evs[i - 1]) && es[i] == Happen(c, es[i - 1], evs[i - 1]);
      HappenAligned(c, es[i - 1], evs[i - 1], m);
      HappenInv(c, es[i - 1], evs[i - 1]);
    }
  }

  /** With records of one size that does not divide the ring, no run does harm. */
  lemma FixedRecordsHarmless<T>(c: Config<T>, ringSize: nat, es: seq<Log<T>>, evs: seq<Event<T>>, m: nat)
    requires Run(c, ringSize, es, evs) && RecordsOf(c, evs, m) && m > 0 && ringSize % m != 0
    ensures HarmlessRun(c, es, evs)
  {
    forall i | 0 <= i < |evs| ensures |es[i].w.s.ring| > 0 && Harmless(c, es[i], evs[i]) {
      FixedRecordsInv(c, ringSize, es, evs, m, i);
      MultipleIsDivisible(ringSize, m);
      assert Possible(c, es[i], evs[i]);
      HappenAligned(c, es[i], evs[i], m);
    }
  }

  // ---------------------------------------------------------------- grants that stay short of the end

  /** A write that ends before the last byte of the ring, or wraps and does. */
  predicate ShortOfEnd(s: State, len: nat)
    requires |s.ring| > 0
  {
    len < |s.ring| && s.committed % |s.ring| + len != |s.ring|
  }

  predicate ShortRun<T>(c: Config<T>, es: seq<Log<T>>, evs: seq<Event<T>>) {
    |es| == |evs| + 1 &&
    forall i | 0 <= i < |evs| && evs[i].Begin? :: |es[i].w.s.ring| > 0 && ShortOfEnd(es[i].w.s, |Record(c, evs[i].x)|)
  }

  /** Nothing published or granted ends exactly at capacity. */
  predicate NeverFull(s: State) {
    s.committed < |s.ring| && (s.grant.Granted? ==> s.grant.end < |s.ring|)
  }

  lemma HappenShort<T>(c: Config<T>, e: Log<T>, ev: Event<T>)
    requires Inv(c, e) && Possible(c, e, ev) && NeverFull(e.w.s)
    requires ev.Begin? ==> ShortOfEnd(e.w.s, |Record(c, ev.x)|)
    ensures Harmless(c, e, ev) && NeverFull(Happen(c, e, ev).w.s)
  {
    if Access(c, e, ev).Some? {
      StepShort(e.w.s, Access(c, e, ev).value);
    }
  }

  lemma StepShort(s: State, step: Step)
    requires Enabled(s, step) && NeverFull(s) && (step.StepGrant? ==> ShortOfEnd(s, step.len))
    ensures NeverFull(NextState(s, step)) && (step.StepGrant? ==> SafeGrant(s, step.len))
  {
    PositionModCapacity(s.committed, |s.ring|);
  }

  lemma {:induction false} ShortRunInv<T>(c: Config<T>, ringSize: nat, es: seq<Log<T>>, evs: seq<Event<T>>, i: nat)
    requires Run(c, ringSize, es, evs) && ShortRun(c, es, evs) && i < |es|
    ensures Inv(c, es[i]) && NeverFull(es[i].w.s)
  {
    if i == 0 {
      StartInv(c, ringSize);
    } else {
      ShortRunInv(c, ringSize, es, evs, i - 1);
      assert Possible(c, es[i - 1], evs[i - 1]) && es[i] == Happen(c, es[i - 1], evs[i - 1]);
      HappenShort(c, es[i - 1], evs[i - 1]);
      HappenInv(c, es[i - 1], evs[i - 1]);
    }
  }

  /** If no grant ends at capacity, no run does harm, whatever the sizes. */
  lemma ShortRunHarmless<T>(c: Config<T>, ringSize: nat, es: seq<Log<T>>, evs: seq<Event<T>>)
    requires Run(c, ringSize, es, evs) && ShortRun(c, es, evs)
    ensures HarmlessRun(c, es, evs)
  {
    forall i | 0 <= i < |evs| ensures |es[i].w.s.ring| > 0 && Harmless(c, es[i], evs[i]) {
      ShortRunInv(c, ringSize, es, evs, i);
      assert Possible(c, es[i], evs[i]);
      HappenShort(c, es[i], evs[i]);
    }
  }
}

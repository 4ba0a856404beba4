/**
 Whole runs of the ring buffer. Beside the state, a world records for every reader the
 frames published since it registered and the chunks its read grants delivered; the main
 theorems compare these two observations over every interleaving.
 */
module Broadcast {
  import opened Bytes
  import opened Disruptor

  datatype Step =
    | StepRegister(id: nat)
    | StepGrant(len: nat)
    | StepFill(offset: nat, data: seq<byte>)
    | StepStoreMark
    | StepPublish
    | StepLoadWrite(id: nat)
    | StepLoadMark(id: nat)
    | StepRelease(id: nat)
    | StepUnregister(id: nat)

  /**
   `sent`: frames published since registration; `got`: chunks delivered. The remaining
   fields count frames: `ends[j]` of them are covered by chunks 0..j, `loaded` by the range
   being read, and `wrapped` of them precede the jump of the writer back to zero.
   */
  datatype History = History(
    sent: seq<seq<byte>>,
    got: seq<seq<byte>>,
    ends: seq<nat>,
    loaded: nat,
    wrapped: nat)

  datatype World = World(s: State, hist: map<nat, History>)

  // ---------------------------------------------------------------- steps

  predicate Enabled(s: State, step: Step) {
    && |s.ring| > 0
    && match step
       case StepRegister(id) => id !in s.readers
       case StepGrant(len) => s.grant.Free? && TryGrant(s, len).Ok?
       case StepFill(offset, data) => CanFill(s, offset, data) && !s.grant.marked
       case StepStoreMark => s.grant.Granted? && !s.grant.marked
       case StepPublish => s.grant.Granted? && s.grant.marked
       case StepLoadWrite(id) => id in s.readers && s.readers[id].phase.Idle?
       case StepLoadMark(id) => id in s.readers && s.readers[id].phase.Loaded?
       case StepRelease(id) => id in s.readers && s.readers[id].phase.Reading?
       case StepUnregister(id) => id in s.readers && s.readers[id].phase.Idle?
  }

  /** The exact side conditions of the two steps that need one. */
  predicate Safe(s: State, step: Step)
    requires Enabled(s, step)
  {
    match step
    case StepGrant(len) => SafeGrant(s, len)
    case StepRegister(_) => SafeRegister(s)
    case _ => true
  }

  function NextState(s: State, step: Step): State
    requires Enabled(s, step)
  {
    match step
    case StepRegister(id) => Register(s, id)
    case StepGrant(len) => TryGrant(s, len).value
    case StepFill(offset, data) => Fill(s, offset, data)
    case StepStoreMark => StoreMark(s)
    case StepPublish => Publish(s)
    case StepLoadWrite(id) => LoadWrite(s, id)
    case StepLoadMark(id) => LoadMark(s, id)
    case StepRelease(id) => Release(s, id)
    case StepUnregister(id) => Unregister(s, id)
  }

  /** The bytes of the write grant that a publish makes visible. */
  function Frame(s: State): seq<byte> {
    if s.grant.Granted? then Slice(s.ring, s.grant.start, s.grant.end) else []
  }

  /** The bytes that a reader's outstanding read grant shows. */
  function Chunk(s: State, r: Reader): seq<byte> {
    if r.phase.Reading? then Slice(s.ring, r.cursor, r.phase.end) else []
  }

  /** The effect of a step on the history of one reader that is registered before and after it. */
  function NextHistory(s: State, r: Reader, h: History, id: nat, step: Step): History {
    match step
    case StepPublish =>
      h.(sent := h.sent + [Frame(s)], wrapped := if Wraps(s) then |h.sent| else h.wrapped)
    case StepLoadWrite(i) =>
      if i == id then h.(loaded := |h.sent|) else h
    case StepLoadMark(i) =>
      if i == id && r.phase.Loaded? && r.phase.write < ReadFrom(s, r) then h.(loaded := h.wrapped) else h
    case StepRelease(i) =>
      if i == id then h.(got := h.got + [Chunk(s, r)], ends := h.ends + [h.loaded]) else h
    case _ => h
  }

  function Next(w: World, step: Step): World
    requires Enabled(w.s, step)
    requires w.hist.Keys == w.s.readers.Keys
  {
    var s' := NextState(w.s, step);
    World(s', map id | id in s'.readers ::
      if id in w.s.readers then NextHistory(w.s, w.s.readers[id], w.hist[id], id, step)
      else History([], [], [], 0, 0))
  }

  // ---------------------------------------------------------------- the invariant

  /** Number of frames covered by the first `j` chunks. */
  function Cut(ends: seq<nat>, j: nat): nat
    requires j <= |ends|
  {
    if j == 0 then 0 else ends[j - 1]
  }

  function Taken(h: History): nat {
    Cut(h.ends, |h.ends|)
  }

  /** Chunk `j` is the concatenation of the frames between its two cuts. */
  predicate ChunkOk(sent: seq<seq<byte>>, chunk: seq<byte>, from: nat, to: nat) {
    from <= to <= |sent| && chunk == Flatten(sent[from..to])
  }

  predicate WholeFrames(sent: seq<seq<byte>>, got: seq<seq<byte>>, ends: seq<nat>) {
    && |ends| == |got|
    && Cut(ends, |ends|) <= |sent|
    && forall j | 0 <= j < |got| :: ChunkOk(sent, got[j], Cut(ends, j), Cut(ends, j + 1))
  }

  /** Bytes `a..b` of the ring are the frames `i..j`. */
  predicate Holds(ring: seq<byte>, a: nat, b: nat, sent: seq<seq<byte>>, i: nat, j: nat) {
    i <= j <= |sent| && Slice(ring, a, b) == Flatten(sent[i..j])
  }

  /** The unread slices of the ring hold the frames not yet taken. */
  predicate UnreadOk(s: State, r: Reader, h: History) {
    if Inverted(s, r) then
      && Holds(s.ring, r.cursor, s.mark, h.sent, Taken(h), h.wrapped)
      && Holds(s.ring, 0, s.committed, h.sent, h.wrapped, |h.sent|)
    else Holds(s.ring, r.cursor, s.committed, h.sent, Taken(h), |h.sent|)
  }

  /** What a `try_next` under way is about to deliver is a whole number of frames. */
  predicate PhaseOk(s: State, r: Reader, h: History) {
    match r.phase
    case Idle => true
    case Loaded(w) =>
      if w < r.cursor then Holds(s.ring, 0, w, h.sent, h.wrapped, h.loaded)
      else Holds(s.ring, r.cursor, w, h.sent, Taken(h), h.loaded) && (Inverted(s, r) ==> h.loaded <= h.wrapped)
    case Reading(e) =>
      Holds(s.ring, r.cursor, e, h.sent, Taken(h), h.loaded) && (Inverted(s, r) ==> h.loaded <= h.wrapped)
  }

  predicate HistoryOk(s: State, r: Reader, h: History) {
    WholeFrames(h.sent, h.got, h.ends) && UnreadOk(s, r, h) && PhaseOk(s, r, h)
  }

  predicate WorldInv(w: World) {
    && Inv(w.s)
    && w.hist.Keys == w.s.readers.Keys
    && forall id | id in w.s.readers :: HistoryOk(w.s, w.s.readers[id], w.hist[id])
  }

  // ---------------------------------------------------------------- preservation

  lemma NextInv(s: State, step: Step)
    requires Inv(s) && Enabled(s, step) && Safe(s, step)
    ensures Inv(NextState(s, step))
  {
    match step
    case StepRegister(id) => RegisterInv(s, id);
    case StepGrant(len) => TryGrantInv(s, len);
    case StepFill(offset, data) => FillInv(s, offset, data);
    case StepStoreMark => StoreMarkInv(s);
    case StepPublish => PublishInv(s);
    case StepLoadWrite(id) => LoadWriteInv(s, id);
    case StepLoadMark(id) => LoadMarkInv(s, id);
    case StepRelease(id) => ReleaseInv(s, id);
    case StepUnregister(id) => UnregisterInv(s, id);
  }

  lemma GrantHistory(s: State, h: History, id: nat, len: nat)
    requires Inv(s) && Enabled(s, StepGrant(len)) && SafeGrant(s, len)
    requires id in s.readers && HistoryOk(s, s.readers[id], h)
    ensures HistoryOk(TryGrant(s, len).value, s.readers[id], h)
  {
    if Inverted(s, s.readers[id]) {
      MarkFrozenWhileInverted(s, id, len);
    }
  }

  /** A shorter slice of an unchanged slice is unchanged. */
  lemma SubSlice(ring: seq<byte>, ring': seq<byte>, a: nat, b: nat, c: nat)
    requires |ring| == |ring'| && a <= b <= c <= |ring|
    requires Slice(ring, a, c) == Slice(ring', a, c)
    ensures Slice(ring, a, b) == Slice(ring', a, b)
  {
    assert ring[a..b] == ring[a..c][..b - a];
    assert ring'[a..b] == ring'[a..c][..b - a];
  }

  lemma FillHistory(s: State, h: History, id: nat, offset: nat, data: seq<byte>)
    requires Inv(s) && CanFill(s, offset, data)
    requires id in s.readers && HistoryOk(s, s.readers[id], h)
    ensures HistoryOk(Fill(s, offset, data), s.readers[id], h)
  {
    var r, t := s.readers[id], Fill(s, offset, data);
    assert ReaderOk(s, r);
    FillKeepsSlices(s, offset, data, id);
    match r.phase
    case Idle =>
    case Loaded(w) =>
      if w < r.cursor {
        SubSlice(s.ring, t.ring, 0, w, s.committed);
      } else {
        SubSlice(s.ring, t.ring, r.cursor, w, Top(s, r));
      }
    case Reading(e) =>
      SubSlice(s.ring, t.ring, r.cursor, e, Top(s, r));
  }

  lemma StoreMarkHistory(s: State, h: History, id: nat)
    requires Inv(s) && s.grant.Granted? && !s.grant.marked
    requires id in s.readers && HistoryOk(s, s.readers[id], h)
    ensures HistoryOk(StoreMark(s), s.readers[id], h)
  {
    if Inverted(s, s.readers[id]) {
      MarkFrozenWhileInverted(s, id, 0);
    }
  }

  lemma SentGrows(sent: seq<seq<byte>>, f: seq<byte>, i: nat, j: nat)
    requires i <= j <= |sent|
    ensures (sent + [f])[i..j] == sent[i..j]
    ensures Flatten((sent + [f])[i..|sent| + 1]) == Flatten(sent[i..|sent|]) + f
  {
    assert (sent + [f])[i..|sent| + 1] == sent[i..|sent|] + [f];
    FlattenAppend(sent[i..|sent|], f);
  }

  lemma WholeFramesGrow(h: History, f: seq<byte>)
    requires WholeFrames(h.sent, h.got, h.ends)
    ensures WholeFrames(h.sent + [f], h.got, h.ends)
  {
    forall j | 0 <= j < |h.got| ensures ChunkOk(h.sent + [f], h.got[j], Cut(h.ends, j), Cut(h.ends, j + 1)) {
      assert ChunkOk(h.sent, h.got[j], Cut(h.ends, j), Cut(h.ends, j + 1));
      SentGrows(h.sent, f, Cut(h.ends, j), Cut(h.ends, j + 1));
    }
  }

  lemma WholeFramesTake(h: History, chunk: seq<byte>)
    requires WholeFrames(h.sent, h.got, h.ends)
    requires ChunkOk(h.sent, chunk, Taken(h), h.loaded)
    ensures WholeFrames(h.sent, h.got + [chunk], h.ends + [h.loaded])
  {
    forall j | 0 <= j < |h.got| + 1
      ensures ChunkOk(h.sent, (h.got + [chunk])[j], Cut(h.ends + [h.loaded], j), Cut(h.ends + [h.loaded], j + 1))
    {
      if j < |h.got| {
        assert ChunkOk(h.sent, h.got[j], Cut(h.ends, j), Cut(h.ends, j + 1));
      }
    }
  }

  /** A slice that ends at `committed` grows by the published frame. */
  lemma HoldsThroughPublish(s: State, a: nat, sent: seq<seq<byte>>, i: nat)
    requires s.grant.Granted? && s.grant.start == s.committed <= s.grant.end <= |s.ring|
    requires a <= s.committed && Holds(s.ring, a, s.committed, sent, i, |sent|)
    ensures Holds(s.ring, a, s.grant.end, sent + [Frame(s)], i, |sent| + 1)
  {
    SentGrows(sent, Frame(s), i, |sent|);
    assert s.ring[a..s.grant.end] == s.ring[a..s.committed] + s.ring[s.committed..s.grant.end];
  }

  /** The writer jumps back: the frames so far lie before the mark, the new one from zero. */
  lemma PublishWrapped(s: State, r: Reader, h: History)
    requires s.grant.Granted? && s.grant.start == 0 && s.mark == s.committed
    requires s.grant.end < r.cursor <= s.committed <= |s.ring|
    requires UnreadOk(s, r, h)
    ensures UnreadOk(Publish(s), r, h.(sent := h.sent + [Frame(s)], wrapped := |h.sent|))
  {
    var f, n := Frame(s), |h.sent|;
    SentGrows(h.sent, f, Taken(h), n);
    assert (h.sent + [f])[n..n + 1] == [f];
    assert Flatten([f]) == f;
  }

  /** The writer stays behind an inverted reader. */
  lemma PublishBehind(s: State, r: Reader, h: History)
    requires s.grant.Granted? && s.grant.start == s.committed <= s.grant.end < r.cursor <= |s.ring|
    requires UnreadOk(s, r, h)
    ensures UnreadOk(Publish(s), r, h.(sent := h.sent + [Frame(s)]))
  {
    SentGrows(h.sent, Frame(s), Taken(h), h.wrapped);
    HoldsThroughPublish(s, 0, h.sent, h.wrapped);
  }

  /** The writer moves on ahead of the reader. */
  lemma PublishAhead(s: State, r: Reader, h: History)
    requires s.grant.Granted? && r.cursor <= s.grant.start == s.committed <= s.grant.end <= |s.ring|
    requires UnreadOk(s, r, h)
    ensures UnreadOk(Publish(s), r, h.(sent := h.sent + [Frame(s)]))
  {
    HoldsThroughPublish(s, r.cursor, h.sent, Taken(h));
  }

  lemma PublishUnread(s: State, h: History, id: nat)
    requires Inv(s) && s.grant.Granted? && s.grant.marked
    requires id in s.readers && HistoryOk(s, s.readers[id], h)
    ensures UnreadOk(Publish(s), s.readers[id], NextHistory(s, s.readers[id], h, id, StepPublish))
  {
    var r := s.readers[id];
    assert ReaderOk(s, r);
    if Wraps(s) {
      PublishWrapped(s, r, h);
    } else if Inverted(s, r) {
      PublishBehind(s, r, h);
    } else {
      PublishAhead(s, r, h);
    }
  }

  lemma PublishPhase(s: State, h: History, id: nat)
    requires Inv(s) && s.grant.Granted? && s.grant.marked
    requires id in s.readers && HistoryOk(s, s.readers[id], h)
    ensures PhaseOk(Publish(s), s.readers[id], NextHistory(s, s.readers[id], h, id, StepPublish))
  {
    var r, f := s.readers[id], Frame(s);
    assert ReaderOk(s, r);
    match r.phase
    case Idle =>
    case Loaded(w) =>
      if w < r.cursor {
        SentGrows(h.sent, f, h.wrapped, h.loaded);
      } else {
        SentGrows(h.sent, f, Taken(h), h.loaded);
      }
    case Reading(e) =>
      SentGrows(h.sent, f, Taken(h), h.loaded);
  }

  lemma PublishHistory(s: State, h: History, id: nat)
    requires Inv(s) && s.grant.Granted? && s.grant.marked
    requires id in s.readers && HistoryOk(s, s.readers[id], h)
    ensures HistoryOk(Publish(s), s.readers[id], NextHistory(s, s.readers[id], h, id, StepPublish))
  {
    WholeFramesGrow(h, Frame(s));
    PublishUnread(s, h, id);
    PublishPhase(s, h, id);
  }

  lemma LoadWriteHistory(s: State, h: History, id: nat)
    requires Inv(s) && id in s.readers && s.readers[id].phase.Idle? && HistoryOk(s, s.readers[id], h)
    ensures HistoryOk(LoadWrite(s, id), LoadWrite(s, id).readers[id], h.(loaded := |h.sent|))
  {
  }

  /** The jump back to zero: the frames before the wrap are all taken, so the rest starts at zero. */
  lemma JumpHistory(s: State, r: Reader, h: History)
    requires Inv(s) && ReaderOk(s, r) && HistoryOk(s, r, h)
    requires r.phase.Loaded? && r.phase.write < r.cursor == s.mark
    ensures Holds(s.ring, 0, s.committed, h.sent, Taken(h), |h.sent|)
    ensures Holds(s.ring, 0, r.phase.write, h.sent, Taken(h), h.loaded)
  {
    FlattenSplit(h.sent, Taken(h), h.wrapped, |h.sent|);
    FlattenSplit(h.sent, Taken(h), h.wrapped, h.loaded);
  }

  lemma LoadMarkHistory(s: State, h: History, id: nat)
    requires Inv(s) && id in s.readers && s.readers[id].phase.Loaded? && HistoryOk(s, s.readers[id], h)
    ensures HistoryOk(LoadMark(s, id), LoadMark(s, id).readers[id],
                      NextHistory(s, s.readers[id], h, id, StepLoadMark(id)))
  {
    var r := s.readers[id];
    assert ReaderOk(s, r);
    ReadRangeInBounds(s, id);
    if ReadFrom(s, r) != r.cursor {
      JumpHistory(s, r, h);
    }
  }

  /** Taking the frames `i..k` off the front leaves the frames `k..j`. */
  lemma HoldsRest(ring: seq<byte>, a: nat, e: nat, b: nat, sent: seq<seq<byte>>, i: nat, k: nat, j: nat)
    requires a <= e <= b <= |ring| && k <= j
    requires Holds(ring, a, e, sent, i, k) && Holds(ring, a, b, sent, i, j)
    ensures Holds(ring, e, b, sent, k, j)
  {
    FlattenSplit(sent, i, k, j);
    assert ring[a..b][e - a..] == ring[e..b];
  }

  lemma ReleaseHistory(s: State, h: History, id: nat)
    requires Inv(s) && id in s.readers && s.readers[id].phase.Reading? && HistoryOk(s, s.readers[id], h)
    ensures HistoryOk(Release(s, id), Release(s, id).readers[id],
                      NextHistory(s, s.readers[id], h, id, StepRelease(id)))
  {
    var r := s.readers[id];
    assert ReaderOk(s, r);
    WholeFramesTake(h, Chunk(s, r));
    HoldsRest(s.ring, r.cursor, r.phase.end, Top(s, r), h.sent, Taken(h), h.loaded,
              if Inverted(s, r) then h.wrapped else |h.sent|);
  }

  lemma WriterStepHistory(s: State, h: History, id: nat, step: Step)
    requires Inv(s) && Enabled(s, step) && Safe(s, step) && id in s.readers && HistoryOk(s, s.readers[id], h)
    requires step.StepGrant? || step.StepFill? || step.StepStoreMark? || step.StepPublish?
    ensures HistoryOk(NextState(s, step), s.readers[id], NextHistory(s, s.readers[id], h, id, step))
  {
    match step
    case StepGrant(len) => GrantHistory(s, h, id, len);
    case StepFill(offset, data) => FillHistory(s, h, id, offset, data);
    case StepStoreMark => StoreMarkHistory(s, h, id);
    case StepPublish => PublishHistory(s, h, id);
  }

  lemma OwnStepHistory(s: State, h: History, id: nat, step: Step)
    requires Inv(s) && Enabled(s, step) && id in s.readers && HistoryOk(s, s.readers[id], h)
    requires step == StepLoadWrite(id) || step == StepLoadMark(id) || step == StepRelease(id)
    ensures HistoryOk(NextState(s, step), NextState(s, step).readers[id], NextHistory(s, s.readers[id], h, id, step))
  {
    match step
    case StepLoadWrite(_) => LoadWriteHistory(s, h, id);
    case StepLoadMark(_) => LoadMarkHistory(s, h, id);
    case StepRelease(_) => ReleaseHistory(s, h, id);
  }

  /** A step of another reader changes nothing that this reader's history depends on. */
  lemma OtherStepHistory(s: State, h: History, id: nat, step: Step)
    requires Enabled(s, step) && id in s.readers && HistoryOk(s, s.readers[id], h)
    requires step.StepRegister? || step.StepUnregister? || step.StepLoadWrite? || step.StepLoadMark? || step.StepRelease?
    requires step.id != id
    ensures id in NextState(s, step).readers && NextState(s, step).readers[id] == s.readers[id]
    ensures HistoryOk(NextState(s, step), s.readers[id], NextHistory(s, s.readers[id], h, id, step))
  {
  }

  lemma StepHistory(w: World, step: Step, id: nat)
    requires WorldInv(w) && Enabled(w.s, step) && Safe(w.s, step)
    requires id in NextState(w.s, step).readers
    ensures HistoryOk(NextState(w.s, step), NextState(w.s, step).readers[id], Next(w, step).hist[id])
  {
    var s := w.s;
    if id !in s.readers {
      assert step == StepRegister(id);
    } else {
      var h := w.hist[id];
      assert HistoryOk(s, s.readers[id], h);
      if step.StepGrant? || step.StepFill? || step.StepStoreMark? || step.StepPublish? {
        WriterStepHistory(s, h, id, step);
      } else if step.id == id {
        OwnStepHistory(s, h, id, step);
      } else {
        OtherStepHistory(s, h, id, step);
      }
    }
  }

  lemma StepWorldInv(w: World, step: Step)
    requires WorldInv(w) && Enabled(w.s, step) && Safe(w.s, step)
    ensures WorldInv(Next(w, step))
  {
    NextInv(w.s, step);
    var w' := Next(w, step);
    forall id | id in w'.s.readers ensures HistoryOk(w'.s, w'.s.readers[id], w'.hist[id]) {
      StepHistory(w, step, id);
    }
  }

  // ---------------------------------------------------------------- runs

  /** A run: worlds linked by enabled steps that meet the side conditions. */
  predicate Run(capacity: nat, ws: seq<World>, steps: seq<Step>) {
    && 0 < capacity < U64
    && |ws| == |steps| + 1
    && ws[0] == World(Init(capacity), map[])
    && forall i | 0 <= i < |steps| ::
         && ws[i].hist.Keys == ws[i].s.readers.Keys
         && Enabled(ws[i].s, steps[i])
         && Safe(ws[i].s, steps[i])
         && ws[i + 1] == Next(ws[i], steps[i])
  }

  lemma {:induction false} RunInv(capacity: nat, ws: seq<World>, steps: seq<Step>, i: nat)
    requires Run(capacity, ws, steps) && i < |ws|
    ensures WorldInv(ws[i])
  {
    if i == 0 {
      InitInv(capacity);
    } else {
      RunInv(capacity, ws, steps, i - 1);
      StepWorldInv(ws[i - 1], steps[i - 1]);
    }
  }

  lemma {:induction false} GotIsPrefix(h: History, k: nat)
    requires WholeFrames(h.sent, h.got, h.ends) && k <= |h.got|
    ensures Cut(h.ends, k) <= |h.sent| && Flatten(h.got[..k]) == Flatten(h.sent[0..Cut(h.ends, k)])
  {
    if k > 0 {
      GotIsPrefix(h, k - 1);
      assert ChunkOk(h.sent, h.got[k - 1], Cut(h.ends, k - 1), Cut(h.ends, k));
      assert h.got[..k] == h.got[..k - 1] + [h.got[k - 1]];
      FlattenAppend(h.got[..k - 1], h.got[k - 1]);
      FlattenSplit(h.sent, 0, Cut(h.ends, k - 1), Cut(h.ends, k));
    }
  }

  lemma GotPlusUnread(s: State, r: Reader, h: History)
    requires Inv(s) && ReaderOk(s, r) && HistoryOk(s, r, h)
    ensures Flatten(h.got) + Unread(s, r) == Flatten(h.sent)
  {
    GotIsPrefix(h, |h.got|);
    assert h.got[..|h.got|] == h.got;
    var n := |h.sent|;
    FlattenSplit(h.sent, 0, Taken(h), n);
    if Inverted(s, r) {
      FlattenSplit(h.sent, Taken(h), h.wrapped, n);
    }
    assert h.sent[0..n] == h.sent;
  }

  /**
   The broadcast theorem. At every point of every run and for every reader, the bytes
   delivered so far followed by the bytes still unread in the ring are exactly the bytes
   published since the reader registered; and every chunk is a whole number of frames.
   */
  lemma BroadcastTheorem(capacity: nat, ws: seq<World>, steps: seq<Step>, i: nat, id: nat)
    requires Run(capacity, ws, steps) && i < |ws| && id in ws[i].s.readers
    ensures id in ws[i].hist
    ensures var h, s := ws[i].hist[id], ws[i].s;
            && Flatten(h.got) + Unread(s, s.readers[id]) == Flatten(h.sent)
            && WholeFrames(h.sent, h.got, h.ends)
  {
    RunInv(capacity, ws, steps, i);
    var s := ws[i].s;
    assert ReaderOk(s, s.readers[id]);
    GotPlusUnread(s, s.readers[id], ws[i].hist[id]);
  }

  lemma NothingToRead(s: State, id: nat)
    requires Inv(s) && id in s.readers && s.readers[id].phase.Idle?
    requires LoadMark(LoadWrite(s, id), id).readers[id].phase.Idle?
    ensures Unread(s, s.readers[id]) == []
  {
    assert ReaderOk(s, s.readers[id]);
    LoadWriteInv(s, id);
    ReadRangeInBounds(LoadWrite(s, id), id);
  }

  /** A `try_next` that finds nothing means that the reader has everything published. */
  lemma NothingToReadMeansDrained(w: World, id: nat)
    requires WorldInv(w) && id in w.s.readers && w.s.readers[id].phase.Idle?
    requires LoadMark(LoadWrite(w.s, id), id).readers[id].phase.Idle?
    ensures Flatten(w.hist[id].got) == Flatten(w.hist[id].sent)
  {
    assert ReaderOk(w.s, w.s.readers[id]) && HistoryOk(w.s, w.s.readers[id], w.hist[id]);
    NothingToRead(w.s, id);
    GotPlusUnread(w.s, w.s.readers[id], w.hist[id]);
    assert Flatten(w.hist[id].got) + [] == Flatten(w.hist[id].got);
  }

  lemma {:induction false} FlattenNonEmpty(frames: seq<seq<byte>>)
    requires frames != [] && frames[0] != []
    ensures Flatten(frames) != []
  {
  }

  /** And if no frame is empty, that it has taken every frame. */
  lemma DrainedTookAll(w: World, id: nat)
    requires WorldInv(w) && id in w.s.readers && w.s.readers[id].phase.Idle?
    requires LoadMark(LoadWrite(w.s, id), id).readers[id].phase.Idle?
    requires forall k | 0 <= k < |w.hist[id].sent| :: w.hist[id].sent[k] != []
    ensures Taken(w.hist[id]) == |w.hist[id].sent|
  {
    var h := w.hist[id];
    NothingToReadMeansDrained(w, id);
    assert HistoryOk(w.s, w.s.readers[id], h);
    GotIsPrefix(h, |h.got|);
    assert h.got[..|h.got|] == h.got;
    FlattenSplit(h.sent, 0, Taken(h), |h.sent|);
    assert h.sent[0..|h.sent|] == h.sent;
    assert Flatten(h.sent[Taken(h)..|h.sent|]) == [];
    if Taken(h) < |h.sent| {
      FlattenNonEmpty(h.sent[Taken(h)..|h.sent|]);
    }
  }

  /** While a read grant is out, no step of anybody else changes the bytes it shows. */
  lemma ChunkStable(w: World, step: Step, id: nat)
    requires WorldInv(w) && Enabled(w.s, step) && Safe(w.s, step)
    requires id in w.s.readers && w.s.readers[id].phase.Reading? && step != StepRelease(id)
    ensures id in NextState(w.s, step).readers && NextState(w.s, step).readers[id] == w.s.readers[id]
    ensures Chunk(NextState(w.s, step), w.s.readers[id]) == Chunk(w.s, w.s.readers[id])
  {
    var r := w.s.readers[id];
    assert ReaderOk(w.s, r);
    if step.StepFill? {
      FillKeepsSlices(w.s, step.offset, step.data, id);
      SubSlice(w.s.ring, Fill(w.s, step.offset, step.data).ring, r.cursor, r.phase.end, Top(w.s, r));
    }
  }
}

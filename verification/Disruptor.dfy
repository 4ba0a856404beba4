/**
 The single-writer, multi-reader broadcast ring buffer as a state machine. Each step is
 one atomic access (or one call that holds the write lock throughout), so that every
 interleaving of a writer and any number of readers is a sequence of steps.

 Positions are kept exactly as the atomics hold them: `committed` and a cursor may equal
 the capacity, and only `TryGrant` reduces them modulo the capacity.
 */
module Disruptor {
  import opened Bytes

  /** Where a reader is between the three loads of `try_next` and the drop of its grant. */
  datatype Phase =
    | Idle
    | Loaded(write: nat)   // cursor and committed loaded, high-water mark not yet
    | Reading(end: nat)    // holds the read grant cursor..end

  datatype Reader = Reader(cursor: nat, phase: Phase)

  /** The write grant, which holds the write lock until it is dropped. */
  datatype Grant =
    | Free
    | Granted(start: nat, end: nat, marked: bool)  // marked: drop has updated the high-water mark

  datatype State = State(
    ring: seq<byte>,
    committed: nat,
    mark: nat,                 // high_water_mark
    grant: Grant,
    readers: map<nat, Reader>)

  datatype GrantError = WouldBlock | InsufficientCapacity

  function Init(capacity: nat): State {
    State(seq(capacity, i => 0), 0, 0, Free, map[])
  }

  // ---------------------------------------------------------------- the writer

  /** Whether one reader leaves room for `len` bytes at `write`. */
  predicate LeavesRoom(read: nat, len: nat, write: nat, max: nat) {
    && !(write < read && write + len >= read)
    && !(write + len > max && len >= read)
  }

  predicate CanWrite(s: State, len: nat, write: nat)
    requires |s.ring| > 0
  {
    forall id | id in s.readers :: LeavesRoom(s.readers[id].cursor % |s.ring|, len, write, |s.ring|)
  }

  function TryGrant(s: State, len: nat): Result<State, GrantError>
    requires |s.ring| > 0 && s.grant.Free?
  {
    var max := |s.ring|;
    var write := s.committed % max;
    if len > max then Err(InsufficientCapacity)
    else if !CanWrite(s, len, write) then Err(WouldBlock)
    else if write + len > max then Ok(s.(grant := Granted(0, len, false), mark := 0))
    else
      Ok(s.(grant := Granted(write, write + len, false),
            mark := if write + len > s.mark then write + len else s.mark))
  }

  predicate CanFill(s: State, offset: nat, data: seq<byte>) {
    s.grant.Granted? && s.grant.start + offset + |data| <= s.grant.end <= |s.ring|
  }

  /** Overwrites part of the granted range. */
  function Fill(s: State, offset: nat, data: seq<byte>): State
    requires CanFill(s, offset, data)
  {
    var at := s.grant.start + offset;
    s.(ring := s.ring[..at] + data + s.ring[at + |data|..])
  }

  /** First half of dropping a write grant: the high-water mark. */
  function StoreMark(s: State): State
    requires s.grant.Granted?
  {
    var end := s.grant.end;
    var mark := if end < s.committed && end != |s.ring| then s.committed
                else if end > s.mark then |s.ring|
                else s.mark;
    s.(mark := mark, grant := s.grant.(marked := true))
  }

  /** Second half: publish the new end and release the lock. */
  function Publish(s: State): State
    requires s.grant.Granted?
  {
    s.(committed := s.grant.end, grant := Free)
  }

  // ---------------------------------------------------------------- the readers

  function Register(s: State, id: nat): State {
    s.(readers := s.readers[id := Reader(s.committed, Idle)])
  }

  function LoadWrite(s: State, id: nat): State
    requires id in s.readers
  {
    s.(readers := s.readers[id := s.readers[id].(phase := Loaded(s.committed))])
  }

  /** The cursor after the possible jump back to zero. */
  function ReadFrom(s: State, r: Reader): nat
    requires r.phase.Loaded?
  {
    if r.cursor == s.mark && r.phase.write < r.cursor then 0 else r.cursor
  }

  /** The minuend of the length subtraction. */
  function ReadTo(s: State, r: Reader): nat
    requires r.phase.Loaded?
  {
    if r.phase.write < ReadFrom(s, r) then s.mark else r.phase.write
  }

  /** Loads the high-water mark and finishes `try_next`; the subtraction wraps as in `u64`. */
  function LoadMark(s: State, id: nat): State
    requires id in s.readers && s.readers[id].phase.Loaded?
  {
    var r := s.readers[id];
    var read := ReadFrom(s, r);
    var len := (ReadTo(s, r) - read) % U64;
    s.(readers := s.readers[id := Reader(read, if len > 0 then Reading(read + len) else Idle)])
  }

  /** Drops a read grant. */
  function Release(s: State, id: nat): State
    requires id in s.readers && s.readers[id].phase.Reading?
  {
    s.(readers := s.readers[id := Reader(s.readers[id].phase.end, Idle)])
  }

  function Unregister(s: State, id: nat): State {
    s.(readers := s.readers - {id})
  }

  // ---------------------------------------------------------------- the invariant

  predicate Inverted(s: State, r: Reader) {
    s.committed < r.cursor
  }

  /** End of the part of the unread bytes that starts at the cursor. */
  function Top(s: State, r: Reader): nat {
    if Inverted(s, r) then s.mark else s.committed
  }

  predicate ReaderOk(s: State, r: Reader) {
    && r.cursor <= Top(s, r)
    && match r.phase
       case Idle => true
       case Loaded(w) => if w < r.cursor then Inverted(s, r) && w <= s.committed else w <= Top(s, r)
       case Reading(e) => r.cursor < e <= Top(s, r)
  }

  /** The grant starts over at zero instead of continuing at `committed`. */
  predicate Wraps(s: State) {
    s.grant.Granted? && s.grant.start != s.committed
  }

  predicate GrantOk(s: State) {
    s.grant.Granted? ==>
      var g := s.grant;
      && g.start <= g.end <= |s.ring|
      && (!Wraps(s) ==>
            && g.end <= s.mark
            && forall id | id in s.readers && Inverted(s, s.readers[id]) :: g.end < s.readers[id].cursor)
      && (Wraps(s) ==>
            && g.start == 0
            && (g.end < s.committed || s.readers == map[])
            && (g.marked && g.end < s.committed ==> s.mark == s.committed)
            && (g.marked && g.end == |s.ring| ==> s.mark == |s.ring|)
            && forall id | id in s.readers :: g.end < s.readers[id].cursor <= s.committed)
  }

  predicate Inv(s: State) {
    && 0 < |s.ring| < U64
    && s.committed <= |s.ring|
    && s.mark <= |s.ring|
    && (s.committed == |s.ring| ==> s.mark == |s.ring|)
    && (forall id | id in s.readers :: ReaderOk(s, s.readers[id]))
    && GrantOk(s)
  }

  // ---------------------------------------------------------------- exact side conditions

  /**
   The one family of grants that the code admits and must not: a reader whose cursor is
   zero while the ring is full to capacity, or equal to capacity while the grant ends there.
   */
  predicate SafeGrant(s: State, len: nat)
    requires |s.ring| > 0
  {
    var write := s.committed % |s.ring|;
    forall id | id in s.readers ::
      && !(s.committed == |s.ring| && s.readers[id].cursor == 0)
      && !(write + len == |s.ring| && s.readers[id].cursor == |s.ring|)
  }

  /** A reader may join while a write is outstanding unless that write wraps past `committed`. */
  predicate SafeRegister(s: State) {
    Wraps(s) ==> s.grant.end < s.committed
  }

  // ---------------------------------------------------------------- preservation, step by step

  lemma InitInv(capacity: nat)
    requires 0 < capacity < U64
    ensures Inv(Init(capacity))
    ensures var s := Init(capacity);
            |s.ring| == capacity && s.committed == s.mark == 0 && s.grant.Free? && s.readers == map[]
  {
  }

  lemma PositionModCapacity(x: nat, max: nat)
    requires 0 < max && x <= max
    ensures x % max == if x == max then 0 else x
  {
  }

  /** What the room check and the side condition give for a single reader. */
  lemma RoomForOneReader(s: State, len: nat, id: nat)
    requires Inv(s) && s.grant.Free? && SafeGrant(s, len) && TryGrant(s, len).Ok?
    requires id in s.readers
    ensures var t, r := TryGrant(s, len).value, s.readers[id];
            && ReaderOk(t, r)
            && (!Wraps(t) && Inverted(s, r) ==> t.grant.end < r.cursor)
            && (Wraps(t) ==> t.grant.end < r.cursor <= s.committed)
  {
    var max, r := |s.ring|, s.readers[id];
    assert ReaderOk(s, r);
    PositionModCapacity(s.committed, max);
    PositionModCapacity(r.cursor, max);
    assert LeavesRoom(r.cursor % max, len, s.committed % max, max);
  }

  lemma TryGrantInv(s: State, len: nat)
    requires Inv(s) && s.grant.Free? && SafeGrant(s, len)
    ensures TryGrant(s, len).Ok? ==> Inv(TryGrant(s, len).value)
  {
    if TryGrant(s, len).Ok? {
      var t := TryGrant(s, len).value;
      PositionModCapacity(s.committed, |s.ring|);
      forall id | id in s.readers
        ensures ReaderOk(t, s.readers[id])
        ensures !Wraps(t) && Inverted(s, s.readers[id]) ==> t.grant.end < s.readers[id].cursor
        ensures Wraps(t) ==> t.grant.end < s.readers[id].cursor <= s.committed
      {
        RoomForOneReader(s, len, id);
      }
      if Wraps(t) && s.readers != map[] {
        var id :| id in s.readers;
        assert t.grant.end < s.readers[id].cursor <= s.committed;
      }
    }
  }

  lemma FillInv(s: State, offset: nat, data: seq<byte>)
    requires Inv(s) && CanFill(s, offset, data)
    ensures Inv(Fill(s, offset, data))
  {
    var t := Fill(s, offset, data);
    assert forall id | id in s.readers :: ReaderOk(s, s.readers[id]) ==> ReaderOk(t, s.readers[id]);
  }

  lemma StoreMarkInv(s: State)
    requires Inv(s) && s.grant.Granted? && !s.grant.marked
    ensures Inv(StoreMark(s))
    ensures Wraps(s) || StoreMark(s).mark == s.mark
  {
    var t := StoreMark(s);
    forall id | id in s.readers ensures ReaderOk(t, s.readers[id]) {
      assert ReaderOk(s, s.readers[id]);
    }
  }

  lemma PublishInv(s: State)
    requires Inv(s) && s.grant.Granted? && s.grant.marked
    ensures Inv(Publish(s))
  {
    var t := Publish(s);
    forall id | id in s.readers ensures ReaderOk(t, s.readers[id]) {
      assert ReaderOk(s, s.readers[id]);
    }
  }

  lemma RegisterInv(s: State, id: nat)
    requires Inv(s) && id !in s.readers && SafeRegister(s)
    ensures Inv(Register(s, id))
  {
    var t := Register(s, id);
    forall i | i in t.readers ensures ReaderOk(t, t.readers[i]) {
      assert i != id ==> ReaderOk(s, s.readers[i]);
    }
  }

  lemma LoadWriteInv(s: State, id: nat)
    requires Inv(s) && id in s.readers && s.readers[id].phase.Idle?
    ensures Inv(LoadWrite(s, id))
  {
    OneReaderInv(s, id, s.readers[id].(phase := Loaded(s.committed)));
  }

  /** The subtraction in the read path never wraps and the range stays inside the ring. */
  lemma ReadRangeInBounds(s: State, id: nat)
    requires Inv(s) && id in s.readers && s.readers[id].phase.Loaded?
    ensures ReadFrom(s, s.readers[id]) <= ReadTo(s, s.readers[id]) <= |s.ring|
    ensures LoadMark(s, id).readers[id].phase.Reading? ==>
              LoadMark(s, id).readers[id].phase.end == ReadTo(s, s.readers[id])
  {
    assert ReaderOk(s, s.readers[id]);
  }

  lemma LoadMarkInv(s: State, id: nat)
    requires Inv(s) && id in s.readers && s.readers[id].phase.Loaded?
    ensures Inv(LoadMark(s, id))
  {
    ReadRangeInBounds(s, id);
    assert ReaderOk(s, s.readers[id]);
    OneReaderInv(s, id, LoadMark(s, id).readers[id]);
  }

  lemma ReleaseInv(s: State, id: nat)
    requires Inv(s) && id in s.readers && s.readers[id].phase.Reading?
    ensures Inv(Release(s, id))
  {
    assert ReaderOk(s, s.readers[id]);
    OneReaderInv(s, id, Reader(s.readers[id].phase.end, Idle));
  }

  /** Changing one reader keeps the invariant if that reader stays clear of the outstanding grant. */
  lemma OneReaderInv(s: State, id: nat, r: Reader)
    requires Inv(s) && id in s.readers
    requires ReaderOk(s, r)
    requires s.grant.Granted? && !Wraps(s) && Inverted(s, r) ==> s.grant.end < r.cursor
    requires Wraps(s) ==> s.grant.end < r.cursor <= s.committed
    ensures Inv(s.(readers := s.readers[id := r]))
  {
    var t := s.(readers := s.readers[id := r]);
    forall i | i in t.readers ensures ReaderOk(t, t.readers[i]) {
      if i == id {
        assert ReaderOk(s, r);
      } else {
        assert ReaderOk(s, s.readers[i]);
      }
    }
    if Wraps(s) {
      assert s.grant.end < s.committed;
    }
  }

  lemma UnregisterInv(s: State, id: nat)
    requires Inv(s)
    ensures Inv(Unregister(s, id))
    ensures id !in Unregister(s, id).readers
    ensures forall i | i != id ::
              (i in s.readers <==> i in Unregister(s, id).readers) && (i in s.readers ==> Unregister(s, id).readers[i] == s.readers[i])
    ensures Unregister(s, id) == s.(readers := Unregister(s, id).readers)
  {
    var t := Unregister(s, id);
    forall i | i in t.readers ensures ReaderOk(t, t.readers[i]) {
      assert ReaderOk(s, s.readers[i]);
    }
  }

  // ---------------------------------------------------------------- unread bytes

  function Slice(ring: seq<byte>, a: nat, b: nat): seq<byte> {
    if a <= b <= |ring| then ring[a..b] else []
  }

  /** The bytes a reader has not yet been given, as they lie in the ring. */
  function Unread(s: State, r: Reader): seq<byte> {
    if Inverted(s, r) then Slice(s.ring, r.cursor, s.mark) + Slice(s.ring, 0, s.committed)
    else Slice(s.ring, r.cursor, s.committed)
  }

  /** No position is both granted to the writer and unread, or under a read grant, by a reader. */
  lemma GrantAvoidsReaders(s: State, id: nat, i: nat)
    requires Inv(s) && s.grant.Granted? && id in s.readers
    requires s.grant.start <= i < s.grant.end
    ensures var r := s.readers[id];
            && !(r.cursor <= i < Top(s, r))
            && !(Inverted(s, r) && i < s.committed)
            && (r.phase.Reading? ==> !(r.cursor <= i < r.phase.end))
  {
    assert ReaderOk(s, s.readers[id]);
  }

  /** While some reader is inverted, no step of the writer moves the high-water mark. */
  lemma MarkFrozenWhileInverted(s: State, id: nat, len: nat)
    requires Inv(s) && id in s.readers && Inverted(s, s.readers[id])
    ensures s.grant.Free? && SafeGrant(s, len) && TryGrant(s, len).Ok? ==> TryGrant(s, len).value.mark == s.mark
    ensures s.grant.Granted? && !s.grant.marked ==> StoreMark(s).mark == s.mark
  {
    assert ReaderOk(s, s.readers[id]);
    if s.grant.Free? && SafeGrant(s, len) && TryGrant(s, len).Ok? {
      PositionModCapacity(s.committed, |s.ring|);
      RoomForOneReader(s, len, id);
    }
    if s.grant.Granted? && !s.grant.marked {
      StoreMarkInv(s);
    }
  }

  lemma SliceOutside(ring: seq<byte>, at: nat, data: seq<byte>, a: nat, b: nat)
    requires at + |data| <= |ring|
    requires a >= b || b <= at || at + |data| <= a
    ensures Slice(ring[..at] + data + ring[at + |data|..], a, b) == Slice(ring, a, b)
  {
  }

  /** Filling the grant changes neither part of what a reader has still to read. */
  lemma FillKeepsSlices(s: State, offset: nat, data: seq<byte>, id: nat)
    requires Inv(s) && CanFill(s, offset, data) && id in s.readers
    ensures var r, t := s.readers[id], Fill(s, offset, data);
            && Slice(t.ring, r.cursor, Top(s, r)) == Slice(s.ring, r.cursor, Top(s, r))
            && (Inverted(s, r) ==> Slice(t.ring, 0, s.committed) == Slice(s.ring, 0, s.committed))
  {
    var r := s.readers[id];
    assert ReaderOk(s, r);
    var at := s.grant.start + offset;
    SliceOutside(s.ring, at, data, r.cursor, Top(s, r));
    if Inverted(s, r) {
      SliceOutside(s.ring, at, data, 0, s.committed);
    }
  }

  lemma PublishAppends(s: State, id: nat)
    requires Inv(s) && s.grant.Granted? && s.grant.marked && id in s.readers
    ensures Unread(Publish(s), s.readers[id]) == Unread(s, s.readers[id]) + s.ring[s.grant.start..s.grant.end]
  {
    var r, c, g := s.readers[id], s.committed, s.grant;
    assert ReaderOk(s, r);
    if Wraps(s) {
    } else if Inverted(s, r) {
      assert s.ring[0..g.end] == s.ring[0..c] + s.ring[c..g.end];
    } else {
      assert s.ring[r.cursor..g.end] == s.ring[r.cursor..c] + s.ring[c..g.end];
    }
  }

  // ---------------------------------------------------------------- one whole write

  /** A write by a caller that fills its whole grant: grant, copy, drop. */
  function Push(s: State, data: seq<byte>): Result<State, GrantError>
    requires |s.ring| > 0 && s.grant.Free?
  {
    match TryGrant(s, |data|)
    case Err(e) => Err(e)
    case Ok(t) =>
      PositionModCapacity(s.committed % |s.ring|, |s.ring|);
      Ok(Publish(StoreMark(Fill(t, 0, data))))
  }

  /** Granting and filling a write leave a reader's unread bytes as they were. */
  lemma FilledKeepsUnread(s: State, data: seq<byte>, id: nat)
    requires Inv(s) && s.grant.Free? && SafeGrant(s, |data|) && TryGrant(s, |data|).Ok?
    requires id in s.readers
    ensures var t := TryGrant(s, |data|).value;
            && CanFill(t, 0, data) && Inv(Fill(t, 0, data))
            && Unread(Fill(t, 0, data), s.readers[id]) == Unread(s, s.readers[id])
  {
    var r := s.readers[id];
    TryGrantInv(s, |data|);
    var t := TryGrant(s, |data|).value;
    if Inverted(s, r) {
      MarkFrozenWhileInverted(s, id, |data|);
    }
    assert Unread(t, r) == Unread(s, r);
    FillInv(t, 0, data);
    FillKeepsSlices(t, 0, data, id);
  }

  lemma PushOneReader(s: State, data: seq<byte>, id: nat)
    requires Inv(s) && s.grant.Free? && SafeGrant(s, |data|) && Push(s, data).Ok?
    requires id in s.readers
    ensures Unread(Push(s, data).value, s.readers[id]) == Unread(s, s.readers[id]) + data
  {
    var r := s.readers[id];
    FilledKeepsUnread(s, data, id);
    var f := Fill(TryGrant(s, |data|).value, 0, data);
    StoreMarkInv(f);
    if Inverted(f, r) {
      MarkFrozenWhileInverted(f, id, |data|);
    }
    assert Unread(StoreMark(f), r) == Unread(f, r);
    PublishAppends(StoreMark(f), id);
    assert f.ring[f.grant.start..f.grant.end] == data;
  }

  lemma PushInv(s: State, data: seq<byte>)
    requires Inv(s) && s.grant.Free? && SafeGrant(s, |data|) && Push(s, data).Ok?
    ensures Inv(Push(s, data).value) && Push(s, data).value.grant.Free?
    ensures Push(s, data).value.readers == s.readers
    ensures forall id | id in s.readers ::
              Unread(Push(s, data).value, s.readers[id]) == Unread(s, s.readers[id]) + data
  {
    TryGrantInv(s, |data|);
    var t := TryGrant(s, |data|).value;
    FillInv(t, 0, data);
    var f := Fill(t, 0, data);
    StoreMarkInv(f);
    PublishInv(StoreMark(f));
    forall id | id in s.readers
      ensures Unread(Push(s, data).value, s.readers[id]) == Unread(s, s.readers[id]) + data
    {
      PushOneReader(s, data, id);
    }
  }

  /** The side condition is exact: an admitted write reaches every reader if and only if it holds. */
  lemma PushReachesAllIffSafe(s: State, data: seq<byte>)
    requires Inv(s) && s.grant.Free? && Push(s, data).Ok?
    ensures SafeGrant(s, |data|) <==>
              forall id | id in s.readers ::
                Unread(Push(s, data).value, s.readers[id]) == Unread(s, s.readers[id]) + data
  {
    if SafeGrant(s, |data|) {
      PushInv(s, data);
    } else {
      PositionModCapacity(s.committed, |s.ring|);
      var write := s.committed % |s.ring|;
      var id :| id in s.readers
                && ((s.committed == |s.ring| && s.readers[id].cursor == 0)
                    || (write + |data| == |s.ring| && s.readers[id].cursor == |s.ring|));
      var t := Push(s, data).value;
      assert |Unread(t, s.readers[id])| < |Unread(s, s.readers[id])| + |data|;
    }
  }

  /** What is left of dropping a write grant: both halves, or the second if the first is done. */
  function Drop(s: State): State
    requires s.grant.Granted?
  {
    Publish(if s.grant.marked then s else StoreMark(s))
  }

  lemma DropAppends(s: State, id: nat)
    requires Inv(s) && s.grant.Granted? && id in s.readers
    ensures Unread(Drop(s), s.readers[id]) == Unread(s, s.readers[id]) + s.ring[s.grant.start..s.grant.end]
  {
    if s.grant.marked {
      PublishAppends(s, id);
    } else {
      StoreMarkInv(s);
      assert ReaderOk(s, s.readers[id]);
      assert Unread(StoreMark(s), s.readers[id]) == Unread(s, s.readers[id]);
      PublishAppends(StoreMark(s), id);
    }
  }

  /**
   Likewise for joining at any point of a write: the new reader sees exactly that write, once it is
   dropped, if and only if the write did not wrap to the committed position or beyond.
   */
  lemma RegisterDuringWriteIffSafe(s: State, id: nat)
    requires Inv(s) && s.grant.Granted? && id !in s.readers
    ensures SafeRegister(s) <==>
              Unread(Drop(Register(s, id)), Reader(s.committed, Idle)) == s.ring[s.grant.start..s.grant.end]
  {
    if SafeRegister(s) {
      RegisterInv(s, id);
      DropAppends(Register(s, id), id);
      assert Unread(Register(s, id), Reader(s.committed, Idle)) == [];
    } else {
      assert |Unread(Drop(Register(s, id)), Reader(s.committed, Idle))| < s.grant.end;
    }
  }

  // ---------------------------------------------------------------- which writes are admitted

  /**
   Whether one reader lets a write of `len` bytes through, going by positions. A position at capacity
   counts as zero, for the writer and for the reader. A reader ahead of the writer must stay ahead of
   the end of the write. One that is not ahead matters only if the write does not end by capacity: then
   the write starts over at zero and must end before the reader.
   */
  predicate HasRoom(s: State, r: Reader, len: nat) {
    var n := |s.ring|;
    if s.committed == n then r.cursor == 0 || r.cursor == n || len < r.cursor
    else if r.cursor == n then s.committed + len <= n
    else if r.cursor > s.committed then s.committed + len < r.cursor
    else s.committed + len <= n || len < r.cursor
  }

  /**
   A write is admitted if and only if it is no longer than the ring and every reader has room for it;
   then it is granted at the committed position, or at zero if it does not end by capacity there.
   */
  lemma AdmittedIff(s: State, len: nat)
    requires Inv(s) && s.grant.Free?
    ensures TryGrant(s, len).Ok? <==> len <= |s.ring| && forall id | id in s.readers :: HasRoom(s, s.readers[id], len)
    ensures TryGrant(s, len).Err? ==>
              TryGrant(s, len).error == if len > |s.ring| then InsufficientCapacity else WouldBlock
    ensures TryGrant(s, len).Ok? ==>
              var t := TryGrant(s, len).value;
              var at := if s.committed == |s.ring| || s.committed + len > |s.ring| then 0 else s.committed;
              && t.grant == Granted(at, at + len, false)
              && t.ring == s.ring && t.committed == s.committed && t.readers == s.readers
              && t.mark == if s.committed < |s.ring| < s.committed + len then 0
                           else if at + len > s.mark then at + len else s.mark
  {
    var n := |s.ring|;
    PositionModCapacity(s.committed, n);
    forall id | id in s.readers
      ensures len <= n ==> (HasRoom(s, s.readers[id], len) <==> LeavesRoom(s.readers[id].cursor % n, len, s.committed % n, n))
    {
      assert ReaderOk(s, s.readers[id]);
      PositionModCapacity(s.readers[id].cursor, n);
    }
  }

  /** The same in bytes not yet read, away from capacity. */
  lemma RoomInUnreadBytes(s: State, id: nat, len: nat)
    requires Inv(s) && id in s.readers && s.committed < |s.ring| && s.readers[id].cursor < |s.ring|
    ensures var r := s.readers[id];
            HasRoom(s, r, len) <==>
              if Inverted(s, r) then len + |Unread(s, r)| < s.mark
              else s.committed + len <= |s.ring| || len + |Unread(s, r)| < s.committed
  {
    assert ReaderOk(s, s.readers[id]);
  }

  /** With everything read, every write that ends by capacity is admitted, and one that does not if it ends before. */
  lemma DrainedRingAdmits(s: State, len: nat)
    requires Inv(s) && s.grant.Free? && 0 <= s.committed < |s.ring|
    requires s.readers != map[] && forall id | id in s.readers :: s.readers[id].cursor == s.committed
    ensures TryGrant(s, len).Ok? <==> s.committed + len <= |s.ring| || len < s.committed
  {
    AdmittedIff(s, len);
    var id :| id in s.readers;
    assert HasRoom(s, s.readers[id], len) <==> s.committed + len <= |s.ring| || len < s.committed;
  }

  /** With nobody reading, whatever is no longer than the ring is admitted. */
  lemma UnreadRingAdmits(s: State, len: nat)
    requires Inv(s) && s.grant.Free? && s.readers == map[]
    ensures TryGrant(s, len).Ok? <==> len <= |s.ring|
  {
    AdmittedIff(s, len);
  }

  // ---------------------------------------------------------------- what a read delivers

  /** The reader after both loads, by its position relative to the writer's. */
  function Advanced(s: State, r: Reader): Reader {
    if !Inverted(s, r) then Reader(r.cursor, if r.cursor < s.committed then Reading(s.committed) else Idle)
    else if r.cursor < s.mark then Reader(r.cursor, Reading(s.mark))
    else Reader(0, if s.committed > 0 then Reading(s.committed) else Idle)
  }

  lemma NextIsAdvanced(s: State, id: nat)
    requires Inv(s) && id in s.readers && s.readers[id].phase.Idle?
    ensures LoadMark(LoadWrite(s, id), id) == s.(readers := s.readers[id := Advanced(s, s.readers[id])])
  {
    var r, u := s.readers[id], LoadWrite(s, id);
    assert ReaderOk(s, r);
    LoadWriteInv(s, id);
    ReadRangeInBounds(u, id);
    assert u.readers[id := Advanced(s, r)] == s.readers[id := Advanced(s, r)];
  }

  /**
   A read that nobody disturbs delivers everything unread, up to the high-water mark if the writer has
   started over; what is left then is what lies at the front of the ring, and dropping the grant
   leaves just that.
   */
  lemma NextDelivers(s: State, id: nat)
    requires Inv(s) && id in s.readers && s.readers[id].phase.Idle?
    ensures var r, t := s.readers[id], LoadMark(LoadWrite(s, id), id);
            var front := if Inverted(s, r) && r.cursor < s.mark then Slice(s.ring, 0, s.committed) else [];
            var r' := t.readers[id];
            && (if Unread(s, r) == [] then r'.phase.Idle? else r'.phase.Reading?)
            && (r'.phase.Reading? ==>
                  && Slice(s.ring, r'.cursor, r'.phase.end) + front == Unread(s, r)
                  && Unread(Release(t, id), Release(t, id).readers[id]) == front)
  {
    var r := s.readers[id];
    NextIsAdvanced(s, id);
    assert ReaderOk(s, r);
    assert Slice(s.ring, s.mark, s.mark) == [];
  }

  // ---------------------------------------------------------------- readers that join late

  /** Such a write is admitted only while nobody reads, so with one reader joining is always safe. */
  lemma AnyReaderMakesJoiningSafe(s: State, id: nat)
    requires Inv(s) && id in s.readers
    ensures SafeRegister(s)
  {
  }

  /**
   It can happen: with no reader, the second of two writes of more than half the ring wraps onto
   the first, and a reader that joins before it is dropped finds nothing of it.
   */
  lemma LateJoinerMissesWrite(capacity: nat, a: seq<byte>, b: seq<byte>, id: nat)
    requires |a| == |b| < capacity < 2 * |a| && capacity < U64
    ensures Push(Init(capacity), a).Ok?
    ensures var s := Push(Init(capacity), a).value;
            && s.grant.Free? && TryGrant(s, |b|).Ok? && CanFill(TryGrant(s, |b|).value, 0, b)
            && var joined := Register(Fill(TryGrant(s, |b|).value, 0, b), id);
               && joined.ring[joined.grant.start..joined.grant.end] == b
               && Unread(Drop(joined), joined.readers[id]) == []
  {
    PositionModCapacity(0, capacity);
    PositionModCapacity(|a|, capacity);
  }

  /** Filling a grant front to back in two pieces is filling it at once. */
  lemma FillInTwo(s: State, a: seq<byte>, b: seq<byte>)
    requires CanFill(s, 0, a + b)
    ensures CanFill(s, 0, a) && CanFill(Fill(s, 0, a), |a|, b)
    ensures Fill(Fill(s, 0, a), |a|, b) == Fill(s, 0, a + b)
  {
    var at := s.grant.start;
    assert s.ring[..at] + a + b + s.ring[at + |a + b|..] == s.ring[..at] + (a + b) + s.ring[at + |a + b|..];
    var once := s.ring[..at] + a + s.ring[at + |a|..];
    assert once[..at + |a|] == s.ring[..at] + a;
    assert once[at + |a| + |b|..] == s.ring[at + |a| + |b|..];
  }
}

/**
 The ring buffer as the object that the program updates in place: the byte array, the two
 atomics of the write head and the linked list of readers. Every method is proved to take
 the state exactly where the state machine of `Disruptor` takes it.
 */
module DisruptorCore {
  import opened Bytes
  import opened Disruptor

  class Core {
    const ringbuf: array<byte>
    var committed: nat
    var highWaterMark: nat
    var grant: Grant               // the outstanding write grant, which holds the write lock
    var list: seq<nat>             // the linked list of readers, newest first
    var readers: map<nat, Reader>

    ghost predicate Valid()
      reads this
    {
      && ringbuf.Length > 0
      && (forall id :: id in list <==> id in readers)
      && (forall i, j | 0 <= i < j < |list| :: list[i] != list[j])
      && (grant.Granted? ==> grant.start <= grant.end <= ringbuf.Length)
    }

    ghost function Abs(): State
      reads this, ringbuf
    {
      State(ringbuf[..], committed, highWaterMark, grant, readers)
    }

    constructor (capacity: nat)
      requires capacity > 0
      ensures Valid() && fresh(ringbuf)
      ensures Abs() == Init(capacity)
    {
      ringbuf := new byte[capacity](i => 0);
      committed, highWaterMark, grant := 0, 0, Free;
      list, readers := [], map[];
    }

    /** Walks the reader list and stops at the first reader in the way. */
    method CanWrite(len: nat, write: nat) returns (room: bool)
      requires Valid()
      ensures room == Disruptor.CanWrite(Abs(), len, write)
    {
      var i := 0;
      while i < |list|
        invariant 0 <= i <= |list|
        invariant forall j | 0 <= j < i ::
                    LeavesRoom(readers[list[j]].cursor % ringbuf.Length, len, write, ringbuf.Length)
      {
        var read := readers[list[i]].cursor % ringbuf.Length;
        if (write < read && write + len >= read) || (write + len > ringbuf.Length && len >= read) {
          assert list[i] in readers && !LeavesRoom(read, len, write, ringbuf.Length);
          return false;
        }
        i := i + 1;
      }
      return true;
    }

    method TryGrant(len: nat) returns (error: Option<GrantError>)
      requires Valid() && grant.Free?
      modifies this
      ensures Valid()
      ensures error.None? ==> Disruptor.TryGrant(old(Abs()), len) == Ok(Abs())
      ensures error.Some? ==> Disruptor.TryGrant(old(Abs()), len) == Err(error.value) && Abs() == old(Abs())
    {
      var write := committed % ringbuf.Length;
      if len > ringbuf.Length {
        return Some(InsufficientCapacity);
      }
      var room := CanWrite(len, write);
      if !room {
        return Some(WouldBlock);
      }
      if write + len > ringbuf.Length {
        write := 0;
        highWaterMark := write;
      } else if write + len > highWaterMark {
        highWaterMark := write + len;
      }
      grant := Granted(write, write + len, false);
      return None;
    }

    /** Copies into the granted range. */
    method CopyIntoGrant(offset: nat, data: seq<byte>)
      requires Valid() && grant.Granted? && grant.start + offset + |data| <= grant.end
      modifies ringbuf
      ensures Valid()
      ensures CanFill(old(Abs()), offset, data) && Abs() == Fill(old(Abs()), offset, data)
    {
      var at := grant.start + offset;
      var i := 0;
      while i < |data|
        invariant 0 <= i <= |data|
        invariant ringbuf[at..at + i] == data[..i]
        invariant ringbuf[..at] == old(ringbuf[..at])
        invariant ringbuf[at + i..] == old(ringbuf[at + i..])
      {
        ringbuf[at + i] := data[i];
        i := i + 1;
      }
      assert ringbuf[..] == ringbuf[..at] + ringbuf[at..at + |data|] + ringbuf[at + |data|..];
      assert old(ringbuf[..])[..at] == old(ringbuf[..at]);
      assert old(ringbuf[..])[at + |data|..] == old(ringbuf[at + |data|..]);
    }

    /** Drops the write grant. */
    method Commit()
      requires Valid() && grant.Granted? && !grant.marked
      modifies this
      ensures Valid()
      ensures Abs() == Publish(StoreMark(old(Abs())))
    {
      var end := grant.end;
      if end < committed && end != ringbuf.Length {
        highWaterMark := committed;
      } else if end > highWaterMark {
        highWaterMark := ringbuf.Length;
      }
      committed := end;
      grant := Free;
    }

    method AddReader(id: nat)
      requires Valid() && id !in readers
      modifies this
      ensures Valid()
      ensures Abs() == Register(old(Abs()), id)
    {
      readers := readers[id := Reader(committed, Idle)];
      list := [id] + list;
    }

    /** Returns the granted range, or nothing when there is nothing to read. */
    method TryNext(id: nat) returns (range: Option<(nat, nat)>)
      requires Valid() && id in readers && readers[id].phase.Idle?
      modifies this
      ensures Valid()
      ensures Abs() == LoadMark(LoadWrite(old(Abs()), id), id)
      ensures range == match readers[id].phase
                       case Reading(end) => Some((readers[id].cursor, end))
                       case _ => None
    {
      ghost var s := LoadWrite(Abs(), id);
      var read := readers[id].cursor;
      var write := committed;
      if read == highWaterMark && write < read {
        read := 0;
      }
      assert read == ReadFrom(s, s.readers[id]);
      var len := ((if write < read then highWaterMark else write) - read) % U64;
      if len > 0 {
        readers := readers[id := Reader(read, Reading(read + len))];
        range := Some((read, read + len));
      } else {
        readers := readers[id := Reader(read, Idle)];
        range := None;
      }
      assert Abs().readers == LoadMark(s, id).readers;
    }

    /** Drops a read grant. */
    method FinishRead(id: nat)
      requires Valid() && id in readers && readers[id].phase.Reading?
      modifies this
      ensures Valid()
      ensures Abs() == Release(old(Abs()), id)
    {
      readers := readers[id := Reader(readers[id].phase.end, Idle)];
    }

    /** Walks the list to the reader's node and unlinks it. */
    method RemoveReader(id: nat)
      requires Valid() && id in readers
      modifies this
      ensures Valid()
      ensures Abs() == Unregister(old(Abs()), id)
    {
      var i := 0;
      while list[i] != id
        invariant 0 <= i < |list|
        invariant id in list[i..]
        decreases |list| - i
      {
        i := i + 1;
      }
      ghost var before := list;
      list := list[..i] + list[i + 1..];
      readers := readers - {id};
      forall k ensures k in list <==> k in readers {
        assert before == before[..i] + [id] + before[i + 1..];
      }
    }
  }
}

/**
 Cutting a byte stream into length-prefixed frames. The underlying reader hands out the
 stream in chunks of any size; what the receiver returns must not depend on them.
 */
module Framing {
  import opened Bytes

  datatype Error = Eof | IntegerOverflow

  // ---------------------------------------------------------------- the simple splitter

  /** Bytes of the first frame of `u`, prefix included; `prefix` is the size of the length. */
  function RequiredLen(u: seq<byte>, prefix: nat): nat
    requires prefix <= |u|
  {
    FromLe(u[..prefix]) + prefix
  }

  /** A whole first frame is there and its length does not overflow a machine word. */
  predicate HasFrame(u: seq<byte>, prefix: nat) {
    && prefix <= |u|
    && RequiredLen(u, prefix) < U64
    && RequiredLen(u, prefix) <= |u|
  }

  function Payload(u: seq<byte>, prefix: nat): seq<byte>
    requires HasFrame(u, prefix)
  {
    u[prefix..RequiredLen(u, prefix)]
  }

  function AfterFrame(u: seq<byte>, prefix: nat): seq<byte>
    requires HasFrame(u, prefix)
  {
    u[RequiredLen(u, prefix)..]
  }

  /** A buffer that holds the whole first frame and perhaps more. */
  lemma FrameInBuffer(u: seq<byte>, filled: seq<byte>, rest: seq<byte>, prefix: nat)
    requires u == filled + rest && prefix <= |filled|
    requires FromLe(filled[..prefix]) + prefix <= |filled| && FromLe(filled[..prefix]) + prefix < U64
    ensures var required := FromLe(filled[..prefix]) + prefix;
            && HasFrame(u, prefix) && RequiredLen(u, prefix) == required
            && Payload(u, prefix) == filled[prefix..required]
            && AfterFrame(u, prefix) == filled[required..] + rest
  {
    assert u[..prefix] == filled[..prefix];
  }

  /** With nothing left in the scratch buffer, the surplus becomes the whole of it. */
  lemma LeftoverInOrder(u: seq<byte>, filled: seq<byte>, stream: seq<byte>, prefix: nat)
    requires u == filled + ([] + stream) && prefix <= |filled|
    requires RequiredLen(filled, prefix) <= |filled| && RequiredLen(filled, prefix) < U64
    ensures var required := RequiredLen(filled, prefix);
            && HasFrame(u, prefix) && RequiredLen(u, prefix) == required
            && Payload(u, prefix) == filled[prefix..required]
            && AfterFrame(u, prefix) == ([] + filled[required..]) + stream
            && (required == |filled| ==> AfterFrame(u, prefix) == [] + stream)
  {
    assert [] + stream == stream;
    FrameInBuffer(u, filled, stream, prefix);
    assert [] + filled[RequiredLen(filled, prefix)..] == filled[RequiredLen(filled, prefix)..];
  }

  /** With leftovers beyond the buffer, the surplus goes behind them. */
  lemma LeftoverRotated(u: seq<byte>, stream: seq<byte>, len: nat, prefix: nat, required: nat)
    requires prefix <= len < |u|
    ensures u[..len][..prefix] == u[..prefix]
    ensures prefix <= required <= len ==> u[..len][prefix..required] == u[prefix..required]
    ensures prefix <= required <= len ==> (u[len..] + u[..len][required..]) + stream == u[len..] + u[required..len] + stream
    ensures required == len ==> u[len..] + stream == u[len..] + u[required..len] + stream
  {
    assert prefix <= required <= len ==> u[..len][required..] == u[required..len];
    assert u[len..len] == [];
    assert u[len..] + [] == u[len..];
  }

  /** How much of a stream fits into a buffer. */
  function Fitting(stream: seq<byte>, room: nat): (n: nat)
    ensures n <= room && n <= |stream|
  {
    if |stream| <= room then |stream| else room
  }

  // ---------------------------------------------------------------- the receiver

  class LengthDelReader {
    var scratch: seq<byte>     // bytes read past the end of the last frame
    var stream: seq<byte>      // bytes the underlying reader has yet to hand out
    const prefix: nat          // size of the length: 4 or 8
    const greedy: bool         // the underlying reader hands out all that fits; if not, any part of it

    /** Everything not yet returned to the caller, in order. */
    ghost function Unread(): seq<byte>
      reads this
    {
      scratch + stream
    }

    constructor (stream: seq<byte>, prefix: nat, greedy: bool)
      requires prefix == 4 || prefix == 8
      ensures this.stream == stream && scratch == [] && this.prefix == prefix && this.greedy == greedy
    {
      this.stream, this.prefix, this.greedy := stream, prefix, greedy;
      scratch := [];
    }

    /** The underlying reader: any non-empty amount that fits, nothing at the end of the stream. */
    method ReadStream(room: nat) returns (chunk: seq<byte>)
      modifies this`stream
      ensures chunk + stream == old(stream) && |chunk| <= room
      ensures chunk == [] <==> room == 0 || old(stream) == []
      ensures greedy ==> chunk == old(stream)[..Fitting(old(stream), room)]
    {
      if room == 0 || stream == [] {
        return [];
      }
      var n :| 1 <= n <= room && n <= |stream| && (greedy ==> n == Fitting(stream, room));
      chunk := stream[..n];
      stream := stream[n..];
    }

    /** Leftovers first. */
    method Read(room: nat) returns (chunk: seq<byte>)
      modifies this
      ensures |chunk| <= room
      ensures old(scratch) != [] ==>
                var n := if |old(scratch)| <= room then |old(scratch)| else room;
                chunk == old(scratch)[..n] && scratch == old(scratch)[n..] && stream == old(stream)
      ensures old(scratch) == [] ==>
                && scratch == [] && chunk + stream == old(stream)
                && (chunk == [] <==> room == 0 || old(stream) == [])
                && (greedy ==> chunk == old(stream)[..Fitting(old(stream), room)])
    {
      if scratch != [] {
        var take := if |scratch| <= room then |scratch| else room;
        chunk := scratch[..take];
        scratch := scratch[take..];
      } else {
        chunk := ReadStream(room);
      }
    }

    /** Reads into a buffer of `cap` bytes until `target` of them are filled or nothing comes. */
    method FillTo(start: seq<byte>, target: nat, cap: nat) returns (filled: seq<byte>, ok: bool)
      requires |start| <= cap
      modifies this
      ensures filled + Unread() == start + old(Unread()) && |start| <= |filled| <= cap
      ensures start <= filled && ok == (|filled| >= target)
      ensures |start| >= target ==> filled == start && scratch == old(scratch) && stream == old(stream)
      ensures |old(scratch)| <= cap - |start| ==>
                (ok <==> |start| >= target || (target <= cap && target <= |start| + |old(Unread())|))
      ensures |old(scratch)| <= cap - |start| && ok && |start| < target ==> scratch == []
      ensures |old(scratch)| > cap - |start| && |start| < target && ok ==>
                filled == start + old(scratch)[..cap - |start|] && scratch == old(scratch)[cap - |start|..]
                && stream == old(stream)
      ensures |old(scratch)| > cap - |start| && target <= cap ==> ok
      ensures greedy && old(scratch) == [] && |start| < target && ok ==>
                filled == start + old(stream)[..Fitting(old(stream), cap - |start|)] && scratch == []
    {
      filled := start;
      while |filled| < target
        invariant filled + Unread() == start + old(Unread()) && |start| <= |filled| <= cap
        invariant start <= filled && (|start| >= target ==> filled == start)
        invariant filled == start ==> scratch == old(scratch) && stream == old(stream)
        invariant |old(scratch)| <= cap - |start| && filled != start ==> scratch == []
        invariant |old(scratch)| > cap - |start| && filled != start ==>
                    filled == start + old(scratch)[..cap - |start|] && scratch == old(scratch)[cap - |start|..]
                    && stream == old(stream)
        invariant |old(scratch)| > cap - |start| && filled != start ==> |filled| == cap
        invariant greedy && old(scratch) == [] && filled != start ==>
                    filled == start + old(stream)[..Fitting(old(stream), cap - |start|)]
        decreases |Unread()|
      {
        var chunk := Read(cap - |filled|);
        if chunk == [] {
          return filled, false;
        }
        filled := filled + chunk;
      }
      ok := true;
    }

    /** Both loops of a receive: fill the buffer with the length, then with the whole frame. */
    method FillFrame(len: nat, growable: bool) returns (r: Result<seq<byte>, Error>)
      requires prefix == 4 || prefix == 8
      modifies this
      ensures |old(scratch)| <= len ==>
                var u := old(Unread());
                (r.Ok? <==> prefix <= len && HasFrame(u, prefix) && (growable || RequiredLen(u, prefix) <= len))
      ensures r.Ok? ==>
                && old(Unread()) == r.value + Unread()
                && prefix <= len && prefix <= |r.value|
                && RequiredLen(r.value, prefix) <= |r.value| && RequiredLen(r.value, prefix) < U64
                && (|r.value| <= len || |r.value| == RequiredLen(r.value, prefix))
      ensures r.Ok? && |old(scratch)| <= len ==> scratch == []
      ensures r.Ok? && |old(scratch)| > len && RequiredLen(old(scratch), prefix) <= len ==>
                r.value == old(scratch)[..len] && scratch == old(scratch)[len..] && stream == old(stream)
      ensures |old(scratch)| > len && prefix <= len && RequiredLen(old(scratch), prefix) <= len < U64 ==> r.Ok?
      ensures r.Ok? && greedy && old(scratch) == [] && !growable ==>
                r.value == old(stream)[..Fitting(old(stream), len)]
    {
      ghost var u := Unread();
      var head, headOk := FillTo([], prefix, len);
      if !headOk {
        return Err(Eof);
      }
      assert head + Unread() == u;
      assert head[..prefix] == u[..prefix];
      assert |old(scratch)| > len ==> head[..prefix] == old(scratch)[..prefix];
      var required := FromLe(head[..prefix]) + prefix;
      if required >= U64 {
        return Err(IntegerOverflow);
      }
      var cap := if growable && required > len then required else len;
      var filled, filledOk := FillTo(head, required, cap);
      if !filledOk {
        return Err(Eof);
      }
      assert filled[..prefix] == head[..prefix];
      r := Ok(filled);
    }

    /**
     Receives one frame into a buffer of `len` bytes, which a growable buffer may enlarge.
     With leftovers that fit the buffer the outcome is exactly that of the simple splitter;
     larger leftovers come back rotated.
     */
    method Recv(len: nat, growable: bool) returns (r: Result<seq<byte>, Error>)
      requires prefix == 4 || prefix == 8
      modifies this
      ensures |old(scratch)| <= len ==>
                var u := old(Unread());
                (r.Ok? <==> prefix <= len && HasFrame(u, prefix) && (growable || RequiredLen(u, prefix) <= len))
      ensures r.Ok? && |old(scratch)| <= len ==>
                var u := old(Unread());
                && HasFrame(u, prefix)
                && r.value == Payload(u, prefix) && Unread() == AfterFrame(u, prefix) && |scratch| <= len
      ensures r.Ok? && |old(scratch)| > len ==> prefix <= len
      ensures r.Ok? && |old(scratch)| > len && RequiredLen(old(scratch), prefix) <= len ==>
                var u := old(scratch);
                && r.value == u[prefix..RequiredLen(u, prefix)]
                && Unread() == u[len..] + u[RequiredLen(u, prefix)..len] + old(stream)
      ensures |old(scratch)| > len && prefix <= len && RequiredLen(old(scratch), prefix) <= len < U64 ==> r.Ok?
      ensures r.Ok? && greedy && old(scratch) == [] && !growable ==>
                var n := Fitting(old(stream), len);
                RequiredLen(old(stream), prefix) <= n && scratch == old(stream)[RequiredLen(old(stream), prefix)..n]
    {
      var frame := FillFrame(len, growable);
      if frame.Err? {
        return Err(frame.error);
      }
      var filled := frame.value;
      var required := FromLe(filled[..prefix]) + prefix;
      if |old(scratch)| <= len {
        LeftoverInOrder(old(scratch) + old(stream), filled, stream, prefix);
      } else {
        LeftoverRotated(old(scratch), stream, len, prefix, required);
      }
      assert greedy && old(scratch) == [] && !growable ==>
               var n := Fitting(old(stream), len);
               filled[..prefix] == old(stream)[..prefix] && filled[required..] == old(stream)[required..n];
      if |filled| > required {
        scratch := scratch + filled[required..];
      }
      r := Ok(filled[prefix..required]);
    }
  }

  // ---------------------------------------------------------------- many frames

  function FrameOf(payload: seq<byte>, prefix: nat): seq<byte> {
    ToLe(|payload|, prefix) + payload
  }

  function Frames(payloads: seq<seq<byte>>, prefix: nat): seq<seq<byte>> {
    seq(|payloads|, i requires 0 <= i < |payloads| => FrameOf(payloads[i], prefix))
  }

  /** The splitter undoes framing, whatever follows. */
  lemma SplitterInvertsFrame(payload: seq<byte>, rest: seq<byte>, prefix: nat)
    requires prefix == 4 || prefix == 8
    requires |payload| + prefix < U64 && (prefix == 4 ==> |payload| < U32)
    ensures var u := FrameOf(payload, prefix) + rest;
            HasFrame(u, prefix) && Payload(u, prefix) == payload && AfterFrame(u, prefix) == rest
  {
    var u := FrameOf(payload, prefix) + rest;
    PowersOf256();
    FromLeToLe(|payload|, prefix);
    assert u[..prefix] == ToLe(|payload|, prefix);
  }

  predicate PayloadsFit(payloads: seq<seq<byte>>, prefix: nat, len: nat) {
    forall i | 0 <= i < |payloads| ::
      && |payloads[i]| + prefix <= len && |payloads[i]| + prefix < U64
      && (prefix == 4 ==> |payloads[i]| < U32)
  }

  lemma FramesHead(payloads: seq<seq<byte>>, i: nat, prefix: nat, tail: seq<byte>)
    requires i < |payloads|
    ensures Flatten(Frames(payloads[i..], prefix)) + tail
            == FrameOf(payloads[i], prefix) + (Flatten(Frames(payloads[i + 1..], prefix)) + tail)
  {
    assert Frames(payloads[i..], prefix)[1..] == Frames(payloads[i + 1..], prefix);
  }

  /** Successive receives with one buffer size return the payloads sent, for every chunking. */
  method RecvMany(reader: LengthDelReader, len: nat, ghost payloads: seq<seq<byte>>, count: nat, ghost tail: seq<byte>)
    returns (out: seq<seq<byte>>)
    requires reader.prefix == 4 || reader.prefix == 8
    requires count == |payloads| && PayloadsFit(payloads, reader.prefix, len)
    requires reader.Unread() == Flatten(Frames(payloads, reader.prefix)) + tail && |reader.scratch| <= len
    modifies reader
    ensures out == payloads
    ensures reader.Unread() == tail && |reader.scratch| <= len
  {
    out := [];
    var i := 0;
    assert payloads[0..] == payloads;
    while i < count
      invariant 0 <= i <= count
      invariant out == payloads[..i]
      invariant reader.Unread() == Flatten(Frames(payloads[i..], reader.prefix)) + tail
      invariant |reader.scratch| <= len
    {
      ghost var rest := Flatten(Frames(payloads[i + 1..], reader.prefix)) + tail;
      FramesHead(payloads, i, reader.prefix, tail);
      SplitterInvertsFrame(payloads[i], rest, reader.prefix);
      var r := reader.Recv(len, false);
      out := out + [r.value];
      i := i + 1;
    }
    assert payloads[..count] == payloads;
  }

  lemma TwelveLeftovers(a: byte, b: byte)
    requires a != b
    ensures var u := FrameOf([a], 4) + FrameOf([b], 4) + [0, 0];
            && HasFrame(u, 4) && RequiredLen(u, 4) == 5 && u[4..5] == [a]
            && u[8..] + u[5..8] != AfterFrame(u, 4)
  {
    SplitterInvertsFrame([a], FrameOf([b], 4) + [0, 0], 4);
    var u := FrameOf([a], 4) + FrameOf([b], 4) + [0, 0];
    assert u == FrameOf([a], 4) + (FrameOf([b], 4) + [0, 0]);
    assert FromLe(u[..4]) == 1 by {
      PowersOf256();
      FromLeToLe(1, 4);
      assert u[..4] == ToLe(1, 4);
    }
    assert u[5..] == FrameOf([b], 4) + [0, 0];
    assert ToLe(1, 4)[0] == 1;
    assert ToLe(1, 4)[1..] == ToLe(0, 3) && ToLe(0, 3)[1..] == ToLe(0, 2) && ToLe(0, 2)[1..] == ToLe(0, 1);
    assert ToLe(0, 1)[0] == 0;
    assert (u[8..] + u[5..8])[0] == u[8] == 0;
    assert u[5..][0] == 1;
  }

  /**
   The buffer size matters. A receive into seventeen bytes that is handed three frames at once leaves
   twelve bytes over; received into eight, they return their first frame, and the rest is out of order.
   */
  method SmallerBufferReorders(a: byte, b: byte)
    returns (reader: LengthDelReader, first: Result<seq<byte>, Error>, second: Result<seq<byte>, Error>)
    requires a != b
    ensures first == Ok([0]) && second == Ok([a])
    ensures var u := FrameOf([a], 4) + FrameOf([b], 4) + [0, 0];
            HasFrame(u, 4) && reader.Unread() != AfterFrame(u, 4)
  {
    var u := FrameOf([a], 4) + FrameOf([b], 4) + [0, 0];
    TwelveLeftovers(a, b);
    SplitterInvertsFrame([0], u, 4);
    reader := new LengthDelReader(FrameOf([0], 4) + u, 4, true);
    assert [] + (FrameOf([0], 4) + u) == FrameOf([0], 4) + u;
    first := reader.Recv(17, false);
    assert reader.scratch == u && reader.stream == [];
    second := reader.Recv(8, false);
    assert u[8..] + u[5..8] + [] == u[8..] + u[5..8];
  }

  /**
   Leftovers longer than the buffer come back in order, whatever they are, exactly if the first frame
   fills the buffer.
   */
  lemma LeftoversInOrderIff(n: nat, len: nat, required: nat)
    requires required <= len < n
    ensures (forall u: seq<byte> | |u| == n :: u[len..] + u[required..len] == u[required..]) <==> required == len
  {
    if required == len {
      forall u: seq<byte> | |u| == n ensures u[len..] + u[required..len] == u[required..] {
      }
    } else {
      var u: seq<byte> := seq(n, i => if i == required then 1 else 0);
      assert (u[len..] + u[required..len])[0] == u[len] == 0 && u[required..][0] == 1;
    }
  }
}

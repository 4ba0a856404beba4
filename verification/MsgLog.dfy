/**
 The message log: messages of any length kept behind fixed-size entries, short ones inline and
 long ones by offset into a data log; nodes that roll over; and the frames of its write-ahead ring.
 */
module MsgLog {
  import Arithmetic
  import opened Bytes
  import opened TimeSeries

  datatype Message = Message(timestamp: Timestamp, body: seq<byte>)

  // ---------------------------------------------------------------- entries

  /** Length, then the message itself padded to twelve bytes. */
  function InlineEntry(msg: seq<byte>): (e: seq<byte>)
    requires |msg| <= 12
    ensures |e| == 16
  {
    ToLe(|msg|, 4) + msg + seq(12 - |msg|, i => 0)
  }

  /** Length, the first four bytes, a buffer number that is always zero, and the offset in 32 bits. */
  function OffsetEntry(msg: seq<byte>, offset: nat): (e: seq<byte>)
    requires |msg| > 12
    ensures |e| == 16
  {
    ToLe(|msg|, 4) + msg[..4] + ToLe(0, 4) + ToLe(offset, 4)
  }

  function Lookup(entry: seq<byte>, data: seq<byte>): Option<seq<byte>>
    requires |entry| == 16
  {
    var len := FromLe(entry[..4]);
    if len <= 12 then Some(entry[4..4 + len])
    else
      var offset := FromLe(entry[12..16]);
      if offset + len <= |data| then Some(data[offset..offset + len]) else None
  }

  lemma ByteModulus(v: nat, p: nat)
    requires p > 0
    ensures v % (256 * p) == 256 * ((v / 256) % p) + v % 256
  {
    var h := v / 256;
    var q, r := h / p, h % p;
    assert v == q * (256 * p) + (256 * r + v % 256);
    Arithmetic.ModOf(v, q, 256 * p, 256 * r + v % 256);
  }

  lemma {:induction false} ToLeTruncates(v: nat, k: nat)
    ensures FromLe(ToLe(v, k)) == v % Pow256(k)
  {
    if k > 0 {
      ToLeTruncates(v / 256, k - 1);
      assert ToLe(v, k)[1..] == ToLe(v / 256, k - 1);
      ByteModulus(v, Pow256(k - 1));
    }
  }

  lemma LookupInline(msg: seq<byte>, data: seq<byte>)
    requires |msg| <= 12
    ensures Lookup(InlineEntry(msg), data) == Some(msg)
  {
    var e := InlineEntry(msg);
    PowersOf256();
    FromLeToLe(|msg|, 4);
    assert e[..4] == ToLe(|msg|, 4);
    assert e[4..4 + |msg|] == msg;
  }

  /** A long message is read at its offset modulo 2^32. */
  lemma LookupOffset(msg: seq<byte>, offset: nat, data: seq<byte>)
    requires 12 < |msg| < Bytes.U32
    ensures var at := offset % Bytes.U32;
            Lookup(OffsetEntry(msg, offset), data) ==
              if at + |msg| <= |data| then Some(data[at..at + |msg|]) else None
  {
    var e := OffsetEntry(msg, offset);
    PowersOf256();
    FromLeToLe(|msg|, 4);
    ToLeTruncates(offset, 4);
    assert e[..4] == ToLe(|msg|, 4) && e[12..16] == ToLe(offset, 4);
  }

  /** An entry byte by byte: the length, then either all of the message and zeros, */
  lemma InlineLayout(msg: seq<byte>)
    requires |msg| <= 12
    ensures var e := InlineEntry(msg);
            && FromLe(e[..4]) == |msg| && e[4..4 + |msg|] == msg && forall i | 4 + |msg| <= i < 16 :: e[i] == 0
  {
    PowersOf256();
    FromLeToLe(|msg|, 4);
    assert InlineEntry(msg)[..4] == ToLe(|msg|, 4);
  }

  /** or its first four bytes, four zeros and the low 32 bits of its offset. */
  lemma OffsetLayout(msg: seq<byte>, offset: nat)
    requires 12 < |msg| < Bytes.U32
    ensures var e := OffsetEntry(msg, offset);
            && FromLe(e[..4]) == |msg| && e[4..8] == msg[..4]
            && e[8..12] == [0, 0, 0, 0] && FromLe(e[12..16]) == offset % Bytes.U32
  {
    PowersOf256();
    FromLeToLe(|msg|, 4);
    ToLeTruncates(offset, 4);
    ZeroLe(4);
    var e := OffsetEntry(msg, offset);
    assert e[..4] == ToLe(|msg|, 4) && e[12..16] == ToLe(offset, 4) && e[8..12] == ToLe(0, 4);
  }

  lemma {:induction false} ZeroLe(k: nat)
    ensures ToLe(0, k) == seq(k, i => 0)
  {
    if k > 0 {
      ZeroLe(k - 1);
    }
  }

  // ---------------------------------------------------------------- the buffer log

  datatype Bufs = Bufs(offsets: seq<byte>, data: seq<byte>)

  function GetMsg(b: Bufs, i: nat): Option<seq<byte>> {
    if 16 * i + 16 > |b.offsets| then None else Lookup(b.offsets[16 * i..16 * i + 16], b.data)
  }

  /** Long messages first go to the data log; `false` is an overflow of either log. */
  function InsertMsg(cap: nat, b: Bufs, msg: seq<byte>): (Bufs, bool) {
    if |msg| > 12 && |b.data| + |msg| > cap then (b, false)
    else
      var b1 := if |msg| > 12 then b.(data := b.data + msg) else b;
      var entry := if |msg| > 12 then OffsetEntry(msg, |b.data|) else InlineEntry(msg);
      if |b.offsets| + 16 > cap then (b1, false) else (b1.(offsets := b1.offsets + entry), true)
  }

  class BufLog {
    const offsets: AppendLog
    const dataLog: AppendLog

    ghost predicate Valid()
      reads this, offsets, dataLog
    {
      && offsets.Valid() && dataLog.Valid()
      && offsets != dataLog && offsets.mmap != dataLog.mmap
      && offsets.mmap.Length - offsets.headerSize == dataLog.mmap.Length - dataLog.headerSize
    }

    ghost function Abs(): Bufs
      requires Valid()
      reads this, offsets, dataLog, offsets.mmap, dataLog.mmap
    {
      Bufs(offsets.Contents(), dataLog.Contents())
    }

    ghost function Capacity(): nat
      requires Valid()
      reads this, offsets, dataLog
    {
      offsets.mmap.Length - offsets.headerSize
    }

    constructor (size: nat)
      requires 16 <= size
      ensures Valid() && Abs() == Bufs([], []) && Capacity() == size + 1 - 16
    {
      offsets := new AppendLog(size, 16);
      dataLog := new AppendLog(size, 16);
    }

    method Insert(msg: seq<byte>) returns (error: Option<Error>)
      requires Valid()
      modifies offsets, dataLog, offsets.mmap, dataLog.mmap
      ensures Valid() && Capacity() == old(Capacity())
      ensures (Abs(), error.None?) == InsertMsg(Capacity(), old(Abs()), msg)
      ensures error.Some? ==> error.value == MapOverflow
    {
      var entry: seq<byte>;
      if |msg| > 12 {
        var offset := dataLog.Write(msg);
        if offset.Err? {
          return Some(offset.error);
        }
        entry := OffsetEntry(msg, offset.value);
      } else {
        entry := InlineEntry(msg);
      }
      var written := offsets.Write(entry);
      if written.Err? {
        return Some(written.error);
      }
      return None;
    }
  }

  /** Entry `i` yields message `i`, for all of them. */
  predicate Stores(b: Bufs, msgs: seq<seq<byte>>) {
    |b.offsets| == 16 * |msgs| && forall i {:trigger GetMsg(b, i)} | 0 <= i < |msgs| :: GetMsg(b, i) == Some(msgs[i])
  }

  /** Appending to either log leaves earlier messages as they were. */
  lemma GetMsgStable(b: Bufs, b': Bufs, i: nat)
    requires GetMsg(b, i).Some? && b.offsets <= b'.offsets && b.data <= b'.data
    ensures GetMsg(b', i) == GetMsg(b, i)
  {
    var entry := b.offsets[16 * i..16 * i + 16];
    assert b'.offsets[16 * i..16 * i + 16] == entry;
    var len := FromLe(entry[..4]);
    if len > 12 {
      var at := FromLe(entry[12..16]);
      assert b'.data[at..at + len] == b.data[at..at + len];
    }
  }

  lemma InsertGrows(cap: nat, b: Bufs, msg: seq<byte>)
    ensures b.offsets <= InsertMsg(cap, b, msg).0.offsets && b.data <= InsertMsg(cap, b, msg).0.data
    ensures |InsertMsg(cap, b, msg).0.offsets| == |b.offsets| + (if InsertMsg(cap, b, msg).1 then 16 else 0)
  {
  }

  /** When an insert is accepted, and what a refused one leaves behind. */
  lemma InsertExact(cap: nat, b: Bufs, msg: seq<byte>)
    ensures var (b', ok) := InsertMsg(cap, b, msg);
            && (ok <==> |b.offsets| + 16 <= cap && (|msg| > 12 ==> |b.data| + |msg| <= cap))
            && b'.data == (if |msg| > 12 && |b.data| + |msg| <= cap then b.data + msg else b.data)
            && (!ok ==> b'.offsets == b.offsets)
            && (ok ==> b'.offsets[|b.offsets|..] == if |msg| > 12 then OffsetEntry(msg, |b.data|) else InlineEntry(msg))
  {
  }

  lemma KeepsEarlier(b: Bufs, b': Bufs, msgs: seq<seq<byte>>)
    requires Stores(b, msgs) && b.offsets <= b'.offsets && b.data <= b'.data
    ensures forall i | 0 <= i < |msgs| :: GetMsg(b', i) == Some(msgs[i])
  {
    forall i | 0 <= i < |msgs| ensures GetMsg(b', i) == Some(msgs[i]) {
      GetMsgStable(b, b', i);
    }
  }

  lemma StoresOneMore(b: Bufs, msgs: seq<seq<byte>>, msg: seq<byte>)
    requires |b.offsets| == 16 * |msgs| + 16 && GetMsg(b, |msgs|) == Some(msg)
    requires forall i | 0 <= i < |msgs| :: GetMsg(b, i) == Some(msgs[i])
    ensures Stores(b, msgs + [msg])
  {
  }

  lemma LastEntry(b: Bufs, entry: seq<byte>, data: seq<byte>, n: nat)
    requires |b.offsets| == 16 * n && |entry| == 16
    ensures GetMsg(Bufs(b.offsets + entry, data), n) == Lookup(entry, data)
  {
    assert (b.offsets + entry)[16 * n..16 * n + 16] == entry;
  }

  lemma GetLastShort(b: Bufs, msg: seq<byte>, n: nat)
    requires |b.offsets| == 16 * n && |msg| <= 12
    ensures GetMsg(Bufs(b.offsets + InlineEntry(msg), b.data), n) == Some(msg)
  {
    LastEntry(b, InlineEntry(msg), b.data, n);
    LookupInline(msg, b.data);
  }

  lemma ModAtMost(x: nat)
    ensures x % Bytes.U32 <= x
  {
  }

  lemma GetLastLong(b: Bufs, msg: seq<byte>, n: nat)
    requires |b.offsets| == 16 * n && 12 < |msg| < Bytes.U32
    ensures var at := |b.data| % Bytes.U32;
            && at + |msg| <= |b.data + msg|
            && GetMsg(Bufs(b.offsets + OffsetEntry(msg, |b.data|), b.data + msg), n) == Some((b.data + msg)[at..at + |msg|])
  {
    LastEntry(b, OffsetEntry(msg, |b.data|), b.data + msg, n);
    LookupOffset(msg, |b.data|, b.data + msg);
    ModAtMost(|b.data|);
  }

  /** Where the message just inserted is read: a long one at its offset modulo 2^32. */
  lemma GetLast(b: Bufs, msg: seq<byte>, cap: nat, n: nat)
    requires |b.offsets| == 16 * n && |msg| < Bytes.U32 && InsertMsg(cap, b, msg).1
    ensures |msg| <= 12 ==> GetMsg(InsertMsg(cap, b, msg).0, n) == Some(msg)
    ensures |msg| > 12 ==>
              var at := |b.data| % Bytes.U32;
              && at + |msg| <= |b.data + msg|
              && GetMsg(InsertMsg(cap, b, msg).0, n) == Some((b.data + msg)[at..at + |msg|])
  {
    if |msg| > 12 {
      GetLastLong(b, msg, n);
      assert InsertMsg(cap, b, msg).0 == Bufs(b.offsets + OffsetEntry(msg, |b.data|), b.data + msg);
    } else {
      GetLastShort(b, msg, n);
      assert InsertMsg(cap, b, msg).0 == Bufs(b.offsets + InlineEntry(msg), b.data);
    }
  }

  /** One insert adds its message at the end, while the data log is below 2^32 bytes. */
  lemma InsertStores(cap: nat, b: Bufs, msgs: seq<seq<byte>>, msg: seq<byte>)
    requires Stores(b, msgs) && |msg| < Bytes.U32
    requires |msg| > 12 ==> |b.data| < Bytes.U32
    ensures var (b', ok) := InsertMsg(cap, b, msg);
            Stores(b', if ok then msgs + [msg] else msgs)
  {
    var (b', ok) := InsertMsg(cap, b, msg);
    InsertGrows(cap, b, msg);
    KeepsEarlier(b, b', msgs);
    if ok {
      GetLast(b, msg, cap, |msgs|);
      assert (b.data + msg)[|b.data|..|b.data| + |msg|] == msg;
      StoresOneMore(b', msgs, msg);
    }
  }

  /** Any run of inserts into an empty buffer log, some of which may overflow. */
  predicate InsertRun(cap: nat, bs: seq<Bufs>, msgs: seq<seq<byte>>) {
    && |bs| == |msgs| + 1 && bs[0] == Bufs([], [])
    && forall i | 0 <= i < |msgs| :: |msgs[i]| < Bytes.U32 && InsertMsg(cap, bs[i], msgs[i]).0 == bs[i + 1]
  }

  /** The messages among the first `i` whose insert succeeded. */
  function Accepted(cap: nat, bs: seq<Bufs>, msgs: seq<seq<byte>>, i: nat): seq<seq<byte>>
    requires i <= |msgs| < |bs|
  {
    if i == 0 then []
    else Accepted(cap, bs, msgs, i - 1) + if InsertMsg(cap, bs[i - 1], msgs[i - 1]).1 then [msgs[i - 1]] else []
  }

  /** While the data log stays within 2^32 bytes, entry `k` yields the k-th message accepted. */
  lemma {:induction false} InsertsReadBack(cap: nat, bs: seq<Bufs>, msgs: seq<seq<byte>>, i: nat)
    requires InsertRun(cap, bs, msgs) && i <= |msgs|
    requires forall k | 0 <= k <= i :: |bs[k].data| <= Bytes.U32
    ensures Stores(bs[i], Accepted(cap, bs, msgs, i))
  {
    if i > 0 {
      InsertsReadBack(cap, bs, msgs, i - 1);
      var (b', ok) := InsertMsg(cap, bs[i - 1], msgs[i - 1]);
      if |msgs[i - 1]| > 12 && |bs[i - 1].data| == Bytes.U32 {
        FullRefuses(cap, bs[i - 1], msgs[i - 1], bs[i]);
      } else {
        InsertStores(cap, bs[i - 1], Accepted(cap, bs, msgs, i - 1), msgs[i - 1]);
      }
    }
  }

  /** A long message that was accepted made the data log longer. */
  lemma FullRefuses(cap: nat, b: Bufs, msg: seq<byte>, b': Bufs)
    requires |msg| > 12 && InsertMsg(cap, b, msg).0 == b' && |b'.data| <= |b.data|
    ensures !InsertMsg(cap, b, msg).1 && b' == b
  {
  }

  /** Beyond that a long message reads back exactly when the log repeats itself 2^32 bytes earlier. */
  lemma OffsetWraps(cap: nat, b: Bufs, msgs: seq<seq<byte>>, msg: seq<byte>)
    requires Stores(b, msgs) && 12 < |msg| < Bytes.U32 && InsertMsg(cap, b, msg).1
    ensures var at := |b.data| % Bytes.U32;
            && at + |msg| <= |b.data + msg|
            && (Stores(InsertMsg(cap, b, msg).0, msgs + [msg]) <==> (b.data + msg)[at..at + |msg|] == msg)
  {
    var b' := InsertMsg(cap, b, msg).0;
    GetLast(b, msg, cap, |msgs|);
    InsertGrows(cap, b, msg);
    KeepsEarlier(b, b', msgs);
    if GetMsg(b', |msgs|) == Some(msg) {
      StoresOneMore(b', msgs, msg);
    }
    assert (msgs + [msg])[|msgs|] == msg;
  }

  // ---------------------------------------------------------------- a log beyond 2^32 bytes

  const CHUNK: nat := 0x8_0000

  function Same(b: byte, n: nat): (msg: seq<byte>)
    ensures |msg| == n && forall i | 0 <= i < n :: msg[i] == b
  {
    seq(n, i => b)
  }

  /** The log after `k` messages of half a mebibyte, all zeros. */
  function Filled(cap: nat, k: nat): Bufs {
    if k == 0 then Bufs([], []) else InsertMsg(cap, Filled(cap, k - 1), Same(0, CHUNK)).0
  }

  lemma {:induction false} FilledIs(cap: nat, k: nat)
    requires k * CHUNK <= cap && 16 * k <= cap
    ensures |Filled(cap, k).offsets| == 16 * k && Filled(cap, k).data == Same(0, k * CHUNK)
    ensures k > 0 ==> InsertMsg(cap, Filled(cap, k - 1), Same(0, CHUNK)).1
  {
    if k > 0 {
      FilledIs(cap, k - 1);
      InsertGrows(cap, Filled(cap, k - 1), Same(0, CHUNK));
      assert Same(0, (k - 1) * CHUNK) + Same(0, CHUNK) == Same(0, k * CHUNK);
    }
  }

  lemma FilledRun(cap: nat, k: nat, msg: seq<byte>)
    requires k * CHUNK <= cap && 16 * k <= cap && |msg| < Bytes.U32
    ensures InsertRun(cap, seq(k + 1, i requires 0 <= i => Filled(cap, i)) + [InsertMsg(cap, Filled(cap, k), msg).0],
                      seq(k, i => Same(0, CHUNK)) + [msg])
  {
    var bs := seq(k + 1, i requires 0 <= i => Filled(cap, i)) + [InsertMsg(cap, Filled(cap, k), msg).0];
    var msgs := seq(k, i => Same(0, CHUNK)) + [msg];
    forall i | 0 <= i < |msgs| ensures |msgs[i]| < Bytes.U32 && InsertMsg(cap, bs[i], msgs[i]).0 == bs[i + 1] {
    }
  }

  /**
   It happens in a log of 8 GiB: after 8192 messages of zeros have filled 2^32 bytes, thirteen ones
   are accepted and read back as zeros.
   */
  lemma OffsetWrapLosesMessage(cap: nat)
    requires Bytes.U32 + 13 <= cap
    ensures var b := Filled(cap, 8192);
            && InsertMsg(cap, b, Same(1, 13)).1
            && GetMsg(InsertMsg(cap, b, Same(1, 13)).0, 8192) == Some(Same(0, 13)) != Some(Same(1, 13))
  {
    FilledIs(cap, 8192);
    var b := Filled(cap, 8192);
    GetLast(b, Same(1, 13), cap, 8192);
    assert (b.data + Same(1, 13))[0..13] == Same(0, 13);
    assert Same(0, 13)[0] != Same(1, 13)[0];
  }
}

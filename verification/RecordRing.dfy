/**
 When the side conditions of the broadcast theorem come for free: a component's ring holds
 1024 (created) or 256 (reopened) values of `s` bytes and every record is `s + 8` bytes, so
 that the capacity is met exactly only for some `s`. For those the overwrite is exhibited.
 */
module RecordRing {
  import opened Arithmetic
  import opened Bytes
  import opened Disruptor
  import opened Broadcast

  // ---------------------------------------------------------------- when capacity can be hit

  lemma MultipleMinus(k: nat, m: nat, c: nat)
    requires 0 < m && c <= k * m
    ensures (k * m - c) % m == 0 <==> c % m == 0
  {
    var q := c / m;
    assert k * m - c == (k - q) * m - c % m;
    if c % m == 0 {
      ModOf(k * m - c, k - q, m, 0);
    } else {
      assert (k - q) * m == (k - q - 1) * m + m;
      ModOf(k * m - c, k - q - 1, m, m - c % m);
    }
  }

  /** A record of `s + 8` bytes divides a ring of `n * s` bytes iff it divides `8 * n`. */
  lemma RecordDividesRing(n: nat, s: nat)
    ensures (n * s) % (s + 8) == 0 <==> (8 * n) % (s + 8) == 0
  {
    var m := s + 8;
    assert n * m == n * s + 8 * n;
    MultipleMinus(n, m, 8 * n);
  }

  lemma CreatedAndReopenedRings(s: nat)
    requires s > 0
    ensures (s * 1024) % (s + 8) == 0 <==> 8192 % (s + 8) == 0
    ensures (s * 256) % (s + 8) == 0 <==> 2048 % (s + 8) == 0
  {
    RecordDividesRing(1024, s);
    RecordDividesRing(256, s);
  }

  // ---------------------------------------------------------------- runs that need no side condition

  /** A run of the code as it is: steps are enabled, nothing is said about safety. */
  predicate RawRun(capacity: nat, ws: seq<World>, steps: seq<Step>) {
    && 0 < capacity < U64
    && |ws| == |steps| + 1
    && ws[0] == World(Init(capacity), map[])
    && forall i | 0 <= i < |steps| ::
         && ws[i].hist.Keys == ws[i].s.readers.Keys
         && Enabled(ws[i].s, steps[i])
         && ws[i + 1] == Next(ws[i], steps[i])
  }

  /** The persist reader joins first and stays; every grant is for one record of `m` bytes. */
  predicate ComponentRun(capacity: nat, ws: seq<World>, steps: seq<Step>, p: nat, m: nat) {
    && RawRun(capacity, ws, steps)
    && (|steps| > 0 ==> steps[0] == StepRegister(p))
    && (forall i | 0 <= i < |steps| :: steps[i] != StepUnregister(p))
    && (forall i | 0 <= i < |steps| && steps[i].StepGrant? :: steps[i].len == m)
  }

  predicate Aligned(s: State, m: nat)
    requires m > 0
  {
    && Multiple(s.committed, m)
    && (s.grant.Granted? ==> Multiple(s.grant.end, m))
  }

  lemma AlignedGrantIsSafe(s: State, m: nat)
    requires m > 0 && Inv(s) && Aligned(s, m) && !Multiple(|s.ring|, m)
    ensures SafeGrant(s, m)
  {
    PositionModCapacity(s.committed, |s.ring|);
  }

  lemma StepAligned(s: State, step: Step, m: nat)
    requires m > 0 && Inv(s) && Aligned(s, m) && !Multiple(|s.ring|, m)
    requires Enabled(s, step) && (step.StepGrant? ==> step.len == m)
    ensures Aligned(NextState(s, step), m)
    ensures |NextState(s, step).ring| == |s.ring|
  {
    if step.StepGrant? {
      PositionModCapacity(s.committed, |s.ring|);
    }
  }

  lemma {:induction false} ComponentRunPrefix(
    capacity: nat, ws: seq<World>, steps: seq<Step>, p: nat, m: nat, i: nat)
    requires m > 0 && capacity % m != 0
    requires ComponentRun(capacity, ws, steps, p, m) && i < |ws|
    ensures WorldInv(ws[i]) && |ws[i].s.ring| == capacity && Aligned(ws[i].s, m)
    ensures i > 0 ==> p in ws[i].s.readers
    ensures forall j | 0 <= j < i :: Safe(ws[j].s, steps[j])
  {
    MultipleIsDivisible(capacity, m);
    if i == 0 {
      InitInv(capacity);
    } else {
      ComponentRunPrefix(capacity, ws, steps, p, m, i - 1);
      var s, step := ws[i - 1].s, steps[i - 1];
      if step.StepGrant? {
        AlignedGrantIsSafe(s, m);
      }
      StepAligned(s, step, m);
      StepWorldInv(ws[i - 1], step);
    }
  }

  /** For record sizes that do not divide the ring, the broadcast theorem has no side condition. */
  lemma ComponentBroadcast(
    capacity: nat, ws: seq<World>, steps: seq<Step>, p: nat, m: nat, i: nat, id: nat)
    requires m > 0 && capacity % m != 0
    requires ComponentRun(capacity, ws, steps, p, m) && i < |ws| && id in ws[i].s.readers
    ensures Run(capacity, ws, steps)
    ensures id in ws[i].hist
    ensures var h := ws[i].hist[id];
            Flatten(h.got) + Unread(ws[i].s, ws[i].s.readers[id]) == Flatten(h.sent)
  {
    ComponentRunPrefix(capacity, ws, steps, p, m, |steps|);
    BroadcastTheorem(capacity, ws, steps, i, id);
  }

  // ---------------------------------------------------------------- the overwrite at capacity

  /** `k` writes of the same record with no reader activity in between. */
  function PushTimes(s: State, data: seq<byte>, k: nat): Option<State>
    requires |s.ring| > 0 && s.grant.Free?
    ensures PushTimes(s, data, k).Some? ==>
              var t := PushTimes(s, data, k).value;
              t.grant.Free? && t.readers == s.readers && |t.ring| == |s.ring|
  {
    if k == 0 then Some(s)
    else match PushTimes(s, data, k - 1)
      case None => None
      case Some(t) => if Push(t, data).Ok? then Some(Push(t, data).value) else None
  }

  lemma {:induction false} FillUp(capacity: nat, p: nat, data: seq<byte>, k: nat)
    requires 0 < capacity < U64 && data != [] && k * |data| <= capacity
    ensures var t := PushTimes(Register(Init(capacity), p), data, k);
            t.Some? && Inv(t.value) && t.value.committed == k * |data|
  {
    var s0 := Register(Init(capacity), p);
    InitInv(capacity);
    RegisterInv(Init(capacity), p);
    if k > 0 {
      assert k * |data| == (k - 1) * |data| + |data|;
      FillUp(capacity, p, data, k - 1);
      var t := PushTimes(s0, data, k - 1).value;
      PositionModCapacity(t.committed, capacity);
      PositionModCapacity(0, capacity);
      assert forall id | id in t.readers :: t.readers[id].cursor == 0;
      PushInv(t, data);
    }
  }

  /** A write into a ring that is full to capacity under a reader still at zero. */
  lemma OverwriteFullRing(t: State, p: nat, data: seq<byte>)
    requires Inv(t) && t.grant.Free? && t.committed == |t.ring| && 0 < |data| <= |t.ring|
    requires t.readers == map[p := Reader(0, Idle)]
    ensures |Unread(t, t.readers[p])| == |t.ring|
    ensures Push(t, data).Ok? && |Unread(Push(t, data).value, t.readers[p])| == |data|
  {
    PositionModCapacity(t.committed, |t.ring|);
    PositionModCapacity(0, |t.ring|);
  }

  /**
   If `n` records fill the ring and the persist task has not run yet, the write after that is
   admitted and the reader is left with that one record out of the `n + 1` written.
   */
  lemma OverwriteAtCapacity(capacity: nat, p: nat, data: seq<byte>, n: nat)
    requires 0 < capacity < U64 && data != [] && capacity == n * |data|
    ensures var full := PushTimes(Register(Init(capacity), p), data, n);
            var over := PushTimes(Register(Init(capacity), p), data, n + 1);
            && full.Some? && |Unread(full.value, full.value.readers[p])| == capacity
            && over.Some? && |Unread(over.value, over.value.readers[p])| == |data|
  {
    FillUp(capacity, p, data, n);
    MulAtLeast(n, |data|);
    OverwriteFullRing(PushTimes(Register(Init(capacity), p), data, n).value, p, data);
  }

  /** The default ring of an eight-byte component (one `f64`) is such a ring. */
  lemma EightByteComponentOverwrites(p: nat, data: seq<byte>)
    requires |data| == 8 + 8
    ensures var over := PushTimes(Register(Init(8 * 1024), p), data, 513);
            over.Some? && |Unread(over.value, over.value.readers[p])| == 16
  {
    OverwriteAtCapacity(8192, p, data, 512);
  }
}

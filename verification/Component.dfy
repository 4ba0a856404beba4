/**
 One component end to end: a writer that pushes samples through the ring, any number of
 readers, and the persist task that moves what it reads into the time series. The steps of
 all of them interleave freely; pushes themselves are one after another.
 */
module Component {
  import opened Bytes
  import opened Disruptor
  import opened Broadcast
  import opened TimeSeries
  import opened Persist
  import DisruptorCore
  import Wal

  // ---------------------------------------------------------------- push_buf as a call

  datatype PushOutcome = TimeTravel | Skipped | Pushed

  class Component {
    const wal: DisruptorCore.Core
    var lastTimestamp: Timestamp

    constructor (wal: DisruptorCore.Core)
      ensures this.wal == wal && lastTimestamp == -0x8000_0000_0000_0000
    {
      this.wal := wal;
      lastTimestamp := -0x8000_0000_0000_0000;
    }

    /** Late samples are refused, samples that find no room are skipped, the rest reach the ring. */
    method PushBuf(ts: Timestamp, value: seq<byte>) returns (r: PushOutcome)
      requires wal.Valid() && wal.grant.Free?
      modifies this, wal, wal.ringbuf
      ensures wal.Valid() && wal.grant.Free?
      ensures r.TimeTravel? <==> ts < old(lastTimestamp)
      ensures r.Pushed? <==> ts >= old(lastTimestamp) && Push(old(wal.Abs()), Encode(Sample(ts, value))).Ok?
      ensures r.Pushed? ==> Push(old(wal.Abs()), Encode(Sample(ts, value))) == Ok(wal.Abs()) && lastTimestamp == ts
      ensures !r.Pushed? ==> wal.Abs() == old(wal.Abs()) && lastTimestamp == old(lastTimestamp)
    {
      if ts < lastTimestamp {
        return TimeTravel;
      }
      ghost var record := TimestampToLe(ts) + value;
      var refused := wal.TryGrant(8 + |value|);
      if refused.Some? {
        return Skipped;
      }
      ghost var granted := wal.Abs();
      wal.CopyIntoGrant(0, TimestampToLe(ts));
      ghost var stamped := wal.Abs();
      wal.CopyIntoGrant(8, value);
      FillInTwo(granted, TimestampToLe(ts), value);
      wal.Commit();
      if ts > lastTimestamp {
        lastTimestamp := ts;
      }
      return Pushed;
    }
  }

  // ---------------------------------------------------------------- the interleaved system

  /** One push copies the timestamp and then the row. */
  function Pieces(x: Sample): seq<seq<byte>> {
    [TimestampToLe(x.timestamp), x.row]
  }

  /** Row size, capacity of a node's logs, and the id of the persist task's reader. */
  datatype Config = Config(size: nat, cap: nat, persist: nat)

  function Ring(c: Config): Wal.Config<Sample> {
    Wal.Config(Pieces, c.persist)
  }

  type Event = Wal.Event<Sample>

  /** The ring with its tasks, the timestamp that pushes are held to, and the stored nodes. */
  datatype System = System(log: Wal.Log<Sample>, last: Timestamp, nodes: seq<Node>)

  /** A push is let in by its timestamp and by the ring, and by nothing else. */
  predicate Possible(c: Config, e: System, ev: Event) {
    && Wal.Possible(Ring(c), e.log, ev)
    && (ev.Begin? ==> |ev.x.row| == c.size && ev.x.timestamp >= e.last)
  }

  /** The end of a call moves the timestamp forward. */
  function LastAfter(c: Config, e: System, ev: Event): Timestamp {
    var p := e.log.pusher;
    if ev.Advance? && p.Busy? && p.pc >= Wal.Accesses(Ring(c), p.x) && p.x.timestamp > e.last
    then p.x.timestamp else e.last
  }

  /** A read grant of the persist task is parsed and its samples pushed before it is dropped. */
  function NodesAfter(c: Config, e: System, ev: Event): seq<Node> {
    if ev.PersistStep? && c.persist in e.log.w.s.readers
    then StoreAll(c.cap, e.nodes, Parse(Chunk(e.log.w.s, e.log.w.s.readers[c.persist]), c.size))
    else e.nodes
  }

  function Happen(c: Config, e: System, ev: Event): System
    requires Possible(c, e, ev)
  {
    System(Wal.Happen(Ring(c), e.log, ev), LastAfter(c, e, ev), NodesAfter(c, e, ev))
  }

  // ---------------------------------------------------------------- the invariant

  /** The sample being pushed, if any. */
  function Current(e: System): Option<Sample> {
    if e.log.pusher.Busy? then Some(e.log.pusher.x) else None
  }

  /** What published samples may not be later than. */
  function Bound(e: System): Timestamp {
    if e.log.pusher.Busy? then e.log.pusher.x.timestamp else e.last
  }

  /** Published timestamps are in order, none after what the next push is held to. */
  predicate TimesOk(e: System) {
    && Sorted(e.log.pushed)
    && (forall i | 0 <= i < |e.log.pushed| :: e.log.pushed[i].timestamp <= Bound(e))
    && e.last <= Bound(e)
  }

  predicate RowsOk(c: Config, e: System) {
    && RowsOfSize(e.log.pushed, c.size)
    && (Current(e).Some? ==> |Current(e).value.row| == c.size)
  }

  /** The nodes are what storing the samples taken from the ring, one by one, makes of none. */
  predicate StoredOk(c: Config, e: System) {
    && c.persist in e.log.w.hist
    && Taken(e.log.w.hist[c.persist]) <= |e.log.pushed|
    && e.nodes == StoreAll(c.cap, [], e.log.pushed[..Taken(e.log.w.hist[c.persist])])
  }

  predicate SystemInv(c: Config, e: System) {
    && Wal.Inv(Ring(c), e.log)
    && TimesOk(e) && RowsOk(c, e)
    && StoredOk(c, e)
  }

  // ---------------------------------------------------------------- preservation

  lemma RecordIsEncode(c: Config, x: Sample)
    ensures Wal.Record(Ring(c), x) == Encode(x)
  {
    var ps := Pieces(x);
    assert ps[1..] == [x.row];
    assert Flatten([x.row]) == x.row + Flatten<byte>([]);
  }

  lemma RecordsAreEncoded(c: Config, xs: seq<Sample>)
    ensures Wal.Records(Ring(c), xs) == EncodeAll(xs)
  {
    forall i | 0 <= i < |xs| ensures Wal.Records(Ring(c), xs)[i] == EncodeAll(xs)[i] {
      RecordIsEncode(c, xs[i]);
    }
  }

  lemma TimesStep(c: Config, e: System, ev: Event)
    requires TimesOk(e) && Possible(c, e, ev)
    ensures TimesOk(Happen(c, e, ev))
  {
  }

  lemma RowsStep(c: Config, e: System, ev: Event)
    requires RowsOk(c, e) && Possible(c, e, ev)
    ensures RowsOk(c, Happen(c, e, ev))
  {
  }

  /** Whole frames that encode samples parse back to those samples. */
  lemma FramesParse(pushed: seq<Sample>, size: nat, sent: seq<seq<byte>>, i: nat, j: nat)
    requires RowsOfSize(pushed, size) && sent == EncodeAll(pushed) && i <= j <= |pushed|
    ensures Parse(Flatten(sent[i..j]), size) == pushed[i..j]
  {
    assert sent[i..j] == EncodeAll(pushed[i..j]);
    ParseInvertsEncode(pushed[i..j], size);
  }

  /** The chunk being persisted is the records of the samples not yet stored, up to `loaded`. */
  lemma ChunkIsRecords(s: State, r: Reader, h: History, pushed: seq<Sample>, size: nat)
    requires HistoryOk(s, r, h) && r.phase.Reading?
    requires RowsOfSize(pushed, size) && h.sent == EncodeAll(pushed)
    ensures Taken(h) <= h.loaded <= |pushed|
    ensures Parse(Chunk(s, r), size) == pushed[Taken(h)..h.loaded]
  {
    FramesParse(pushed, size, h.sent, Taken(h), h.loaded);
  }

  lemma StoreMore(cap: nat, pushed: seq<Sample>, k: nat, j: nat)
    requires k <= j <= |pushed|
    ensures StoreAll(cap, StoreAll(cap, [], pushed[..k]), pushed[k..j]) == StoreAll(cap, [], pushed[..j])
  {
    StoreAllConcat(cap, [], pushed[..k], pushed[k..j]);
    assert pushed[..k] + pushed[k..j] == pushed[..j];
  }

  lemma PersistReads(c: Config, s: State, r: Reader, h: History, pushed: seq<Sample>)
    requires HistoryOk(s, r, h) && r.phase.Reading?
    requires RowsOfSize(pushed, c.size) && h.sent == Wal.Records(Ring(c), pushed)
    ensures Taken(h) <= h.loaded <= |pushed|
    ensures Parse(Chunk(s, r), c.size) == pushed[Taken(h)..h.loaded]
  {
    RecordsAreEncoded(c, pushed);
    ChunkIsRecords(s, r, h, pushed, c.size);
  }

  lemma PersistEffect(c: Config, e: System)
    requires Possible(c, e, Wal.PersistStep)
    ensures var e' := Happen(c, e, Wal.PersistStep);
            && e'.log.pushed == e.log.pushed
            && c.persist in e.log.w.hist && c.persist in e'.log.w.hist
            && Taken(e'.log.w.hist[c.persist]) == e.log.w.hist[c.persist].loaded
            && e'.nodes == StoreAll(c.cap, e.nodes, Parse(Chunk(e.log.w.s, e.log.w.s.readers[c.persist]), c.size))
  {
    PersistTakes(e.log.w, c.persist);
  }

  lemma StoredFromTaken(c: Config, e: System, e': System, chunk: seq<byte>, to: nat)
    requires StoredOk(c, e) && e'.log.pushed == e.log.pushed && Taken(e.log.w.hist[c.persist]) <= to <= |e.log.pushed|
    requires Parse(chunk, c.size) == e.log.pushed[Taken(e.log.w.hist[c.persist])..to]
    requires c.persist in e'.log.w.hist && Taken(e'.log.w.hist[c.persist]) == to
    requires e'.nodes == StoreAll(c.cap, e.nodes, Parse(chunk, c.size))
    ensures StoredOk(c, e')
  {
    StoreMore(c.cap, e.log.pushed, Taken(e.log.w.hist[c.persist]), to);
  }

  lemma PersistStored(c: Config, e: System)
    requires Possible(c, e, Wal.PersistStep) && RowsOfSize(e.log.pushed, c.size) && StoredOk(c, e)
    requires HistoryOk(e.log.w.s, e.log.w.s.readers[c.persist], e.log.w.hist[c.persist])
    requires e.log.w.hist[c.persist].sent == Wal.Records(Ring(c), e.log.pushed)
    ensures StoredOk(c, Happen(c, e, Wal.PersistStep))
  {
    var s, h := e.log.w.s, e.log.w.hist[c.persist];
    PersistReads(c, s, s.readers[c.persist], h, e.log.pushed);
    PersistEffect(c, e);
    StoredFromTaken(c, e, Happen(c, e, Wal.PersistStep), Chunk(s, s.readers[c.persist]), h.loaded);
  }

  /** Dropping a read grant takes what was loaded. */
  lemma PersistTakes(w: World, id: nat)
    requires w.hist.Keys == w.s.readers.Keys && Enabled(w.s, StepRelease(id))
    ensures id in Next(w, StepRelease(id)).hist && Taken(Next(w, StepRelease(id)).hist[id]) == w.hist[id].loaded
  {
  }

  lemma OtherStored(c: Config, e: System, ev: Event)
    requires SystemInv(c, e) && Possible(c, e, ev) && !ev.PersistStep?
    ensures StoredOk(c, Happen(c, e, ev))
  {
    Wal.TakenKept(Ring(c), e.log, ev);
    var k, pushed := Taken(e.log.w.hist[c.persist]), Happen(c, e, ev).log.pushed;
    assert pushed[..k] == e.log.pushed[..k];
  }

  lemma HappenInv(c: Config, e: System, ev: Event)
    requires SystemInv(c, e) && Possible(c, e, ev) && Wal.Harmless(Ring(c), e.log, ev)
    ensures SystemInv(c, Happen(c, e, ev))
  {
    Wal.HappenInv(Ring(c), e.log, ev);
    TimesStep(c, e, ev);
    RowsStep(c, e, ev);
    if ev.PersistStep? {
      assert HistoryOk(e.log.w.s, e.log.w.s.readers[c.persist], e.log.w.hist[c.persist]);
      PersistStored(c, e);
    } else {
      OtherStored(c, e, ev);
    }
  }

  // ---------------------------------------------------------------- runs

  /** A component just created over an empty ring, with the persist reader registered. */
  function Start(c: Config, ringSize: nat): System {
    System(Wal.Start(Ring(c), ringSize), -0x8000_0000_0000_0000, [])
  }

  /** Any run of the code: what limits it are its own tests and nothing else. */
  predicate SystemRun(c: Config, ringSize: nat, es: seq<System>, evs: seq<Event>) {
    && 0 < ringSize < U64
    && |es| == |evs| + 1
    && es[0] == Start(c, ringSize)
    && forall i | 0 <= i < |evs| :: Possible(c, es[i], evs[i]) && es[i + 1] == Happen(c, es[i], evs[i])
  }

  function Logs(es: seq<System>): (logs: seq<Wal.Log<Sample>>)
    ensures |logs| == |es| && forall i | 0 <= i < |es| :: logs[i] == es[i].log
  {
    seq(|es|, i requires 0 <= i < |es| => es[i].log)
  }

  lemma RingRuns(c: Config, ringSize: nat, es: seq<System>, evs: seq<Event>)
    requires SystemRun(c, ringSize, es, evs)
    ensures Wal.Run(Ring(c), ringSize, Logs(es), evs)
    ensures Wal.RecordsOf(Ring(c), evs, 8 + c.size)
  {
    forall i | 0 <= i < |evs|
      ensures Wal.Possible(Ring(c), Logs(es)[i], evs[i])
      ensures Logs(es)[i + 1] == Wal.Happen(Ring(c), Logs(es)[i], evs[i])
      ensures evs[i].Begin? ==> |Wal.Record(Ring(c), evs[i].x)| == 8 + c.size
    {
      assert Possible(c, es[i], evs[i]) && es[i + 1] == Happen(c, es[i], evs[i]);
      if evs[i].Begin? {
        RecordIsEncode(c, evs[i].x);
      }
    }
  }

  lemma {:induction false} SystemRunInv(c: Config, ringSize: nat, es: seq<System>, evs: seq<Event>, i: nat)
    requires SystemRun(c, ringSize, es, evs) && Wal.HarmlessRun(Ring(c), Logs(es), evs) && i < |es|
    ensures SystemInv(c, es[i])
  {
    if i == 0 {
      Wal.StartInv(Ring(c), ringSize);
    } else {
      SystemRunInv(c, ringSize, es, evs, i - 1);
      assert Possible(c, es[i - 1], evs[i - 1]) && es[i] == Happen(c, es[i - 1], evs[i - 1]);
      assert Wal.Harmless(Ring(c), Logs(es)[i - 1], evs[i - 1]);
      HappenInv(c, es[i - 1], evs[i - 1]);
    }
  }

  /** The persist task has nothing under way and finds nothing to read. */
  predicate Drained(c: Config, e: System) {
    var s := e.log.w.s;
    && c.persist in s.readers && s.readers[c.persist].phase.Idle?
    && LoadMark(LoadWrite(s, c.persist), c.persist).readers[c.persist].phase.Idle?
  }

  /**
   What is stored, oldest node to newest, at a point where `k` of the published samples have been
   read: those samples exactly if an empty series can store them all, in order in any case, and
   all that were published once the persist task finds nothing to read.
   */
  predicate Faithful(c: Config, e: System, k: nat)
    requires 0 < c.size <= c.cap
  {
    && k <= |e.log.pushed|
    && e.nodes == StoreAll(c.cap, [], e.log.pushed[..k])
    && (Samples(e.nodes) == e.log.pushed[..k] <==> StoresAll(c.cap, c.size, e.log.pushed[..k]))
    && Sorted(Samples(e.nodes))
    && (Drained(c, e) ==> k == |e.log.pushed|)
  }

  lemma FaithfulWhenInv(c: Config, e: System)
    requires SystemInv(c, e) && 0 < c.size <= c.cap
    ensures c.persist in e.log.w.hist && Faithful(c, e, Taken(e.log.w.hist[c.persist]))
  {
    var k := Taken(e.log.w.hist[c.persist]);
    var xs := e.log.pushed[..k];
    assert Sorted(xs) && RowsOfSize(xs, c.size);
    StoreAllExact(c.cap, c.size, xs);
    assert Samples([]) + xs == xs;
    StoredInOrder(c.cap, c.size, [], xs);
    if Drained(c, e) {
      DrainedTakesAll(c, e);
    }
  }

  lemma DrainedTakesAll(c: Config, e: System)
    requires SystemInv(c, e) && Drained(c, e)
    ensures Taken(e.log.w.hist[c.persist]) == |e.log.pushed|
  {
    RecordsAreEncoded(c, e.log.pushed);
    DrainedTookAll(e.log.w, c.persist);
  }

  /**
   End to end, for every run of the code when records do not divide the ring: nothing is lost or
   reordered on the way from `push_buf` to the nodes, except what the nodes themselves refuse.
   */
  lemma EndToEnd(c: Config, ringSize: nat, es: seq<System>, evs: seq<Event>, i: nat)
    requires SystemRun(c, ringSize, es, evs) && i < |es|
    requires 0 < c.size <= c.cap && ringSize % (8 + c.size) != 0
    ensures c.persist in es[i].log.w.hist
    ensures Faithful(c, es[i], Taken(es[i].log.w.hist[c.persist]))
  {
    RingRuns(c, ringSize, es, evs);
    Wal.FixedRecordsHarmless(Ring(c), ringSize, Logs(es), evs, 8 + c.size);
    SystemRunInv(c, ringSize, es, evs, i);
    FaithfulWhenInv(c, es[i]);
  }

  /** For any ring, the same of the runs in which no push was admitted over a full ring. */
  lemma EndToEndIfHarmless(c: Config, ringSize: nat, es: seq<System>, evs: seq<Event>, i: nat)
    requires SystemRun(c, ringSize, es, evs) && i < |es|
    requires 0 < c.size <= c.cap && Wal.HarmlessRun(Ring(c), Logs(es), evs)
    ensures c.persist in es[i].log.w.hist
    ensures Faithful(c, es[i], Taken(es[i].log.w.hist[c.persist]))
  {
    SystemRunInv(c, ringSize, es, evs, i);
    FaithfulWhenInv(c, es[i]);
  }
}

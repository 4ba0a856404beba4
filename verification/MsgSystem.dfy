/**
 A message log end to end: pushes into its write-ahead ring, any number of readers, and the persist
 task that stores what it reads, in every interleaving of their steps.
 */
module MsgSystem {
  import opened Bytes
  import opened Disruptor
  import opened Broadcast
  import opened MsgLog
  import opened MsgPersist
  import Wal

  const RING_SIZE: nat := 1024 * 1024

  /** One push copies the timestamp, the length and then the message. */
  function Pieces(m: Message): seq<seq<byte>> {
    [TimestampToLe(m.timestamp), ToLe(|m.body|, 4), m.body]
  }

  /** Capacity of a node's logs, and the id of the persist task's reader. */
  datatype Config = Config(cap: nat, persist: nat)

  function Ring(c: Config): Wal.Config<Message> {
    Wal.Config(Pieces, c.persist)
  }

  type Event = Wal.Event<Message>

  datatype System = System(log: Wal.Log<Message>, nodes: seq<Node>)

  /** A read grant of the persist task is parsed and its messages stored before it is dropped. */
  function NodesAfter(c: Config, e: System, ev: Event): seq<Node> {
    if ev.PersistStep? && c.persist in e.log.w.s.readers
    then StoreAll(c.cap, e.nodes, ParseMsgs(Chunk(e.log.w.s, e.log.w.s.readers[c.persist])))
    else e.nodes
  }

  function Happen(c: Config, e: System, ev: Event): System
    requires Wal.Possible(Ring(c), e.log, ev)
  {
    System(Wal.Happen(Ring(c), e.log, ev), NodesAfter(c, e, ev))
  }

  // ---------------------------------------------------------------- the invariant

  /** The nodes are what persisting the read grants so far, one by one, makes of none. */
  predicate StoredOk(c: Config, e: System) {
    && c.persist in e.log.w.hist
    && e.nodes == PersistChunks(c.cap, [], e.log.w.hist[c.persist].got)
  }

  /** What was admitted into the ring is far shorter than the length field allows. */
  predicate SizesOk(e: System) {
    && |e.log.w.s.ring| == RING_SIZE
    && AllFit(e.log.pushed)
    && (e.log.pusher.Busy? ==> Framable(e.log.pusher.x))
  }

  predicate SystemInv(c: Config, e: System) {
    Wal.Inv(Ring(c), e.log) && SizesOk(e) && StoredOk(c, e)
  }

  lemma RecordIsFrame(c: Config, m: Message)
    ensures Wal.Record(Ring(c), m) == FrameOf(m)
  {
    var ps := Pieces(m);
    assert ps[1..] == [ps[1], m.body] && ps[1..][1..] == [m.body];
    assert Flatten([m.body]) == m.body + Flatten<byte>([]);
    assert Flatten(ps[1..]) == ps[1] + m.body;
  }

  lemma RecordsAreFrames(c: Config, ms: seq<Message>)
    ensures Wal.Records(Ring(c), ms) == Frames(ms)
  {
    forall i | 0 <= i < |ms| ensures Wal.Records(Ring(c), ms)[i] == Frames(ms)[i] {
      RecordIsFrame(c, ms[i]);
    }
  }

  // ---------------------------------------------------------------- preservation

  lemma StepKeepsRingSize(s: State, step: Step)
    requires Enabled(s, step)
    ensures |NextState(s, step).ring| == |s.ring|
  {
  }

  lemma SizesStep(c: Config, e: System, ev: Event)
    requires SizesOk(e) && Wal.Possible(Ring(c), e.log, ev)
    ensures SizesOk(Happen(c, e, ev))
  {
    if ev.Begin? {
      RecordIsFrame(c, ev.x);
    }
    var access := Wal.Access(Ring(c), e.log, ev);
    if access.Some? {
      StepKeepsRingSize(e.log.w.s, access.value);
    }
  }

  /** Only the release of its read grant changes what the persist task has received. */
  lemma GotStep(w: World, step: Step, id: nat)
    requires w.hist.Keys == w.s.readers.Keys && Enabled(w.s, step) && id in w.s.readers && step != StepUnregister(id)
    ensures id in Next(w, step).hist
    ensures Next(w, step).hist[id].got ==
              w.hist[id].got + (if step == StepRelease(id) then [Chunk(w.s, w.s.readers[id])] else [])
  {
  }

  lemma StoredStep(c: Config, e: System, ev: Event)
    requires StoredOk(c, e) && Wal.Possible(Ring(c), e.log, ev) && c.persist in e.log.w.s.readers
    ensures StoredOk(c, Happen(c, e, ev))
  {
    var access := Wal.Access(Ring(c), e.log, ev);
    if access.Some? {
      GotStep(e.log.w, access.value, c.persist);
    }
    if ev.PersistStep? {
      PersistChunksAppend(c.cap, [], e.log.w.hist[c.persist].got, Chunk(e.log.w.s, e.log.w.s.readers[c.persist]));
    }
  }

  lemma HappenInv(c: Config, e: System, ev: Event)
    requires SystemInv(c, e) && Wal.Possible(Ring(c), e.log, ev) && Wal.Harmless(Ring(c), e.log, ev)
    ensures SystemInv(c, Happen(c, e, ev))
  {
    Wal.HappenInv(Ring(c), e.log, ev);
    SizesStep(c, e, ev);
    StoredStep(c, e, ev);
  }

  // ---------------------------------------------------------------- runs

  function Start(c: Config): System {
    System(Wal.Start(Ring(c), RING_SIZE), [])
  }

  predicate SystemRun(c: Config, es: seq<System>, evs: seq<Event>) {
    && |es| == |evs| + 1
    && es[0] == Start(c)
    && forall i | 0 <= i < |evs| :: Follows(c, es[i], evs[i], es[i + 1])
  }

  predicate Follows(c: Config, e: System, ev: Event, e': System) {
    Wal.Possible(Ring(c), e.log, ev) && e' == Happen(c, e, ev)
  }

  function Logs(es: seq<System>): (logs: seq<Wal.Log<Message>>)
    ensures |logs| == |es| && forall i | 0 <= i < |es| :: logs[i] == es[i].log
  {
    seq(|es|, i requires 0 <= i < |es| => es[i].log)
  }

  lemma RingRuns(c: Config, es: seq<System>, evs: seq<Event>)
    requires SystemRun(c, es, evs)
    ensures Wal.Run(Ring(c), RING_SIZE, Logs(es), evs)
  {
    forall i | 0 <= i < |evs|
      ensures Wal.Possible(Ring(c), Logs(es)[i], evs[i])
      ensures Logs(es)[i + 1] == Wal.Happen(Ring(c), Logs(es)[i], evs[i])
    {
      assert Follows(c, es[i], evs[i], es[i + 1]);
    }
  }

  lemma FollowsInv(c: Config, e: System, ev: Event, e': System)
    requires SystemInv(c, e) && Follows(c, e, ev, e') && Wal.Harmless(Ring(c), e.log, ev)
    ensures SystemInv(c, e')
  {
    HappenInv(c, e, ev);
  }

  lemma StartInv(c: Config)
    ensures SystemInv(c, Start(c))
  {
    Wal.StartInv(Ring(c), RING_SIZE);
  }

  lemma {:induction false} SystemRunInv(c: Config, es: seq<System>, evs: seq<Event>, i: nat)
    requires SystemRun(c, es, evs) && Wal.HarmlessRun(Ring(c), Logs(es), evs) && i < |es|
    ensures SystemInv(c, es[i])
  {
    if i == 0 {
      StartInv(c);
    } else {
      SystemRunInv(c, es, evs, i - 1);
      assert Follows(c, es[i - 1], evs[i - 1], es[i]) && Wal.Harmless(Ring(c), Logs(es)[i - 1], evs[i - 1]);
      FollowsInv(c, es[i - 1], evs[i - 1], es[i]);
    }
  }

  // ---------------------------------------------------------------- the theorem

  predicate Drained(c: Config, e: System) {
    var s := e.log.w.s;
    && c.persist in s.readers && s.readers[c.persist].phase.Idle?
    && LoadMark(LoadWrite(s, c.persist), c.persist).readers[c.persist].phase.Idle?
  }

  /** The log after `k` of the published messages were read. */
  predicate Faithful(c: Config, e: System, k: nat) {
    && k <= |e.log.pushed|
    && e.nodes == StoreAll(c.cap, [], e.log.pushed[..k])
    && (c.cap <= Bytes.U32 || TotalBulk(e.log.pushed[..k]) <= Bytes.U32 ==>
          (Msgs(e.nodes) == e.log.pushed[..k] <==> Placeable(c.cap, EMPTY, e.log.pushed[..k])))
    && (Drained(c, e) ==> k == |e.log.pushed|)
  }

  lemma StoredIsStoreAll(cap: nat, h: History, ms: seq<Message>)
    requires h.sent == Frames(ms) && AllFit(ms) && WholeFrames(h.sent, h.got, h.ends)
    ensures Taken(h) <= |ms| && PersistChunks(cap, [], h.got) == StoreAll(cap, [], ms[..Taken(h)])
  {
    ChunksAreMessages(cap, h.sent, h.got, h.ends, ms, |h.got|);
    assert h.got[..|h.got|] == h.got;
  }

  lemma FaithfulWhenInv(c: Config, e: System)
    requires SystemInv(c, e)
    ensures c.persist in e.log.w.hist && Faithful(c, e, Taken(e.log.w.hist[c.persist]))
  {
    var h, ms := e.log.w.hist[c.persist], e.log.pushed;
    assert HistoryOk(e.log.w.s, e.log.w.s.readers[c.persist], h);
    RecordsAreFrames(c, ms);
    StoredIsStoreAll(c.cap, h, ms);
    if c.cap <= Bytes.U32 || TotalBulk(ms[..Taken(h)]) <= Bytes.U32 {
      StoreAllFromEmpty(c.cap, ms[..Taken(h)]);
    }
    if Drained(c, e) {
      DrainedTookAll(e.log.w, c.persist);
    }
  }

  /**
   End to end, for every run in which no push was admitted over a full ring: the nodes are what
   storing the messages taken so far makes of none; they hold exactly those messages, in order, if
   and only if all of them find a place, while offsets fit 32 bits; and those are all messages
   pushed once nothing is left to read.
   */
  lemma MessagesEndToEnd(c: Config, es: seq<System>, evs: seq<Event>, i: nat)
    requires SystemRun(c, es, evs) && i < |es| && Wal.HarmlessRun(Ring(c), Logs(es), evs)
    ensures c.persist in es[i].log.w.hist
    ensures Faithful(c, es[i], Taken(es[i].log.w.hist[c.persist]))
  {
    SystemRunInv(c, es, evs, i);
    FaithfulWhenInv(c, es[i]);
  }

  /** In particular for every run in which no grant ends exactly at the end of the ring. */
  lemma MessagesEndToEndShort(c: Config, es: seq<System>, evs: seq<Event>, i: nat)
    requires SystemRun(c, es, evs) && i < |es| && Wal.ShortRun(Ring(c), Logs(es), evs)
    ensures c.persist in es[i].log.w.hist
    ensures Faithful(c, es[i], Taken(es[i].log.w.hist[c.persist]))
  {
    RingRuns(c, es, evs);
    Wal.ShortRunHarmless(Ring(c), RING_SIZE, Logs(es), evs);
    MessagesEndToEnd(c, es, evs, i);
  }
}

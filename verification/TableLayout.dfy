/**
 The tables of a fixed-rate stream: one computation of offsets describes the table in a
 vtable, another fills the table, and the receiver reads it through the vtable. The three
 have to agree byte for byte.
 */
module TableLayout {
  import opened Arithmetic
  import opened Bytes
  import opened VTables
  import opened VTableBuilder
  import Packets

  /**
   A component as the visitor sees it: `hasHead` says that its list of nodes is not empty,
   `nearest` is the sample found for the current tick.
   */
  datatype Entry = Entry(id: nat, ty: PrimType, shape: seq<nat>, hasHead: bool, nearest: Option<(Bytes.Timestamp, seq<byte>)>)

  function SizeOf(e: Entry): nat {
    match ElementCount(e.shape, 1)
    case Some(n) => n * PrimSize(e.ty)
    case None => 0
  }

  /** A schema whose size fits a machine word and a sample of that size. */
  predicate EntryOk(e: Entry) {
    && e.id < Bytes.U64
    && (forall i | 0 <= i < |e.shape| :: e.shape[i] < Bytes.U64)
    && ElementCount(e.shape, 1).Some?
    && (e.nearest.Some? ==>
          && |e.nearest.value.1| == SizeOf(e)
          && (e.ty == Bool ==> forall i | 0 <= i < SizeOf(e) :: e.nearest.value.1[i] <= 1))
  }

  // ---------------------------------------------------------------- offsets in the vtable

  /** Where one component lies in the table. */
  datatype Slot = Slot(stamp: nat, at: nat, end: nat)

  /** The slot of a component when the components before it end at `offset`. */
  function SlotFrom(offset: nat, e: Entry): Slot {
    var stamp := offset + Packets.PadTo(PrimType.U64, offset);
    var at := stamp + 8 + Packets.PadTo(e.ty, stamp + 8);
    Slot(stamp, at, at + SizeOf(e))
  }

  function EndOf(slots: seq<Slot>): nat {
    if slots == [] then 0 else slots[|slots| - 1].end
  }

  /** The running offset of the vtable builder, component by component. */
  function PlanSlots(es: seq<Entry>): (slots: seq<Slot>)
    ensures |slots| == |es|
  {
    if es == [] then []
    else
      var before := PlanSlots(es[..|es| - 1]);
      before + [SlotFrom(EndOf(before), es[|es| - 1])]
  }

  // ---------------------------------------------------------------- the vtable

  function DimBytes(shape: seq<nat>): (b: seq<byte>)
    ensures |b| == 8 * |shape|
  {
    if shape == [] then [] else ToLe(shape[0], 8) + DimBytes(shape[1..])
  }

  function PrimIndex(ty: PrimType): nat {
    match ty
    case U8 => 0 case U16 => 1 case U32 => 2 case U64 => 3 case I8 => 4 case I16 => 5
    case I32 => 6 case I64 => 7 case Bool => 8 case F32 => 9 case F64 => 10
  }

  /** The builder nodes of one component, the first of them being node `b`. */
  function EntryNodes(b: nat, e: Entry, stamp: nat): (ns: seq<Node>)
    ensures |ns| == 7
  {
    [ BTable(stamp, 8),
      BData(8, ToLe(e.id, 8)),
      BComponent(b + 1),
      BData(8, ToLe(PrimIndex(e.ty), 8)),
      BData(8, DimBytes(e.shape)),
      BSchema(b + 3, b + 4, b + 2),
      BTimestamp(b, b + 5) ]
  }

  function PlanGraph(es: seq<Entry>, slots: seq<Slot>): (g: Graph)
    requires |slots| == |es|
    ensures |g| == 7 * |es|
  {
    if es == [] then []
    else
      var n := |es| - 1;
      PlanGraph(es[..n], slots[..n]) + EntryNodes(7 * n, es[n], slots[n].stamp)
  }

  function PlanFields(es: seq<Entry>, slots: seq<Slot>): (fs: seq<FieldBuilder>)
    requires |slots| == |es|
    ensures |fs| == |es|
    ensures forall k | 0 <= k < |es| :: fs[k] == FieldBuilder(slots[k].at, SizeOf(es[k]), 7 * k + 6)
  {
    seq(|es|, k requires 0 <= k < |es| => FieldBuilder(slots[k].at, SizeOf(es[k]), 7 * k + 6))
  }

  // ---------------------------------------------------------------- the table

  /** Bytes appended for one component: padding, timestamp, padding, data. */
  function Append(before: seq<byte>, pad1: nat, stamp: seq<byte>, pad2: nat, data: seq<byte>): (b: seq<byte>)
    ensures |b| == |before| + pad1 + |stamp| + pad2 + |data|
  {
    before + Zeros(pad1) + stamp + Zeros(pad2) + data
  }

  lemma AppendSlices(before: seq<byte>, pad1: nat, stamp: seq<byte>, pad2: nat, data: seq<byte>)
    ensures var b := Append(before, pad1, stamp, pad2, data);
            var at := |before| + pad1;
            && before <= b
            && b[at..at + |stamp|] == stamp
            && b[at + |stamp| + pad2..] == data
  {
    var b, at := Append(before, pad1, stamp, pad2, data), |before| + pad1;
    assert b == (before + Zeros(pad1)) + (stamp + Zeros(pad2) + data);
    assert b == (before + Zeros(pad1) + stamp + Zeros(pad2)) + data;
    assert b[at..] == stamp + Zeros(pad2) + data;
  }

  /** What `populate_table` appends for one component; padding counts from the packet's start. */
  function AppendEntry(before: seq<byte>, e: Entry): seq<byte>
    requires e.nearest.Some?
  {
    var pad1 := ModuloPadding(8 + |before|, 8);
    var pad2 := Packets.PadTo(e.ty, 8 + |before| + pad1 + 8);
    Append(before, pad1, TimestampToLe(e.nearest.value.0), pad2, e.nearest.value.1)
  }

  predicate AllFound(es: seq<Entry>) {
    forall k | 0 <= k < |es| :: es[k].nearest.Some?
  }

  /** The body of the packet filled from `es`. */
  function Body(es: seq<Entry>): seq<byte>
    requires AllFound(es)
  {
    if es == [] then [] else AppendEntry(Body(es[..|es| - 1]), es[|es| - 1])
  }

  lemma {:induction false} BodyGrows(es: seq<Entry>, i: nat)
    requires AllFound(es) && i <= |es|
    ensures |Body(es[..i])| <= |Body(es)|
  {
    if i < |es| {
      BodyGrows(es[..|es| - 1], i);
      assert es[..|es| - 1][..i] == es[..i];
    } else {
      assert es[..i] == es;
    }
  }

  /** Appends one component to a packet, with the packet's own padding operations. */
  method PushEntry(pkt: Packets.LenPacket, e: Entry)
    requires pkt.Valid() && e.nearest.Some? && |AppendEntry(pkt.Body(), e)| + 40 < Bytes.U32
    modifies pkt
    ensures pkt.Valid() && pkt.Header() == old(pkt.Header())
    ensures pkt.Body() == AppendEntry(old(pkt.Body()), e)
  {
    var (ts, data) := e.nearest.value;
    ghost var before := pkt.Body();
    ghost var pad1 := ModuloPadding(8 + |before|, 8);
    pkt.PushAligned(8, TimestampToLe(ts));
    assert pkt.Body() == before + Zeros(pad1) + TimestampToLe(ts);
    pkt.PadForType(e.ty);
    pkt.ExtendFromSlice(data);
  }

  /** The body after visiting `i` components, skipping those without a sample. */
  function BodyUpTo(es: seq<Entry>, i: nat): seq<byte>
    requires i <= |es|
  {
    PopulatedFound(es[..i]);
    Body(Populated(es[..i]))
  }

  lemma BodyUpToNext(es: seq<Entry>, i: nat)
    requires i < |es|
    ensures BodyUpTo(es, i + 1) ==
              if es[i].nearest.Some? then AppendEntry(BodyUpTo(es, i), es[i]) else BodyUpTo(es, i)
    ensures |Populated(es[..i + 1])| == |Populated(es[..i])| + if es[i].nearest.Some? then 1 else 0
  {
    PopulatedFound(es[..i]);
    PopulatedFound(es[..i + 1]);
    PopulatedSnoc(es, i);
    var q, q' := Populated(es[..i]), Populated(es[..i + 1]);
    if es[i].nearest.Some? {
      assert q'[..|q'| - 1] == q && q'[|q'| - 1] == es[i];
    } else {
      assert q' == q;
    }
  }

  lemma BodyUpToBounded(es: seq<Entry>, i: nat)
    requires i < |es|
    ensures |BodyUpTo(es, i + 1)| <= |BodyUpTo(es, |es|)|
  {
    PopulatedFound(es);
    PopulatedFound(es[..i + 1]);
    PopulatedSnoc(es, i);
    var q' := Populated(es[..i + 1]);
    assert q' == Populated(es)[..|q'|];
    BodyGrows(Populated(es), |q'|);
    assert es[..|es|] == es;
  }

  /** One component of the walk; nothing is pushed for one without a sample. */
  method VisitEntry(pkt: Packets.LenPacket, es: seq<Entry>, i: nat) returns (pushed: nat)
    requires pkt.Valid() && i < |es| && pkt.Body() == BodyUpTo(es, i) && |BodyUpTo(es, |es|)| + 40 < Bytes.U32
    modifies pkt
    ensures pkt.Valid() && pkt.Header() == old(pkt.Header()) && pkt.Body() == BodyUpTo(es, i + 1)
    ensures |Populated(es[..i + 1])| == |Populated(es[..i])| + pushed
  {
    BodyUpToNext(es, i);
    BodyUpToBounded(es, i);
    if es[i].nearest.Some? {
      PushEntry(pkt, es[i]);
      return 1;
    }
    return 0;
  }

  /** Fills a packet the way `populate_table` does, and counts the fields. */
  method PopulateTable(pkt: Packets.LenPacket, es: seq<Entry>) returns (fields: nat)
    requires pkt.Valid() && pkt.Body() == [] && |BodyUpTo(es, |es|)| + 40 < Bytes.U32
    modifies pkt
    ensures pkt.Valid() && pkt.Header() == old(pkt.Header())
    ensures pkt.Body() == BodyUpTo(es, |es|) && fields == |Populated(es)|
  {
    fields := 0;
    var i := 0;
    assert es[..0] == [];
    while i < |es|
      invariant 0 <= i <= |es|
      invariant pkt.Valid() && pkt.Header() == old(pkt.Header())
      invariant fields == |Populated(es[..i])| && pkt.Body() == BodyUpTo(es, i)
    {
      var pushed := VisitEntry(pkt, es, i);
      fields := fields + pushed;
      i := i + 1;
    }
    assert es[..|es|] == es;
  }

  // ---------------------------------------------------------------- the two computations agree

  predicate AllHere(es: seq<Entry>) {
    forall k | 0 <= k < |es| :: EntryOk(es[k]) && es[k].nearest.Some?
  }

  /** The timestamp and the data of `e` lie in `b` where the slot says, the data aligned. */
  predicate Placed(e: Entry, slot: Slot, b: seq<byte>) {
    && e.nearest.Some?
    && slot.stamp + 8 <= slot.at && slot.at + SizeOf(e) == slot.end <= |b|
    && b[slot.stamp..slot.stamp + 8] == TimestampToLe(e.nearest.value.0)
    && b[slot.at..slot.end] == e.nearest.value.1
    && slot.at % PrimAlign(e.ty) == 0
  }

  /** Padding is the same eight bytes further on, where the packet keeps its prefix and header. */
  lemma HeaderKeepsPadding(ty: PrimType, offset: nat)
    ensures Packets.PadTo(ty, 8 + offset) == Packets.PadTo(ty, offset)
  {
    match PrimAlign(ty)
    case 1 =>
    case 2 => assert (8 + offset) % 2 == offset % 2;
    case 4 => assert (8 + offset) % 4 == offset % 4;
    case _ => assert (8 + offset) % 8 == offset % 8;
  }

  lemma StampPadding(o: nat)
    ensures ModuloPadding(8 + o, 8) == Packets.PadTo(PrimType.U64, o)
  {
    Packets.RoundUp8(8 + o);
    assert (8 + o) % 8 == o % 8;
  }

  /** One component: what is appended lands in the slot of the plan. */
  lemma {:induction false} AppendLands(before: seq<byte>, e: Entry)
    requires EntryOk(e) && e.nearest.Some? && |before| + 40 < Bytes.U64
    ensures var slot, b := SlotFrom(|before|, e), AppendEntry(before, e);
            Placed(e, slot, b) && |b| == slot.end && before <= b
  {
    var slot := SlotFrom(|before|, e);
    var pad1, pad2 := slot.stamp - |before|, slot.at - (slot.stamp + 8);
    StampPadding(|before|);
    HeaderKeepsPadding(e.ty, slot.stamp + 8);
    assert AppendEntry(before, e) == Append(before, pad1, TimestampToLe(e.nearest.value.0), pad2, e.nearest.value.1);
    AppendSlices(before, pad1, TimestampToLe(e.nearest.value.0), pad2, e.nearest.value.1);
    SlotAligned(|before|, e);
  }

  lemma SlotAligned(offset: nat, e: Entry)
    requires offset + 40 < Bytes.U64
    ensures SlotFrom(offset, e).at % PrimAlign(e.ty) == 0
  {
    Packets.MaskIsPadding(e.ty, SlotFrom(offset, e).stamp + 8);
  }

  /** A slot is as close to what is before it as alignment allows, and as long as the schema says. */
  lemma SlotExact(offset: nat, e: Entry)
    requires offset + 40 < Bytes.U64
    ensures var slot := SlotFrom(offset, e);
            && slot.stamp % 8 == 0 && offset <= slot.stamp < offset + 8
            && slot.at % PrimSize(e.ty) == 0 && slot.stamp + 8 <= slot.at < slot.stamp + 8 + PrimSize(e.ty)
            && (ProductsFit(e.shape) ==> slot.end == slot.at + Product(e.shape) * PrimSize(e.ty))
  {
    CountIsProduct(e.shape);
    Packets.MaskIsPadding(PrimType.U64, offset);
    SlotAligned(offset, e);
    Packets.MaskIsPadding(e.ty, SlotFrom(offset, e).stamp + 8);
  }

  /** What is appended for a component: zeros up to its slot, the timestamp, zeros, the sample. */
  lemma AppendExact(before: seq<byte>, e: Entry)
    requires e.nearest.Some? && |before| + 40 < Bytes.U64
    ensures var slot, b := SlotFrom(|before|, e), AppendEntry(before, e);
            && |before| <= slot.stamp && slot.stamp + 8 <= slot.at && |b| == slot.at + |e.nearest.value.1|
            && b[..|before|] == before
            && (forall i | |before| <= i < slot.stamp :: b[i] == 0)
            && b[slot.stamp..slot.stamp + 8] == TimestampToLe(e.nearest.value.0)
            && (forall i | slot.stamp + 8 <= i < slot.at :: b[i] == 0)
            && b[slot.at..] == e.nearest.value.1
  {
    var slot := SlotFrom(|before|, e);
    var pad1, pad2 := slot.stamp - |before|, slot.at - (slot.stamp + 8);
    StampPadding(|before|);
    HeaderKeepsPadding(e.ty, slot.stamp + 8);
    assert AppendEntry(before, e) == Append(before, pad1, TimestampToLe(e.nearest.value.0), pad2, e.nearest.value.1);
    AppendSlices(before, pad1, TimestampToLe(e.nearest.value.0), pad2, e.nearest.value.1);
  }

  lemma PlacedInLonger(e: Entry, slot: Slot, a: seq<byte>, b: seq<byte>)
    requires Placed(e, slot, a) && a <= b
    ensures Placed(e, slot, b)
  {
    assert b[slot.stamp..slot.stamp + 8] == a[slot.stamp..slot.stamp + 8];
    assert b[slot.at..slot.end] == a[slot.at..slot.end];
  }

  lemma PlanEndGrows(es: seq<Entry>)
    requires es != []
    ensures EndOf(PlanSlots(es[..|es| - 1])) + 8 <= EndOf(PlanSlots(es))
  {
  }

  /** The filled table has the planned length, and every component is in its slot. */
  lemma {:induction false} BodyFollowsPlan(es: seq<Entry>)
    requires AllHere(es) && EndOf(PlanSlots(es)) + 40 < Bytes.U64
    ensures |Body(es)| == EndOf(PlanSlots(es))
    ensures forall k | 0 <= k < |es| :: Placed(es[k], PlanSlots(es)[k], Body(es))
  {
    if es != [] {
      var n := |es| - 1;
      var front := es[..n];
      PlanEndGrows(es);
      BodyFollowsPlan(front);
      AppendLands(Body(front), es[n]);
      forall k | 0 <= k < |es| ensures Placed(es[k], PlanSlots(es)[k], Body(es)) {
        if k < n {
          assert front[k] == es[k] && PlanSlots(es)[k] == PlanSlots(front)[k];
          PlacedInLonger(es[k], PlanSlots(front)[k], Body(front), Body(es));
        }
      }
    }
  }

  // ---------------------------------------------------------------- reading it back

  lemma {:induction false} WordsOfDims(shape: seq<nat>)
    requires forall i | 0 <= i < |shape| :: shape[i] < Bytes.U64
    ensures Words(DimBytes(shape)) == shape
  {
    if shape != [] {
      PowersOf256();
      FromLeToLe(shape[0], 8);
      var b := DimBytes(shape);
      assert b[..8] == ToLe(shape[0], 8) && b[8..] == DimBytes(shape[1..]);
      WordsOfDims(shape[1..]);
    }
  }

  lemma {:induction false} PlanGraphOk(es: seq<Entry>, slots: seq<Slot>)
    requires |slots| == |es|
    ensures GraphOk(PlanGraph(es, slots)) && DimsAligned(PlanGraph(es, slots))
    ensures FieldsOk(PlanGraph(es, slots), PlanFields(es, slots))
  {
    if es != [] {
      var n := |es| - 1;
      PlanGraphOk(es[..n], slots[..n]);
      var g, prev := PlanGraph(es, slots), PlanGraph(es[..n], slots[..n]);
      var b := 7 * n;
      forall k | 0 <= k < |g| ensures NodeOk(g[k], k) {
        if k < b {
          assert g[k] == prev[k] && NodeOk(prev[k], k);
        }
      }
      forall k | 0 <= k < |g| && g[k].BSchema?
        ensures g[k].dim < |g| && (g[g[k].dim].BData? ==> g[g[k].dim].align % 8 == 0)
      {
        if k < b {
          assert g[k] == prev[k] && NodeOk(prev[k], k);
        } else {
          assert k == b + 5;
          assert g[b + 4] == BData(8, DimBytes(es[n].shape));
        }
      }
    }
  }

  lemma SliceOfConcat<T>(a: seq<T>, b: seq<T>, i: nat, j: nat)
    requires i <= j <= |a|
    ensures (a + b)[i..j] == a[i..j]
  {
  }

  /** The nodes of component `k` stay where they are as the graph grows. */
  lemma {:induction false} PlanGraphAt(es: seq<Entry>, slots: seq<Slot>, k: nat)
    requires |slots| == |es| && k < |es|
    ensures PlanGraph(es, slots)[7 * k..7 * k + 7] == EntryNodes(7 * k, es[k], slots[k].stamp)
  {
    var n := |es| - 1;
    var nodes := EntryNodes(7 * n, es[n], slots[n].stamp);
    if k < n {
      PlanGraphAt(es[..n], slots[..n], k);
      SliceOfConcat(PlanGraph(es[..n], slots[..n]), nodes, 7 * k, 7 * k + 7);
    } else {
      assert (PlanGraph(es[..n], slots[..n]) + nodes)[7 * k..7 * k + 7] == nodes;
    }
  }

  /** What the receiver must see for a component. */
  function Expected(e: Entry, at: nat): RealizedField
    requires e.nearest.Some?
  {
    RealizedField(e.id, e.shape, e.ty, at, Some(View(e.ty, e.shape, e.nearest.value.1)), Some(e.nearest.value.0))
  }

  /** The schema node of a component evaluates to its shape and type. */
  lemma {:induction false} EvalSchemaNode(g: Graph, b: nat, e: Entry, stamp: nat, table: Option<seq<byte>>)
    requires GraphOk(g) && b + 7 <= |g| && g[b..b + 7] == EntryNodes(b, e, stamp) && EntryOk(e)
    ensures Eval(g, b + 5, table) == Ok(RSchema(e.shape, e.ty, b + 2))
    ensures Eval(g, b + 2, table) == Ok(RComponent(e.id))
  {
    var ns := g[b..b + 7];
    assert g[b + 1] == ns[1] && g[b + 2] == ns[2] && g[b + 3] == ns[3] && g[b + 4] == ns[4] && g[b + 5] == ns[5];
    PowersOf256();
    FromLeToLe(e.id, 8);
    FromLeToLe(PrimIndex(e.ty), 8);
    WordsOfDims(e.shape);
    assert Eval(g, b + 1, table) == Ok(RData(ToLe(e.id, 8)));
    assert Eval(g, b + 3, table) == Ok(RData(ToLe(PrimIndex(e.ty), 8)));
    assert Eval(g, b + 4, table) == Ok(RData(DimBytes(e.shape)));
    assert AsPrimType(RData(ToLe(PrimIndex(e.ty), 8))) == Some(e.ty);
    assert CastDims(DimBytes(e.shape), true) == Ok(e.shape);
    assert NodeWordAligned(g[b + 4]);
  }

  lemma {:induction false} EvalStampNode(g: Graph, b: nat, e: Entry, stamp: nat, table: seq<byte>, ts: Bytes.Timestamp)
    requires GraphOk(g) && b + 7 <= |g| && g[b..b + 7] == EntryNodes(b, e, stamp)
    requires stamp + 8 <= |table| && table[stamp..stamp + 8] == TimestampToLe(ts)
    ensures Eval(g, b + 6, Some(table)) == Ok(RTimestamp(Some(ts), Some((stamp, stamp + 8)), b + 5))
  {
    var ns := g[b..b + 7];
    assert g[b] == ns[0] && g[b + 6] == ns[6];
    TimestampRoundTrip(ts);
    assert Eval(g, b, Some(table)) == Ok(RTable(Some(TimestampToLe(ts)), stamp, stamp + 8));
  }

  lemma ViewOfData(e: Entry, at: nat)
    requires EntryOk(e) && e.nearest.Some? && at % PrimAlign(e.ty) == 0 && SizeOf(e) < Bytes.U64 / 2
    ensures ViewOf(e.nearest.value.1, at, e.shape, e.ty) == Ok(View(e.ty, e.shape, e.nearest.value.1))
  {
    var buf := e.nearest.value.1;
    assert buf[..SizeOf(e)] == buf;
  }

  lemma {:induction false} EvalEntry(g: Graph, b: nat, e: Entry, stamp: nat, at: nat, table: seq<byte>)
    requires GraphOk(g) && b + 7 <= |g| && g[b..b + 7] == EntryNodes(b, e, stamp)
    requires EntryOk(e) && e.nearest.Some? && SizeOf(e) < Bytes.U64 / 2
    requires stamp + 8 <= |table| && table[stamp..stamp + 8] == TimestampToLe(e.nearest.value.0)
    requires at + SizeOf(e) <= |table| && table[at..at + SizeOf(e)] == e.nearest.value.1
    requires at % PrimAlign(e.ty) == 0
    ensures EvalField(g, b + 6, None, None, at, SizeOf(e), Some(table)) == Ok(Expected(e, at))
  {
    var t := Some(table);
    EvalStampNode(g, b, e, stamp, table, e.nearest.value.0);
    EvalSchemaNode(g, b, e, stamp, t);
    ViewOfData(e, at);
    var ns := g[b..b + 7];
    assert g[b + 6] == ns[6] && g[b + 5] == ns[5] && g[b + 2] == ns[2];
    var ts := Some(Some(e.nearest.value.0));
    assert EvalField(g, b + 2, Some((e.shape, e.ty)), ts, at, SizeOf(e), t) == Ok(Expected(e, at));
    assert EvalField(g, b + 5, None, ts, at, SizeOf(e), t) == Ok(Expected(e, at));
  }

  lemma {:induction false} SlotReadsBack(es: seq<Entry>, slots: seq<Slot>, k: nat, b: seq<byte>)
    requires |slots| == |es| && k < |es| && EntryOk(es[k]) && SizeOf(es[k]) < Bytes.U64 / 2
    requires Placed(es[k], slots[k], b)
    ensures var g, fs := PlanGraph(es, slots), PlanFields(es, slots);
            && GraphOk(g) && FieldsOk(g, fs)
            && EvalFields(g, fs, Some(b))[k] == Ok(Expected(es[k], slots[k].at))
  {
    PlanGraphOk(es, slots);
    PlanGraphAt(es, slots, k);
    EvalEntry(PlanGraph(es, slots), 7 * k, es[k], slots[k].stamp, slots[k].at, b);
  }

  /** Every component is read back from the table exactly as it was put in. */
  lemma {:induction false} TableReadsBack(es: seq<Entry>, slots: seq<Slot>, k: nat)
    requires AllHere(es) && k < |es| && slots == PlanSlots(es) && EndOf(slots) + 40 < Bytes.U64 / 2
    ensures var g, fs := PlanGraph(es, slots), PlanFields(es, slots);
            && GraphOk(g) && FieldsOk(g, fs)
            && EvalFields(g, fs, Some(Body(es)))[k] == Ok(Expected(es[k], slots[k].at))
  {
    BodyFollowsPlan(es);
    assert Placed(es[k], slots[k], Body(es));
    SlotReadsBack(es, slots, k, Body(es));
  }

  /** The present components, in the order of iteration. */
  function Present(es: seq<Entry>): seq<Entry> {
    if es == [] then [] else (if es[0].hasHead then [es[0]] else []) + Present(es[1..])
  }

  function Populated(es: seq<Entry>): seq<Entry> {
    if es == [] then [] else (if es[0].nearest.Some? then [es[0]] else []) + Populated(es[1..])
  }

  predicate EntriesOk(es: seq<Entry>) {
    forall i | 0 <= i < |es| :: EntryOk(es[i])
  }

  /** The two visits agree on which components to include. */
  predicate VisitsAgree(es: seq<Entry>) {
    forall i | 0 <= i < |es| :: es[i].hasHead <==> es[i].nearest.Some?
  }

  lemma {:induction false} PresentIsPopulated(es: seq<Entry>)
    requires EntriesOk(es) && VisitsAgree(es)
    ensures Present(es) == Populated(es) && AllHere(Present(es))
  {
    if es != [] {
      PresentIsPopulated(es[1..]);
    }
  }

  lemma {:induction false} PopulatedFound(es: seq<Entry>)
    ensures AllFound(Populated(es))
  {
    if es != [] {
      PopulatedFound(es[1..]);
    }
  }

  lemma {:induction false} PopulatedConcat(xs: seq<Entry>, ys: seq<Entry>)
    ensures Populated(xs + ys) == Populated(xs) + Populated(ys)
  {
    if xs == [] {
      assert xs + ys == ys;
    } else {
      var head := if xs[0].nearest.Some? then [xs[0]] else [];
      PopulatedConcat(xs[1..], ys);
      assert (xs + ys)[0] == xs[0] && (xs + ys)[1..] == xs[1..] + ys;
      assert Populated(xs + ys) == head + Populated(xs[1..] + ys);
      assert head + (Populated(xs[1..]) + Populated(ys)) == (head + Populated(xs[1..])) + Populated(ys);
    }
  }

  lemma {:induction false} PopulatedSnoc(es: seq<Entry>, i: nat)
    requires i < |es|
    ensures Populated(es[..i + 1]) == Populated(es[..i]) + (if es[i].nearest.Some? then [es[i]] else [])
    ensures Populated(es[..i + 1]) <= Populated(es)
  {
    assert es[..i + 1] == es[..i] + [es[i]] && es == es[..i + 1] + es[i + 1..];
    PopulatedConcat(es[..i], [es[i]]);
    PopulatedConcat(es[..i + 1], es[i + 1..]);
    assert Populated([es[i]][1..]) == [];
  }

  /** The vtable sent for these components. */
  function LayoutVTable(ps: seq<Entry>): VTable {
    PlanGraphOk(ps, PlanSlots(ps));
    Compile(RUST, PlanGraph(ps, PlanSlots(ps)), PlanFields(ps, PlanSlots(ps)))
  }

  /** Offsets in the table and in the vtable's own sections fit 32 bits. */
  predicate LayoutFits(ps: seq<Entry>) {
    EndOf(PlanSlots(ps)) + 40 < Bytes.U32 && Fits(RUST, LayoutVTable(ps).ops, LayoutVTable(ps).data)
  }

  lemma {:induction false} LayoutFieldCount(ps: seq<Entry>)
    requires LayoutFits(ps)
    ensures WellFounded(LayoutVTable(ps)) && |LayoutVTable(ps).fields| == |ps|
  {
    var slots := PlanSlots(ps);
    PlanGraphOk(ps, slots);
    CompileCorrect(RUST, PlanGraph(ps, slots), PlanFields(ps, slots), None);
  }

  /** Field by field: what is realized is what was put in. */
  lemma {:induction false} LayoutAgrees(ps: seq<Entry>, k: nat)
    requires AllHere(ps) && LayoutFits(ps) && k < |ps|
    ensures WellFounded(LayoutVTable(ps)) && |LayoutVTable(ps).fields| == |ps|
    ensures RealizeFields(LayoutVTable(ps), Some(Body(ps)))[k] == Ok(Expected(ps[k], PlanSlots(ps)[k].at))
  {
    var slots := PlanSlots(ps);
    LayoutFieldCount(ps);
    PlanGraphOk(ps, slots);
    TableReadsBack(ps, slots, k);
    CompileCorrect(RUST, PlanGraph(ps, slots), PlanFields(ps, slots), Some(Body(ps)));
  }

  /** What the sink is given for a component: its id, its data and its timestamp. */
  function SunkOf(e: Entry): Sunk
    requires e.nearest.Some?
  {
    Sunk(e.id, View(e.ty, e.shape, e.nearest.value.1), Some(e.nearest.value.0))
  }

  function SunkAll(qs: seq<Entry>): (calls: seq<Sunk>)
    requires AllFound(qs)
    ensures |calls| == |qs| && forall k | 0 <= k < |qs| :: calls[k] == SunkOf(qs[k])
  {
    seq(|qs|, k requires 0 <= k < |qs| => SunkOf(qs[k]))
  }

  /** A sink that refuses nothing is called once for each field, if no field fails. */
  lemma {:induction false} SinkAllOk(fields: seq<Result<RealizedField, Error>>, calls: seq<Sunk>, accepts: nat -> bool, i: nat)
    requires |calls| == |fields| && (forall n :: accepts(n))
    requires forall k | 0 <= k < |fields| ::
               fields[k].Ok? && fields[k].value.view.Some?
               && calls[k] == Sunk(fields[k].value.componentId, fields[k].value.view.value, fields[k].value.timestamp)
    ensures SinkAll(fields, accepts, i) == (calls, Done)
  {
    if fields != [] {
      SinkAllOk(fields[1..], calls[1..], accepts, i + 1);
      assert [calls[0]] + calls[1..] == calls;
    }
  }

  lemma {:induction false} SinkAllCount(fields: seq<Result<RealizedField, Error>>, accepts: nat -> bool, i: nat)
    requires forall k | 0 <= k < |fields| :: fields[k].Ok? ==> fields[k].value.view.Some?
    ensures SinkAll(fields, accepts, i).1.Done? ==> |SinkAll(fields, accepts, i).0| == |fields|
  {
    if fields != [] && fields[0].Ok? && accepts(i) {
      SinkAllCount(fields[1..], accepts, i + 1);
    }
  }

  lemma {:induction false} LayoutSinksAll(ps: seq<Entry>, accepts: nat -> bool)
    requires AllHere(ps) && LayoutFits(ps) && (forall n :: accepts(n))
    ensures WellFounded(LayoutVTable(ps)) && AllFound(ps)
    ensures Apply(LayoutVTable(ps), Body(ps), accepts) == (SunkAll(ps), Done)
  {
    LayoutFieldCount(ps);
    var fields := RealizeFields(LayoutVTable(ps), Some(Body(ps)));
    forall k | 0 <= k < |fields| ensures fields[k] == Ok(Expected(ps[k], PlanSlots(ps)[k].at)) {
      LayoutAgrees(ps, k);
    }
    SinkAllOk(fields, SunkAll(ps), accepts, 0);
  }

  /** A sample is found only in a list that has a node. */
  predicate FoundHasHead(es: seq<Entry>) {
    forall i | 0 <= i < |es| :: es[i].nearest.Some? ==> es[i].hasHead
  }

  lemma {:induction false} FewerPopulated(es: seq<Entry>)
    requires FoundHasHead(es)
    ensures |Populated(es)| <= |Present(es)|
    ensures !VisitsAgree(es) ==> |Populated(es)| < |Present(es)|
  {
    if es != [] {
      FewerPopulated(es[1..]);
      if VisitsAgree(es[1..]) && (es[0].hasHead <==> es[0].nearest.Some?) {
        assert forall i | 0 < i < |es| :: es[i] == es[1..][i - 1];
      }
    }
  }

  /**
   The layout theorem: describe a component map, fill a table from the same map and apply the one
   to the other. The sink gets, for each component with a sample and in order, exactly the
   timestamp and the data put in, if and only if no component has a node but no sample.
   */
  lemma {:induction false} TableArrivesIffVisitsAgree(es: seq<Entry>, accepts: nat -> bool)
    requires EntriesOk(es) && FoundHasHead(es) && LayoutFits(Present(es)) && (forall n :: accepts(n))
    ensures WellFounded(LayoutVTable(Present(es))) && AllFound(Populated(es))
    ensures Apply(LayoutVTable(Present(es)), Body(Populated(es)), accepts) == (SunkAll(Populated(es)), Done)
            <==> VisitsAgree(es)
  {
    LayoutFieldCount(Present(es));
    PopulatedFound(es);
    if VisitsAgree(es) {
      PresentIsPopulated(es);
      LayoutSinksAll(Present(es), accepts);
    } else {
      FewerPopulated(es);
      SinkAllCount(RealizeFields(LayoutVTable(Present(es)), Some(Body(Populated(es)))), accepts, 0);
    }
  }

  lemma {:induction false} PresentSnoc(es: seq<Entry>, i: nat)
    requires i < |es|
    ensures Present(es[..i + 1]) == Present(es[..i]) + (if es[i].hasHead then [es[i]] else [])
    decreases i
  {
    assert es[..i + 1][1..] == es[1..][..i];
    if i == 0 {
      assert es[..1] == [es[0]] && es[..0] == [];
      assert Present([es[0]][1..]) == [];
    } else {
      assert es[..i][1..] == es[1..][..i - 1];
      PresentSnoc(es[1..], i - 1);
    }
  }

  lemma SlotsNext(ps: seq<Entry>, e: Entry)
    ensures PlanSlots(ps + [e]) == PlanSlots(ps) + [SlotFrom(EndOf(PlanSlots(ps)), e)]
  {
    assert (ps + [e])[..|ps + [e]| - 1] == ps;
  }

  lemma GraphNext(ps: seq<Entry>, slots: seq<Slot>, e: Entry, slot: Slot)
    requires |slots| == |ps|
    ensures PlanGraph(ps + [e], slots + [slot]) == PlanGraph(ps, slots) + EntryNodes(7 * |ps|, e, slot.stamp)
  {
    var n := |ps|;
    assert (ps + [e])[..n] == ps && (slots + [slot])[..n] == slots;
  }

  lemma FieldsNext(ps: seq<Entry>, slots: seq<Slot>, e: Entry, slot: Slot)
    requires |slots| == |ps|
    ensures PlanFields(ps + [e], slots + [slot])
            == PlanFields(ps, slots) + [FieldBuilder(slot.at, SizeOf(e), 7 * |ps| + 6)]
  {
  }

  /** The offset arithmetic of the vtable visit for one component, with masks. */
  method NextSlot(offset: nat, e: Entry) returns (slot: Slot)
    requires offset + 40 < Bytes.U64
    ensures slot == SlotFrom(offset, e)
  {
    Packets.MaskIsPadding(PrimType.U64, offset);
    var o := offset + Packets.MaskPadding(PrimType.U64, offset);
    var stamp := o;
    o := o + 8;
    Packets.MaskIsPadding(e.ty, o);
    o := o + Packets.MaskPadding(e.ty, o);
    slot := Slot(stamp, o, o + SizeOf(e));
  }

  lemma {:induction false} PlanEndsGrow(ps: seq<Entry>, i: nat)
    requires i <= |ps|
    ensures EndOf(PlanSlots(ps[..i])) <= EndOf(PlanSlots(ps))
  {
    if i < |ps| {
      PlanEndsGrow(ps[..|ps| - 1], i);
      assert ps[..|ps| - 1][..i] == ps[..i];
    } else {
      assert ps[..i] == ps;
    }
  }

  lemma {:induction false} PresentPrefix(es: seq<Entry>, i: nat)
    requires i <= |es|
    ensures Present(es[..i]) <= Present(es)
  {
    if i > 0 {
      assert es[..i][1..] == es[1..][..i - 1];
      PresentPrefix(es[1..], i - 1);
    }
  }

  /** Graph, fields and offset after visiting `i` components. */
  predicate Described(es: seq<Entry>, i: nat, g: Graph, fs: seq<FieldBuilder>, offset: nat)
    requires i <= |es|
  {
    var ps := Present(es[..i]);
    g == PlanGraph(ps, PlanSlots(ps)) && fs == PlanFields(ps, PlanSlots(ps)) && offset == EndOf(PlanSlots(ps))
  }

  lemma DescribeNext(es: seq<Entry>, i: nat, g: Graph, fs: seq<FieldBuilder>, offset: nat)
    requires i < |es| && Described(es, i, g, fs, offset)
    ensures if es[i].hasHead then
              var slot := SlotFrom(offset, es[i]);
              Described(es, i + 1, g + EntryNodes(|g|, es[i], slot.stamp),
                        fs + [FieldBuilder(slot.at, SizeOf(es[i]), |g| + 6)], slot.end)
            else Described(es, i + 1, g, fs, offset)
  {
    PresentSnoc(es, i);
    var ps := Present(es[..i]);
    if es[i].hasHead {
      SlotsNext(ps, es[i]);
      GraphNext(ps, PlanSlots(ps), es[i], SlotFrom(offset, es[i]));
      FieldsNext(ps, PlanSlots(ps), es[i], SlotFrom(offset, es[i]));
    } else {
      assert Present(es[..i + 1]) == ps;
    }
  }

  /** The visit that describes the table: a running offset, a field per component with data. */
  method DescribeTable(es: seq<Entry>) returns (g: Graph, fs: seq<FieldBuilder>)
    requires EndOf(PlanSlots(Present(es))) + 40 < Bytes.U64
    ensures var ps := Present(es);
            g == PlanGraph(ps, PlanSlots(ps)) && fs == PlanFields(ps, PlanSlots(ps))
  {
    g, fs := [], [];
    var offset, i := 0, 0;
    assert es[..0] == [];
    while i < |es|
      invariant 0 <= i <= |es|
      invariant Described(es, i, g, fs, offset)
    {
      DescribeNext(es, i, g, fs, offset);
      PresentPrefix(es, i);
      PlanEndsGrow(Present(es), |Present(es[..i])|);
      assert Present(es)[..|Present(es[..i])|] == Present(es[..i]);
      if es[i].hasHead {
        var slot := NextSlot(offset, es[i]);
        fs := fs + [FieldBuilder(slot.at, SizeOf(es[i]), |g| + 6)];
        g := g + EntryNodes(|g|, es[i], slot.stamp);
        offset := slot.end;
      }
      i := i + 1;
    }
    assert es[..|es|] == es;
  }

  lemma TwoEntries(a: Entry, b: Entry)
    requires a.hasHead && b.hasHead && a.nearest.None? && b.nearest.Some?
    ensures Present([a, b]) == [a, b] && Populated([a, b]) == [b]
    ensures PlanSlots([a, b])[0] == SlotFrom(0, a)
  {
    assert [a, b][1..] == [b] && [b][1..] == [];
    assert Present([b]) == [b] + Present([b][1..]) && Populated([b]) == [b] + Populated([b][1..]);
    assert [a, b][..1] == [a] && [a][..0] == [];
    assert PlanSlots([a]) == PlanSlots([a][..0]) + [SlotFrom(0, a)];
    assert PlanSlots([a, b]) == PlanSlots([a, b][..1]) + [SlotFrom(EndOf(PlanSlots([a, b][..1])), b)];
  }

  lemma OnlyBody(full: Entry, posing: Entry)
    requires EntryOk(posing) && full.nearest.Some? && posing == full.(id := posing.id)
    ensures AllFound([full]) && Placed(posing, SlotFrom(0, posing), Body([full]))
  {
    AppendLands([], posing);
    assert [full][..0] == [];
    assert Body([full]) == AppendEntry(Body([full][..0]), full);
  }

  /**
   The visits must agree: a component whose list has a node but no sample yet gets a field in
   the vtable and no bytes in the table, and the sample of the next component of the same type
   is then read as its own.
   */
  lemma EmptyNodeMisreads(full: Entry, posing: Entry)
    requires EntryOk(posing) && full.hasHead && full.nearest.Some? && SizeOf(full) < Bytes.U64 / 2
    requires posing == full.(id := posing.id)
    ensures var ps, qs := Present([posing.(nearest := None), full]), Populated([posing.(nearest := None), full]);
            var g, fs := PlanGraph(ps, PlanSlots(ps)), PlanFields(ps, PlanSlots(ps));
            && AllFound(qs) && GraphOk(g) && FieldsOk(g, fs) && |fs| == 2
            && EvalFields(g, fs, Some(Body(qs)))[0] == Ok(Expected(posing, PlanSlots(ps)[0].at))
  {
    var empty := posing.(nearest := None);
    TwoEntries(empty, full);
    var slots := PlanSlots([empty, full]);
    assert slots[0] == SlotFrom(0, posing);
    OnlyBody(full, posing);
    SameGraph([empty, full], [posing, full], slots);
    SlotReadsBack([posing, full], slots, 0, Body([full]));
  }

  /** A plan does not look at samples. */
  lemma {:induction false} SameGraph(es: seq<Entry>, es': seq<Entry>, slots: seq<Slot>)
    requires |es| == |es'| == |slots|
    requires forall i | 0 <= i < |es| :: es'[i] == es[i].(nearest := es'[i].nearest)
    ensures PlanGraph(es, slots) == PlanGraph(es', slots) && PlanFields(es, slots) == PlanFields(es', slots)
  {
    if es != [] {
      var n := |es| - 1;
      SameGraph(es[..n], es'[..n], slots[..n]);
      assert EntryNodes(7 * n, es'[n], slots[n].stamp) == EntryNodes(7 * n, es[n], slots[n].stamp);
      assert PlanGraph(es', slots) == PlanGraph(es'[..n], slots[..n]) + EntryNodes(7 * n, es'[n], slots[n].stamp);
    }
  }
}

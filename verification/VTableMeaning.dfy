/**
 What a vtable's builders mean, said without the interpreter: which bytes a node supplies, what is
 wrong with a node, and what the chain of decorations of a field adds up to.
 */
module VTableMeaning {
  import opened Bytes
  import opened VTables
  import opened VTableBuilder

  // ---------------------------------------------------------------- nodes

  /** The bytes that a node supplies: its own, or those of its range of the table. */
  function Leaf(node: Node, table: Option<seq<byte>>): Option<seq<byte>> {
    match node
    case BData(_, bytes) => Some(bytes)
    case BTable(offset, len) =>
      if table.Some? && offset + len <= |table.value| then Some(table.value[offset..offset + len]) else None
    case _ => None
  }

  /** A node that supplies one machine word. */
  predicate IsWord(node: Node, table: Option<seq<byte>>) {
    Leaf(node, table).Some? && |Leaf(node, table).value| == 8
  }

  /** The first of two faults. */
  function Or(first: Option<Error>, second: Option<Error>): Option<Error> {
    if first.Some? then first else second
  }

  function Unless(ok: bool, e: Error): Option<Error> {
    if ok then None else Some(e)
  }

  /** What is wrong with node `n`, in the order in which it is noticed. */
  function Fault(g: Graph, n: nat, table: Option<seq<byte>>): Option<Error>
    requires GraphOk(g) && n < |g|
    decreases n
  {
    assert NodeOk(g[n], n);
    match g[n]
    case BData(_, _) => None
    case BTable(offset, len) => Unless(table.Some? ==> offset + len <= |table.value|, BufferUnderflow)
    case BComponent(c) => Or(Fault(g, c, table), Unless(IsWord(g[c], table), InvalidOp))
    case BSchema(ty, dim, _) =>
      Or(Fault(g, ty, table),
      Or(Unless(IsWord(g[ty], table) && FromLe(Leaf(g[ty], table).value) < 11, InvalidOp),
      Or(Fault(g, dim, table),
      Or(Unless(Leaf(g[dim], table).Some?, InvalidOp),
      Or(Unless(if g[dim].BData? then g[dim].align % 8 == 0 else g[dim].BTable? ==> g[dim].offset % 8 == 0, Alignment),
         Unless(Leaf(g[dim], table).Some? && |Leaf(g[dim], table).value| % 8 == 0, BufferUnderflow))))))
    case BTimestamp(source, _) =>
      Or(Fault(g, source, table), Unless(Leaf(g[source], table).Some? ==> IsWord(g[source], table), OffsetOverflow))
    case BExt(_, data, _) => Or(Fault(g, data, table), Unless(Leaf(g[data], table).Some?, InvalidOp))
  }

  /** 64-bit words, by position. */
  function WordsOf(b: seq<byte>): (words: seq<nat>)
    ensures |words| == |b| / 8 && forall i | 0 <= i < |words| :: words[i] == FromLe(b[8 * i..8 * i + 8])
  {
    seq(|b| / 8, i requires 0 <= i < |b| / 8 => FromLe(b[8 * i..8 * i + 8]))
  }

  lemma {:induction false} WordsByPosition(b: seq<byte>)
    ensures Words(b) == WordsOf(b)
  {
    if |b| >= 8 {
      WordsByPosition(b[8..]);
      forall i | 0 < i < |b| / 8 ensures WordsOf(b)[i] == WordsOf(b[8..])[i - 1] {
        assert b[8..][8 * (i - 1)..8 * (i - 1) + 8] == b[8 * i..8 * i + 8];
      }
    }
  }

  /** Sizes of the primitive types in the order of their codes. */
  lemma PrimSizes()
    ensures PRIM_TYPES == [U8, U16, U32, PrimType.U64, I8, I16, I32, I64, Bool, F32, F64]
    ensures forall i | 0 <= i < 11 :: PrimSize(PRIM_TYPES[i]) == [1, 2, 4, 8, 1, 2, 4, 8, 1, 4, 8][i]
  {
  }

  /** The type and shape that a schema node without a fault gives. */
  function SchemaOf(g: Graph, n: nat, table: Option<seq<byte>>): (seq<nat>, PrimType)
    requires GraphOk(g) && n < |g| && g[n].BSchema? && Fault(g, n, table).None?
  {
    assert NodeOk(g[n], n);
    (WordsOf(Leaf(g[g[n].dim], table).value), PRIM_TYPES[FromLe(Leaf(g[g[n].ty], table).value)])
  }

  /** The timestamp that a timestamp node gives, if its source supplies bytes. */
  function StampOf(g: Graph, n: nat, table: Option<seq<byte>>): Option<Bytes.Timestamp>
    requires GraphOk(g) && n < |g| && g[n].BTimestamp?
  {
    assert NodeOk(g[n], n);
    if IsWord(g[g[n].source], table) then Some(TimestampFromLe(Leaf(g[g[n].source], table).value)) else None
  }

  /** What node `n`, having no fault, evaluates to. */
  function Meaning(g: Graph, n: nat, table: Option<seq<byte>>): RealizedOp
    requires GraphOk(g) && n < |g| && Fault(g, n, table).None?
  {
    assert NodeOk(g[n], n);
    match g[n]
    case BData(_, bytes) => RData(bytes)
    case BTable(offset, len) => RTable(Leaf(g[n], table), offset, offset + len)
    case BComponent(c) => RComponent(FromLe(Leaf(g[c], table).value))
    case BSchema(_, _, arg) => RSchema(SchemaOf(g, n, table).0, SchemaOf(g, n, table).1, arg)
    case BTimestamp(source, arg) =>
      RTimestamp(StampOf(g, n, table),
                 if g[source].BTable? then Some((g[source].offset, g[source].offset + g[source].len)) else None, arg)
    case BExt(id, data, arg) => RExt(id, Leaf(g[data], table).value, arg)
  }

  /** The bytes that a realized node shows are those of the node. */
  lemma {:induction false} SliceIsLeaf(g: Graph, n: nat, table: Option<seq<byte>>)
    requires GraphOk(g) && n < |g| && Eval(g, n, table).Ok?
    ensures AsSlice(Eval(g, n, table).value) == Leaf(g[n], table)
  {
  }

  lemma {:induction false} EvalIffNoFault(g: Graph, n: nat, table: Option<seq<byte>>)
    requires GraphOk(g) && n < |g|
    ensures Eval(g, n, table).Ok? <==> Fault(g, n, table).None?
    ensures Eval(g, n, table).Err? ==> Fault(g, n, table) == Some(Eval(g, n, table).error)
    decreases n, 0
  {
    assert NodeOk(g[n], n);
    match g[n]
    case BData(_, _) =>
    case BTable(_, _) =>
    case BComponent(c) => ChildFault(g, c, table);
    case BSchema(ty, dim, _) => ChildFault(g, ty, table); ChildFault(g, dim, table);
    case BTimestamp(source, _) => ChildFault(g, source, table);
    case BExt(_, data, _) => ChildFault(g, data, table);
  }

  lemma {:induction false} ChildFault(g: Graph, n: nat, table: Option<seq<byte>>)
    requires GraphOk(g) && n < |g|
    ensures Eval(g, n, table).Ok? <==> Fault(g, n, table).None?
    ensures Eval(g, n, table).Err? ==> Fault(g, n, table) == Some(Eval(g, n, table).error)
    ensures Eval(g, n, table).Ok? ==> AsSlice(Eval(g, n, table).value) == Leaf(g[n], table)
    decreases n, 1
  {
    EvalIffNoFault(g, n, table);
    if Eval(g, n, table).Ok? {
      SliceIsLeaf(g, n, table);
    }
  }

  /** The direct evaluation is faults and meanings. */
  lemma {:induction false} EvalMeans(g: Graph, n: nat, table: Option<seq<byte>>)
    requires GraphOk(g) && n < |g|
    ensures Eval(g, n, table) == (match Fault(g, n, table) case None => Ok(Meaning(g, n, table)) case Some(e) => Err(e))
  {
    assert NodeOk(g[n], n);
    EvalIffNoFault(g, n, table);
    if Eval(g, n, table).Ok? {
      match g[n]
      case BData(_, _) =>
      case BTable(_, _) =>
      case BComponent(c) => SliceIsLeaf(g, c, table);
      case BSchema(ty, dim, _) =>
        SliceIsLeaf(g, ty, table);
        SliceIsLeaf(g, dim, table);
        WordsByPosition(Leaf(g[dim], table).value);
      case BTimestamp(source, _) => SliceIsLeaf(g, source, table);
      case BExt(_, data, _) => SliceIsLeaf(g, data, table);
    }
  }

  // ---------------------------------------------------------------- fields

  /** A field's decorations, outermost first, down to the node that decorates nothing. */
  function Chain(g: Graph, n: nat): (ns: seq<nat>)
    requires GraphOk(g) && n < |g|
    ensures |ns| > 0 && ns[0] == n && InGraph(g, ns)
    decreases n
  {
    assert NodeOk(g[n], n);
    match g[n]
    case BSchema(_, _, arg) => [n] + Chain(g, arg)
    case BTimestamp(_, arg) => [n] + Chain(g, arg)
    case BExt(_, _, arg) => [n] + Chain(g, arg)
    case _ => [n]
  }

  predicate InGraph(g: Graph, ns: seq<nat>) {
    forall i | 0 <= i < |ns| :: ns[i] < |g|
  }

  /** The fault of the first faulty node of a chain. */
  function ChainFault(g: Graph, ns: seq<nat>, table: Option<seq<byte>>): Option<Error>
    requires GraphOk(g) && InGraph(g, ns)
  {
    if ns == [] then None else Or(Fault(g, ns[0], table), ChainFault(g, ns[1..], table))
  }

  /** Of the schemas of a chain the last one holds, the one nearest the component. */
  function LastSchema(g: Graph, ns: seq<nat>, table: Option<seq<byte>>): Option<(seq<nat>, PrimType)>
    requires GraphOk(g) && InGraph(g, ns) && ChainFault(g, ns, table).None?
  {
    if ns == [] then None
    else
      match LastSchema(g, ns[1..], table)
      case Some(schema) => Some(schema)
      case None => if g[ns[0]].BSchema? then Some(SchemaOf(g, ns[0], table)) else None
  }

  /** And likewise of the timestamps, even where that one gives none. */
  function LastStamp(g: Graph, ns: seq<nat>, table: Option<seq<byte>>): Option<Option<Bytes.Timestamp>>
    requires GraphOk(g) && InGraph(g, ns)
  {
    if ns == [] then None
    else
      match LastStamp(g, ns[1..], table)
      case Some(stamp) => Some(stamp)
      case None => if g[ns[0]].BTimestamp? then Some(StampOf(g, ns[0], table)) else None
  }

  /** What is seen of bytes from table offset `at` on: as many elements as the shape has, if they fit. */
  function Seen(buf: seq<byte>, at: nat, shape: seq<nat>, ty: PrimType): Result<View, Error> {
    var n := Product(shape) * PrimSize(ty);
    if !ProductsFit(shape) then Err(OffsetOverflow)
    else if n >= Bytes.U64 / 2 then Err(BufferUnderflow)
    else if at % PrimSize(ty) != 0 then Err(Alignment)
    else if n > |buf| then Err(BufferUnderflow)
    else if ty == Bool && exists i | 0 <= i < n :: buf[i] > 1 then Err(InvalidComponentData)
    else Ok(View(ty, shape, buf[..n]))
  }

  lemma ViewIsSeen(buf: seq<byte>, at: nat, shape: seq<nat>, ty: PrimType)
    ensures ViewOf(buf, at, shape, ty) == Seen(buf, at, shape, ty)
  {
    CountIsProduct(shape);
  }

  /** A component shown by one schema over its range of the table. */
  function Shown(
    componentId: nat, schema: Option<(seq<nat>, PrimType)>, stamp: Option<Bytes.Timestamp>,
    offset: nat, len: nat, table: Option<seq<byte>>): Result<RealizedField, Error>
  {
    if schema.None? then Err(SchemaNotFound)
    else
      var (shape, ty) := schema.value;
      if table.None? then Ok(RealizedField(componentId, shape, ty, offset, None, stamp))
      else if offset + len > |table.value| then Err(BufferUnderflow)
      else
        match Seen(table.value[offset..offset + len], offset, shape, ty)
        case Err(e) => Err(e)
        case Ok(view) => Ok(RealizedField(componentId, shape, ty, offset, Some(view), stamp))
  }

  lemma FinishShows(
    componentId: nat, schema: Option<(seq<nat>, PrimType)>, stamp: Option<Option<Bytes.Timestamp>>,
    offset: nat, len: nat, table: Option<seq<byte>>)
    ensures FinishField(componentId, schema, stamp, offset, len, table)
            == Shown(componentId, schema, if stamp.Some? then stamp.value else None, offset, len, table)
  {
    if schema.Some? && table.Some? && offset + len <= |table.value| {
      ViewIsSeen(table.value[offset..offset + len], offset, schema.value.0, schema.value.1);
    }
  }

  /** What is at the end of a chain. */
  function Ending(
    g: Graph, ns: seq<nat>, schema: Option<(seq<nat>, PrimType)>, stamp: Option<Option<Bytes.Timestamp>>,
    offset: nat, len: nat, table: Option<seq<byte>>): Result<RealizedField, Error>
    requires GraphOk(g) && ns != [] && InGraph(g, ns)
  {
    match ChainFault(g, ns, table)
    case Some(e) => Err(e)
    case None =>
      var last := ns[|ns| - 1];
      assert NodeOk(g[last], last);
      if !g[last].BComponent? then Err(InvalidOp)
      else
        match Leaf(g[g[last].componentId], table)
        case None => Err(InvalidOp)
        case Some(id) =>
          var stamp := match LastStamp(g, ns, table) case Some(t) => Some(t) case None => stamp;
          Shown(FromLe(id), match LastSchema(g, ns, table) case Some(s) => Some(s) case None => schema,
                if stamp.Some? then stamp.value else None, offset, len, table)
  }

  /** One decoration, or the end: what the rest of the chain comes to under what was collected. */
  lemma {:induction false} EndingStep(
    g: Graph, n: nat, rest: seq<nat>, schema: Option<(seq<nat>, PrimType)>, stamp: Option<Option<Bytes.Timestamp>>,
    offset: nat, len: nat, table: Option<seq<byte>>)
    requires GraphOk(g) && n < |g| && rest != [] && InGraph(g, rest)
    ensures var ns := [n] + rest;
            var schema' := if g[n].BSchema? && Fault(g, n, table).None? then Some(SchemaOf(g, n, table)) else schema;
            var stamp' := if g[n].BTimestamp? then Some(StampOf(g, n, table)) else stamp;
            Ending(g, ns, schema, stamp, offset, len, table) ==
              (match Fault(g, n, table)
               case Some(e) => Err(e)
               case None => Ending(g, rest, schema', stamp', offset, len, table))
  {
    var ns := [n] + rest;
    assert ns[1..] == rest && ns[|ns| - 1] == rest[|rest| - 1];
  }

  /** The interpreter's walk along a chain comes to what the chain adds up to. */
  lemma {:induction false} WalkIsEnding(
    g: Graph, n: nat, schema: Option<(seq<nat>, PrimType)>, stamp: Option<Option<Bytes.Timestamp>>,
    offset: nat, len: nat, table: Option<seq<byte>>)
    requires GraphOk(g) && n < |g|
    ensures EvalField(g, n, schema, stamp, offset, len, table)
            == Ending(g, Chain(g, n), schema, stamp, offset, len, table)
    decreases n
  {
    assert NodeOk(g[n], n);
    EvalMeans(g, n, table);
    match g[n]
    case BSchema(_, _, arg) =>
      EndingStep(g, n, Chain(g, arg), schema, stamp, offset, len, table);
      if Fault(g, n, table).None? {
        WalkIsEnding(g, arg, Some(SchemaOf(g, n, table)), stamp, offset, len, table);
      }
    case BTimestamp(_, arg) =>
      EndingStep(g, n, Chain(g, arg), schema, stamp, offset, len, table);
      WalkIsEnding(g, arg, schema, Some(StampOf(g, n, table)), offset, len, table);
    case BExt(_, _, arg) =>
      EndingStep(g, n, Chain(g, arg), schema, stamp, offset, len, table);
      WalkIsEnding(g, arg, schema, stamp, offset, len, table);
    case _ => LastNode(g, n, schema, stamp, offset, len, table);
  }

  lemma {:induction false} LastNode(
    g: Graph, n: nat, schema: Option<(seq<nat>, PrimType)>, stamp: Option<Option<Bytes.Timestamp>>,
    offset: nat, len: nat, table: Option<seq<byte>>)
    requires GraphOk(g) && n < |g| && (g[n].BData? || g[n].BTable? || g[n].BComponent?)
    ensures EvalField(g, n, schema, stamp, offset, len, table) == Ending(g, [n], schema, stamp, offset, len, table)
  {
    assert NodeOk(g[n], n);
    EvalMeans(g, n, table);
    var ns := [n];
    assert ns[1..] == [];
    assert ChainFault(g, ns[1..], table) == None && LastStamp(g, ns[1..], table) == None;
    if Fault(g, n, table).None? && g[n].BComponent? {
      assert LastSchema(g, ns[1..], table) == None;
      FinishShows(FromLe(Leaf(g[g[n].componentId], table).value), schema, stamp, offset, len, table);
    }
  }

  /**
   Each field of a compiled program realizes, against any table or none, to what its chain of builders
   adds up to: the component at its end, the schema and the timestamp nearest to it, and as many bytes
   of the field's range as the shape has elements; or to the first fault.
   */
  lemma CompiledFieldMeans(t: Target, g: Graph, fields: seq<FieldBuilder>, table: Option<seq<byte>>, k: nat)
    requires GraphOk(g) && DimsAligned(g) && FieldsOk(g, fields) && t.limit > 0
    requires Fits(t, Compile(t, g, fields).ops, Compile(t, g, fields).data) && k < |fields|
    ensures WellFounded(Compile(t, g, fields))
    ensures |RealizeFields(Compile(t, g, fields), table)| == |fields|
    ensures RealizeFields(Compile(t, g, fields), table)[k]
            == Ending(g, Chain(g, fields[k].arg), None, None, fields[k].offset, fields[k].len, table)
  {
    CompileCorrect(t, g, fields, table);
    WalkIsEnding(g, fields[k].arg, None, None, fields[k].offset, fields[k].len, table);
  }

  // ---------------------------------------------------------------- the sink

  /** What a sink was called with, and how it ended: once for each field up to the first that stops it. */
  predicate Fed(
    fields: seq<Result<RealizedField, Error>>, accepts: nat -> bool, i: nat, calls: seq<Sunk>, outcome: Outcome)
  {
    && |calls| <= |fields|
    && (forall k | 0 <= k < |calls| :: CalledWith(fields[k], calls[k]) && (accepts(i + k) || k == |calls| - 1))
    && var n := |calls|;
       && (outcome == SinkRefused <==> n > 0 && !accepts(i + n - 1))
       && (outcome == Done ==> n == |fields|)
       && (outcome.Failed? ==> n < |fields| && fields[n] == Err(outcome.error))
  }

  predicate CalledWith(field: Result<RealizedField, Error>, call: Sunk) {
    field.Ok? && field.value.view == Some(call.view)
    && call.componentId == field.value.componentId && call.timestamp == field.value.timestamp
  }

  /** The sink gets every field, in order, up to and with the first it refuses, or before the first that failed. */
  lemma {:induction false} SinkIsFed(fields: seq<Result<RealizedField, Error>>, accepts: nat -> bool, i: nat)
    requires forall k | 0 <= k < |fields| :: fields[k].Ok? ==> fields[k].value.view.Some?
    ensures Fed(fields, accepts, i, SinkAll(fields, accepts, i).0, SinkAll(fields, accepts, i).1)
  {
    if fields != [] && fields[0].Ok? && accepts(i) {
      SinkIsFed(fields[1..], accepts, i + 1);
      FedStep(fields, accepts, i, SinkAll(fields[1..], accepts, i + 1).0, SinkAll(fields[1..], accepts, i + 1).1);
    }
  }

  lemma FedStep(
    fields: seq<Result<RealizedField, Error>>, accepts: nat -> bool, i: nat, calls: seq<Sunk>, outcome: Outcome)
    requires fields != [] && fields[0].Ok? && fields[0].value.view.Some? && accepts(i)
    requires Fed(fields[1..], accepts, i + 1, calls, outcome)
    ensures var f := fields[0].value;
            Fed(fields, accepts, i, [Sunk(f.componentId, f.view.value, f.timestamp)] + calls, outcome)
  {
    var f := fields[0].value;
    var all := [Sunk(f.componentId, f.view.value, f.timestamp)] + calls;
    forall k | 0 <= k < |all| ensures CalledWith(fields[k], all[k]) && (accepts(i + k) || k == |all| - 1) {
      if k > 0 {
        assert CalledWith(fields[1..][k - 1], calls[k - 1]);
      }
    }
  }

  /** Applying a table feeds the sink every field realized against it, from its first call on. */
  lemma ApplyFeeds(vt: VTable, table: seq<byte>, accepts: nat -> bool)
    requires WellFounded(vt)
    ensures Fed(RealizeFields(vt, Some(table)), accepts, 0, Apply(vt, table, accepts).0, Apply(vt, table, accepts).1)
  {
    SinkIsFed(RealizeFields(vt, Some(table)), accepts, 0);
  }
}

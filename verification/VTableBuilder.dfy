/**
 The VTable builder: a compiler from a shared graph of operation builders to the flat
 program of `VTables`, and the proof that running the compiled program is the same as
 evaluating the builders directly.

 A builder node is immutable and holds its children by reference, so children exist before
 their parents; a graph is the sequence of nodes in order of creation, and a node's index is
 its identity (the address that keys the memo).
 */
module VTableBuilder {
  import opened Arithmetic
  import opened Bytes
  import opened VTables

  datatype Node =
    | BData(align: nat, bytes: seq<byte>)
    | BTable(offset: nat, len: nat)
    | BComponent(componentId: nat)
    | BSchema(ty: nat, dim: nat, arg: nat)
    | BTimestamp(source: nat, arg: nat)
    | BExt(id: PacketId, data: nat, arg: nat)

  type Graph = seq<Node>

  datatype FieldBuilder = FieldBuilder(offset: nat, len: nat, arg: nat)

  predicate NodeOk(node: Node, i: nat) {
    match node
    case BData(align, _) => align > 0
    case BTable(_, _) => true
    case BComponent(c) => c < i
    case BSchema(ty, dim, arg) => ty < i && dim < i && arg < i
    case BTimestamp(source, arg) => source < i && arg < i
    case BExt(_, data, arg) => data < i && arg < i
  }

  predicate GraphOk(g: Graph) {
    forall i | 0 <= i < |g| :: NodeOk(g[i], i)
  }

  /** `schema(..)` makes its dimensions from 64-bit words, hence with an alignment of eight. */
  predicate DimsAligned(g: Graph) {
    forall i | 0 <= i < |g| && g[i].BSchema? ::
      g[i].dim < |g| && g[g[i].dim].BData? ==> g[g[i].dim].align % 8 == 0
  }

  // ---------------------------------------------------------------- direct evaluation

  /** Whether a dimension node's bytes are word-aligned, going by the node alone. */
  predicate NodeWordAligned(node: Node) {
    match node
    case BData(align, _) => align % 8 == 0
    case BTable(offset, _) => offset % 8 == 0
    case _ => true
  }

  /** Evaluates a builder node; the `arg` of the result is a node. */
  function Eval(g: Graph, n: nat, table: Option<seq<byte>>): Result<RealizedOp, Error>
    requires GraphOk(g) && n < |g|
    decreases n
  {
    assert NodeOk(g[n], n);
    match g[n]
    case BData(_, data) => Ok(RData(data))
    case BTable(offset, len) => RealizeTable(offset, len, table)
    case BComponent(c) => RealizeComponent(Eval(g, c, table))
    case BSchema(ty, dim, arg) =>
      RealizeSchema(Eval(g, ty, table), Eval(g, dim, table), NodeWordAligned(g[dim]), arg)
    case BTimestamp(source, arg) => RealizeTimestamp(Eval(g, source, table), arg)
    case BExt(id, data, arg) => RealizeExt(id, Eval(g, data, table), arg)
  }

  /** The meaning of a field: follow the decorations from node `n` to its component. */
  function EvalField(
    g: Graph, n: nat, schema: Option<(seq<nat>, PrimType)>, timestamp: Option<Option<Bytes.Timestamp>>,
    offset: nat, len: nat, table: Option<seq<byte>>
  ): Result<RealizedField, Error>
    requires GraphOk(g) && n < |g|
    decreases n
  {
    assert NodeOk(g[n], n);
    match Eval(g, n, table)
    case Err(e) => Err(e)
    case Ok(r) =>
      match g[n]
      case BData(_, _) => Err(InvalidOp)
      case BTable(_, _) => Err(InvalidOp)
      case BComponent(_) => FinishField(r.componentId, schema, timestamp, offset, len, table)
      case BSchema(_, _, arg) => EvalField(g, arg, Some((r.dim, r.ty)), timestamp, offset, len, table)
      case BTimestamp(_, arg) => EvalField(g, arg, schema, Some(r.timestamp), offset, len, table)
      case BExt(_, _, arg) => EvalField(g, arg, schema, timestamp, offset, len, table)
  }

  predicate FieldsOk(g: Graph, fields: seq<FieldBuilder>) {
    forall k | 0 <= k < |fields| :: fields[k].arg < |g|
  }

  function EvalFields(g: Graph, fields: seq<FieldBuilder>, table: Option<seq<byte>>)
    : (fs: seq<Result<RealizedField, Error>>)
    requires GraphOk(g) && FieldsOk(g, fields)
    ensures |fs| == |fields|
    ensures forall k | 0 <= k < |fs| ::
              fs[k] == EvalField(g, fields[k].arg, None, None, fields[k].offset, fields[k].len, table)
  {
    seq(|fields|, k requires 0 <= k < |fields| =>
      EvalField(g, fields[k].arg, None, None, fields[k].offset, fields[k].len, table))
  }

  // ---------------------------------------------------------------- the compiler

  /** Width of the integers that hold offsets, lengths and references, and the order of `Ext`. */
  datatype Target = Target(limit: nat, extDataFirst: bool)

  const RUST := Target(0x1_0000_0000, false)
  const CPP := Target(0x1_0000, true)

  datatype Builder = Builder(ops: seq<Op>, data: seq<byte>, visited: map<nat, nat>)

  /** Appends the finished operation of node `n` and remembers its reference. */
  function Emit(t: Target, b: Builder, n: nat, op: Op): (Builder, nat)
    requires t.limit > 0
  {
    var r := |b.ops| % t.limit;
    (b.(ops := b.ops + [op], visited := b.visited[n := r]), r)
  }

  function Zeros(k: nat): (z: seq<byte>)
    ensures |z| == k
  {
    seq(k, i => 0)
  }

  /** The data section padded to a multiple of `align`. */
  function Padded(data: seq<byte>, align: nat): seq<byte>
    requires align > 0
  {
    data + Zeros(ModuloPadding(|data|, align))
  }

  function Visit(t: Target, g: Graph, b: Builder, n: nat): (Builder, nat)
    requires GraphOk(g) && n < |g| && t.limit > 0
    decreases n
  {
    if n in b.visited then (b, b.visited[n])
    else
      assert NodeOk(g[n], n);
      match g[n]
      case BData(align, data) =>
        var padded := Padded(b.data, align);
        Emit(t, b.(data := padded + data), n, Data(|padded| % t.limit, |data| % t.limit))
      case BTable(offset, len) => Emit(t, b, n, Table(offset, len))
      case BComponent(c) =>
        var (b1, c') := Visit(t, g, b, c);
        Emit(t, b1, n, Component(c'))
      case BSchema(ty, dim, arg) =>
        var (b1, ty') := Visit(t, g, b, ty);
        var (b2, dim') := Visit(t, g, b1, dim);
        var (b3, arg') := Visit(t, g, b2, arg);
        Emit(t, b3, n, Schema(ty', dim', arg'))
      case BTimestamp(source, arg) =>
        var (b1, source') := Visit(t, g, b, source);
        var (b2, arg') := Visit(t, g, b1, arg);
        Emit(t, b2, n, VTables.Timestamp(source', arg'))
      case BExt(id, data, arg) =>
        if t.extDataFirst then
          var (b1, data') := Visit(t, g, b, data);
          var (b2, arg') := Visit(t, g, b1, arg);
          Emit(t, b2, n, Ext(arg', id, data'))
        else
          var (b1, arg') := Visit(t, g, b, arg);
          var (b2, data') := Visit(t, g, b1, data);
          Emit(t, b2, n, Ext(arg', id, data'))
  }

  function CompileFields(t: Target, g: Graph, b: Builder, fields: seq<FieldBuilder>): (Builder, seq<Field>)
    requires GraphOk(g) && FieldsOk(g, fields) && t.limit > 0
    decreases |fields|
  {
    if fields == [] then (b, [])
    else
      var (b1, r) := Visit(t, g, b, fields[0].arg);
      var (b2, rest) := CompileFields(t, g, b1, fields[1..]);
      (b2, [Field(fields[0].offset, fields[0].len, r)] + rest)
  }

  function Compile(t: Target, g: Graph, fields: seq<FieldBuilder>): VTable
    requires GraphOk(g) && FieldsOk(g, fields) && t.limit > 0
  {
    var (b, fs) := CompileFields(t, g, Builder([], [], map[]), fields);
    VTable(b.ops, fs, b.data)
  }

  /** No offset, length or reference is truncated. */
  predicate Fits(t: Target, ops: seq<Op>, data: seq<byte>) {
    |ops| <= t.limit && |data| < t.limit
  }

  // ---------------------------------------------------------------- the compiler only appends

  predicate Extends(b: Builder, b': Builder) {
    && b.ops <= b'.ops
    && b.data <= b'.data
    && forall n | n in b.visited :: n in b'.visited && b'.visited[n] == b.visited[n]
  }

  lemma ExtendsTransitive(a: Builder, b: Builder, c: Builder)
    requires Extends(a, b) && Extends(b, c)
    ensures Extends(a, c)
  {
  }

  lemma EmitExtends(t: Target, b: Builder, n: nat, op: Op)
    requires t.limit > 0 && n !in b.visited
    ensures Extends(b, Emit(t, b, n, op).0)
  {
  }

  lemma {:induction false} VisitExtends(t: Target, g: Graph, b: Builder, n: nat)
    requires GraphOk(g) && n < |g| && t.limit > 0
    ensures var (b', r) := Visit(t, g, b, n);
            Extends(b, b') && n in b'.visited && b'.visited[n] == r
    ensures forall k | k in Visit(t, g, b, n).0.visited && k !in b.visited :: k <= n
    decreases n
  {
    if n !in b.visited {
      assert NodeOk(g[n], n);
      match g[n]
      case BData(_, _) =>
      case BTable(_, _) =>
      case BComponent(c) =>
        VisitExtends(t, g, b, c);
      case BSchema(ty, dim, arg) =>
        VisitExtends(t, g, b, ty);
        var b1 := Visit(t, g, b, ty).0;
        VisitExtends(t, g, b1, dim);
        var b2 := Visit(t, g, b1, dim).0;
        VisitExtends(t, g, b2, arg);
      case BTimestamp(source, arg) =>
        VisitExtends(t, g, b, source);
        VisitExtends(t, g, Visit(t, g, b, source).0, arg);
      case BExt(_, data, arg) =>
        VisitExtends(t, g, b, data);
        VisitExtends(t, g, Visit(t, g, b, data).0, arg);
        VisitExtends(t, g, b, arg);
        VisitExtends(t, g, Visit(t, g, b, arg).0, data);
    }
  }

  // ---------------------------------------------------------------- what the compiler leaves behind

  predicate RefBelow(b: Builder, n: nat, i: nat) {
    n in b.visited && b.visited[n] < i
  }

  /** Operation `i` says what node `node` says, with children replaced by their references. */
  predicate OpMirrors(node: Node, i: nat, b: Builder)
    requires i < |b.ops|
  {
    match node
    case BData(align, data) =>
      && b.ops[i].Data?
      && (align > 0 ==> b.ops[i].offset % align == 0)
      && Get(b.data, b.ops[i].offset, b.ops[i].offset + b.ops[i].len) == Some(data)
    case BTable(offset, len) => b.ops[i] == Table(offset, len)
    case BComponent(c) => RefBelow(b, c, i) && b.ops[i] == Component(b.visited[c])
    case BSchema(ty, dim, arg) =>
      && RefBelow(b, ty, i) && RefBelow(b, dim, i) && RefBelow(b, arg, i)
      && b.ops[i] == Schema(b.visited[ty], b.visited[dim], b.visited[arg])
    case BTimestamp(source, arg) =>
      && RefBelow(b, source, i) && RefBelow(b, arg, i)
      && b.ops[i] == VTables.Timestamp(b.visited[source], b.visited[arg])
    case BExt(id, data, arg) =>
      && RefBelow(b, data, i) && RefBelow(b, arg, i)
      && b.ops[i] == Ext(b.visited[arg], id, b.visited[data])
  }

  predicate Mirrors(g: Graph, b: Builder, n: nat) {
    && n in b.visited && n < |g|
    && b.visited[n] < |b.ops|
    && OpMirrors(g[n], b.visited[n], b)
  }

  predicate BuilderOk(g: Graph, b: Builder) {
    && (forall n | n in b.visited :: Mirrors(g, b, n))
    && (forall i | 0 <= i < |b.ops| :: RefsBelow(b.ops[i], i))
  }

  lemma MirrorsExtends(g: Graph, b: Builder, b': Builder, n: nat)
    requires Mirrors(g, b, n) && Extends(b, b')
    ensures Mirrors(g, b', n)
  {
    var i := b.visited[n];
    assert b'.ops[i] == b.ops[i];
    if g[n].BData? {
      var o := b.ops[i];
      assert b'.data[o.offset..o.offset + o.len] == b.data[o.offset..o.offset + o.len];
    }
  }

  /** Emitting a mirroring operation keeps the builder in order. */
  lemma EmitOk(t: Target, g: Graph, b: Builder, b0: Builder, n: nat, op: Op)
    requires BuilderOk(g, b0) && Extends(b0, b) && b.ops == b0.ops && b.visited == b0.visited
    requires n < |g| && n !in b.visited && |b.ops| < t.limit
    requires RefsBelow(op, |b.ops|)
    requires OpMirrors(g[n], |b.ops|, Emit(t, b, n, op).0)
    ensures BuilderOk(g, Emit(t, b, n, op).0)
  {
    var (b', r) := Emit(t, b, n, op);
    ModOf(|b.ops|, 0, t.limit, |b.ops|);
    forall k | k in b'.visited ensures Mirrors(g, b', k) {
      if k != n {
        assert Extends(b0, b');
        MirrorsExtends(g, b0, b', k);
      }
    }
  }

  lemma DataMirrors(t: Target, b: Builder, n: nat, align: nat, data: seq<byte>)
    requires align > 0 && |Padded(b.data, align)| + |data| < t.limit && |b.ops| < t.limit
    ensures var padded := Padded(b.data, align);
            var b1 := b.(data := padded + data);
            && Extends(b, b1)
            && OpMirrors(BData(align, data), |b.ops|,
                         Emit(t, b1, n, Data(|padded| % t.limit, |data| % t.limit)).0)
  {
    var padded := Padded(b.data, align);
    PaddingReachesMultiple(|b.data|, align);
    ModOf(|padded|, 0, t.limit, |padded|);
    ModOf(|data|, 0, t.limit, |data|);
    assert (padded + data)[|padded|..|padded| + |data|] == data;
  }

  /** The reference of a visited child stays below the next operation and survives later visits. */
  lemma ChildBelow(g: Graph, b: Builder, b': Builder, c: nat)
    requires BuilderOk(g, b) && c in b.visited && Extends(b, b')
    ensures c in b'.visited && b'.visited[c] == b.visited[c] && b'.visited[c] < |b'.ops|
  {
    assert Mirrors(g, b, c);
  }

  lemma {:induction false} VisitOk(t: Target, g: Graph, b: Builder, n: nat)
    requires GraphOk(g) && n < |g| && t.limit > 0
    requires BuilderOk(g, b)
    requires Fits(t, Visit(t, g, b, n).0.ops, Visit(t, g, b, n).0.data)
    ensures BuilderOk(g, Visit(t, g, b, n).0)
    decreases n
  {
    if n !in b.visited {
      assert NodeOk(g[n], n);
      VisitExtends(t, g, b, n);
      match g[n]
      case BData(align, data) =>
        DataMirrors(t, b, n, align, data);
        var padded := Padded(b.data, align);
        EmitOk(t, g, b.(data := padded + data), b, n, Data(|padded| % t.limit, |data| % t.limit));
      case BTable(offset, len) =>
        EmitOk(t, g, b, b, n, Table(offset, len));
      case BComponent(c) => VisitComponentOk(t, g, b, n, c);
      case BSchema(ty, dim, arg) => VisitSchemaOk(t, g, b, n, ty, dim, arg);
      case BTimestamp(source, arg) => VisitTimestampOk(t, g, b, n, source, arg);
      case BExt(id, data, arg) => VisitExtOk(t, g, b, n, id, data, arg);
    }
  }

  lemma VisitComponentOk(t: Target, g: Graph, b: Builder, n: nat, c: nat)
    requires GraphOk(g) && n < |g| && t.limit > 0 && BuilderOk(g, b) && n !in b.visited
    requires g[n] == BComponent(c) && c < n
    requires Fits(t, Visit(t, g, b, n).0.ops, Visit(t, g, b, n).0.data)
    ensures BuilderOk(g, Visit(t, g, b, n).0)
    decreases n, 0
  {
    var (b1, c') := Visit(t, g, b, c);
    VisitExtends(t, g, b, c);
    VisitOk(t, g, b, c);
    ChildBelow(g, b1, b1, c);
    EmitExtends(t, b1, n, Component(c'));
    EmitOk(t, g, b1, b1, n, Component(c'));
  }

  lemma VisitSchemaOk(t: Target, g: Graph, b: Builder, n: nat, ty: nat, dim: nat, arg: nat)
    requires GraphOk(g) && n < |g| && t.limit > 0 && BuilderOk(g, b) && n !in b.visited
    requires g[n] == BSchema(ty, dim, arg) && ty < n && dim < n && arg < n
    requires Fits(t, Visit(t, g, b, n).0.ops, Visit(t, g, b, n).0.data)
    ensures BuilderOk(g, Visit(t, g, b, n).0)
    decreases n, 0
  {
    var (b1, ty') := Visit(t, g, b, ty);
    var (b2, dim') := Visit(t, g, b1, dim);
    var (b3, arg') := Visit(t, g, b2, arg);
    VisitExtends(t, g, b, ty);
    VisitExtends(t, g, b1, dim);
    VisitExtends(t, g, b2, arg);
    VisitOk(t, g, b, ty);
    VisitOk(t, g, b1, dim);
    VisitOk(t, g, b2, arg);
    ExtendsTransitive(b1, b2, b3);
    ChildBelow(g, b1, b3, ty);
    ChildBelow(g, b2, b3, dim);
    ChildBelow(g, b3, b3, arg);
    EmitExtends(t, b3, n, Schema(ty', dim', arg'));
    EmitOk(t, g, b3, b3, n, Schema(ty', dim', arg'));
  }

  lemma VisitTimestampOk(t: Target, g: Graph, b: Builder, n: nat, source: nat, arg: nat)
    requires GraphOk(g) && n < |g| && t.limit > 0 && BuilderOk(g, b) && n !in b.visited
    requires g[n] == BTimestamp(source, arg) && source < n && arg < n
    requires Fits(t, Visit(t, g, b, n).0.ops, Visit(t, g, b, n).0.data)
    ensures BuilderOk(g, Visit(t, g, b, n).0)
    decreases n, 0
  {
    var (b1, source') := Visit(t, g, b, source);
    var (b2, arg') := Visit(t, g, b1, arg);
    VisitExtends(t, g, b, source);
    VisitExtends(t, g, b1, arg);
    VisitOk(t, g, b, source);
    VisitOk(t, g, b1, arg);
    ChildBelow(g, b1, b2, source);
    ChildBelow(g, b2, b2, arg);
    EmitExtends(t, b2, n, VTables.Timestamp(source', arg'));
    EmitOk(t, g, b2, b2, n, VTables.Timestamp(source', arg'));
  }

  lemma VisitExtOk(t: Target, g: Graph, b: Builder, n: nat, id: PacketId, data: nat, arg: nat)
    requires GraphOk(g) && n < |g| && t.limit > 0 && BuilderOk(g, b) && n !in b.visited
    requires g[n] == BExt(id, data, arg) && data < n && arg < n
    requires Fits(t, Visit(t, g, b, n).0.ops, Visit(t, g, b, n).0.data)
    ensures BuilderOk(g, Visit(t, g, b, n).0)
    decreases n, 0
  {
    var first, second := if t.extDataFirst then data else arg, if t.extDataFirst then arg else data;
    var b1 := Visit(t, g, b, first).0;
    var b2 := Visit(t, g, b1, second).0;
    VisitExtends(t, g, b, first);
    VisitExtends(t, g, b1, second);
    VisitOk(t, g, b, first);
    VisitOk(t, g, b1, second);
    ChildBelow(g, b1, b2, first);
    ChildBelow(g, b2, b2, second);
    var op := Ext(b2.visited[arg], id, b2.visited[data]);
    EmitExtends(t, b2, n, op);
    EmitOk(t, g, b2, b2, n, op);
  }

  lemma {:induction false} CompileFieldsOk(t: Target, g: Graph, b: Builder, fields: seq<FieldBuilder>)
    requires GraphOk(g) && FieldsOk(g, fields) && t.limit > 0
    requires BuilderOk(g, b)
    requires Fits(t, CompileFields(t, g, b, fields).0.ops, CompileFields(t, g, b, fields).0.data)
    ensures var (b', fs) := CompileFields(t, g, b, fields);
            && BuilderOk(g, b') && Extends(b, b') && |fs| == |fields|
            && forall k | 0 <= k < |fields| ::
                 && fields[k].arg in b'.visited
                 && fs[k] == Field(fields[k].offset, fields[k].len, b'.visited[fields[k].arg])
    decreases |fields|
  {
    if fields != [] {
      var b1 := Visit(t, g, b, fields[0].arg).0;
      VisitExtends(t, g, b, fields[0].arg);
      CompileFieldsExtends(t, g, b1, fields[1..]);
      VisitOk(t, g, b, fields[0].arg);
      CompileFieldsOk(t, g, b1, fields[1..]);
      var (b', rest) := CompileFields(t, g, b1, fields[1..]);
      forall k | 0 <= k < |fields|
        ensures fields[k].arg in b'.visited
        ensures CompileFields(t, g, b, fields).1[k] == Field(fields[k].offset, fields[k].len, b'.visited[fields[k].arg])
      {
        if k > 0 {
          assert fields[k] == fields[1..][k - 1];
        }
      }
    }
  }

  lemma {:induction false} CompileFieldsExtends(t: Target, g: Graph, b: Builder, fields: seq<FieldBuilder>)
    requires GraphOk(g) && FieldsOk(g, fields) && t.limit > 0
    ensures Extends(b, CompileFields(t, g, b, fields).0)
    decreases |fields|
  {
    if fields != [] {
      var b1 := Visit(t, g, b, fields[0].arg).0;
      VisitExtends(t, g, b, fields[0].arg);
      CompileFieldsExtends(t, g, b1, fields[1..]);
    }
  }

  // ---------------------------------------------------------------- running the compiled program

  /** The same result, with the node that remains to be followed replaced by its reference. */
  predicate SameResult(compiled: Result<RealizedOp, Error>, direct: Result<RealizedOp, Error>, b: Builder) {
    match direct
    case Ok(RSchema(dim, ty, arg)) => arg in b.visited && compiled == Ok(RSchema(dim, ty, b.visited[arg]))
    case Ok(RTimestamp(ts, range, arg)) => arg in b.visited && compiled == Ok(RTimestamp(ts, range, b.visited[arg]))
    case Ok(RExt(id, data, arg)) => arg in b.visited && compiled == Ok(RExt(id, data, b.visited[arg]))
    case _ => compiled == direct
  }

  lemma OffsetWordAligned(offset: nat, align: nat)
    requires align > 0 && align % 8 == 0 && offset % align == 0
    ensures offset % 8 == 0
  {
    var k, j := offset / align, align / 8;
    assert offset == k * align;
    assert align == j * 8;
    assert offset == (k * j) * 8;
  }

  lemma AlignmentMirrors(g: Graph, b: Builder, fs: seq<Field>, n: nat, dim: nat)
    requires GraphOk(g) && DimsAligned(g) && BuilderOk(g, b)
    requires n < |g| && g[n].BSchema? && g[n].dim == dim && dim in b.visited
    ensures dim < |g| && WordAligned(VTable(b.ops, fs, b.data), b.visited[dim]) == NodeWordAligned(g[dim])
  {
    assert Mirrors(g, b, dim);
    assert NodeOk(g[dim], dim);
    if g[dim].BData? {
      OffsetWordAligned(b.ops[b.visited[dim]].offset, g[dim].align);
    }
  }

  lemma BuilderWellFounded(g: Graph, b: Builder, fs: seq<Field>)
    requires BuilderOk(g, b)
    ensures WellFounded(VTable(b.ops, fs, b.data))
  {
    forall i | 0 <= i < |b.ops| ensures OpBackwards(b.ops[i], i, |b.ops|) {
      assert RefsBelow(b.ops[i], i);
    }
  }

  lemma {:induction false} RealizeMirrors(g: Graph, b: Builder, fs: seq<Field>, n: nat, table: Option<seq<byte>>)
    requires GraphOk(g) && DimsAligned(g) && BuilderOk(g, b) && n in b.visited
    ensures n < |g| && WellFounded(VTable(b.ops, fs, b.data))
    ensures SameResult(Realize(VTable(b.ops, fs, b.data), b.visited[n], table), Eval(g, n, table), b)
    decreases n
  {
    BuilderWellFounded(g, b, fs);
    assert Mirrors(g, b, n);
    assert NodeOk(g[n], n);
    match g[n]
    case BData(_, _) =>
    case BTable(_, _) =>
    case BComponent(c) =>
      RealizeMirrors(g, b, fs, c, table);
    case BSchema(ty, dim, arg) =>
      RealizeMirrors(g, b, fs, ty, table);
      RealizeMirrors(g, b, fs, dim, table);
      AlignmentMirrors(g, b, fs, n, dim);
    case BTimestamp(source, _) =>
      RealizeMirrors(g, b, fs, source, table);
    case BExt(_, data, _) =>
      RealizeMirrors(g, b, fs, data, table);
  }

  /** The kinds of result tell the kinds of node. */
  lemma EvalTellsNode(g: Graph, n: nat, table: Option<seq<byte>>)
    requires GraphOk(g) && n < |g| && Eval(g, n, table).Ok?
    ensures var res := Eval(g, n, table).value;
            && (res.RSchema? <==> g[n].BSchema?) && (res.RTimestamp? <==> g[n].BTimestamp?)
            && (res.RExt? <==> g[n].BExt?) && (res.RComponent? <==> g[n].BComponent?)
            && (res.RSchema? ==> res.arg == g[n].arg) && (res.RTimestamp? ==> res.arg == g[n].arg)
            && (res.RExt? ==> res.arg == g[n].arg)
            && (res.RSchema? || res.RTimestamp? || res.RExt? ==> res.arg < n)
  {
    assert NodeOk(g[n], n);
  }

  /** One decoration: if the rest of the field means the same, so does the field. */
  lemma {:induction false} SchemaMirrors(
    g: Graph, vt: VTable, n: nat, r: nat, arg: nat, arg': nat,
    schema: Option<(seq<nat>, PrimType)>, timestamp: Option<Option<Bytes.Timestamp>>,
    offset: nat, len: nat, table: Option<seq<byte>>, dim: seq<nat>, ty: PrimType)
    requires GraphOk(g) && WellFounded(vt) && n < |g| && arg < n
    requires Eval(g, n, table) == Ok(RSchema(dim, ty, arg)) && Realize(vt, r, table) == Ok(RSchema(dim, ty, arg'))
    requires FieldFrom(vt, arg', Some((dim, ty)), timestamp, offset, len, table)
             == EvalField(g, arg, Some((dim, ty)), timestamp, offset, len, table)
    ensures FieldFrom(vt, r, schema, timestamp, offset, len, table) == EvalField(g, n, schema, timestamp, offset, len, table)
  {
    EvalTellsNode(g, n, table);
  }

  lemma {:induction false} TimestampMirrors(
    g: Graph, vt: VTable, n: nat, r: nat, arg: nat, arg': nat,
    schema: Option<(seq<nat>, PrimType)>, timestamp: Option<Option<Bytes.Timestamp>>,
    offset: nat, len: nat, table: Option<seq<byte>>, ts: Option<Bytes.Timestamp>, range: Option<(nat, nat)>)
    requires GraphOk(g) && WellFounded(vt) && n < |g| && arg < n
    requires Eval(g, n, table) == Ok(RTimestamp(ts, range, arg)) && Realize(vt, r, table) == Ok(RTimestamp(ts, range, arg'))
    requires FieldFrom(vt, arg', schema, Some(ts), offset, len, table)
             == EvalField(g, arg, schema, Some(ts), offset, len, table)
    ensures FieldFrom(vt, r, schema, timestamp, offset, len, table) == EvalField(g, n, schema, timestamp, offset, len, table)
  {
    EvalTellsNode(g, n, table);
  }

  lemma {:induction false} ExtMirrors(
    g: Graph, vt: VTable, n: nat, r: nat, arg: nat, arg': nat,
    schema: Option<(seq<nat>, PrimType)>, timestamp: Option<Option<Bytes.Timestamp>>,
    offset: nat, len: nat, table: Option<seq<byte>>, id: PacketId, data: seq<byte>)
    requires GraphOk(g) && WellFounded(vt) && n < |g| && arg < n
    requires Eval(g, n, table) == Ok(RExt(id, data, arg)) && Realize(vt, r, table) == Ok(RExt(id, data, arg'))
    requires FieldFrom(vt, arg', schema, timestamp, offset, len, table)
             == EvalField(g, arg, schema, timestamp, offset, len, table)
    ensures FieldFrom(vt, r, schema, timestamp, offset, len, table) == EvalField(g, n, schema, timestamp, offset, len, table)
  {
    EvalTellsNode(g, n, table);
  }

  /** A field that ends here: at its component, or with an error. */
  lemma {:induction false} LastMirrors(
    g: Graph, vt: VTable, n: nat, r: nat,
    schema: Option<(seq<nat>, PrimType)>, timestamp: Option<Option<Bytes.Timestamp>>,
    offset: nat, len: nat, table: Option<seq<byte>>)
    requires GraphOk(g) && WellFounded(vt) && n < |g| && Realize(vt, r, table) == Eval(g, n, table)
    requires Eval(g, n, table).Ok? ==>
               var res := Eval(g, n, table).value; !res.RSchema? && !res.RTimestamp? && !res.RExt?
    ensures FieldFrom(vt, r, schema, timestamp, offset, len, table) == EvalField(g, n, schema, timestamp, offset, len, table)
  {
    if Eval(g, n, table).Ok? {
      EvalTellsNode(g, n, table);
    }
  }

  lemma {:induction false} FieldMirrors(
    g: Graph, b: Builder, fs: seq<Field>, n: nat,
    schema: Option<(seq<nat>, PrimType)>, timestamp: Option<Option<Bytes.Timestamp>>,
    offset: nat, len: nat, table: Option<seq<byte>>)
    requires GraphOk(g) && DimsAligned(g) && BuilderOk(g, b) && n in b.visited
    ensures n < |g| && WellFounded(VTable(b.ops, fs, b.data))
    ensures FieldFrom(VTable(b.ops, fs, b.data), b.visited[n], schema, timestamp, offset, len, table)
            == EvalField(g, n, schema, timestamp, offset, len, table)
    decreases n
  {
    RealizeMirrors(g, b, fs, n, table);
    var vt, r := VTable(b.ops, fs, b.data), b.visited[n];
    if Eval(g, n, table).Ok? {
      EvalTellsNode(g, n, table);
    }
    match Eval(g, n, table)
    case Ok(RSchema(dim, ty, arg)) =>
      FieldMirrors(g, b, fs, arg, Some((dim, ty)), timestamp, offset, len, table);
      SchemaMirrors(g, vt, n, r, arg, b.visited[arg], schema, timestamp, offset, len, table, dim, ty);
    case Ok(RTimestamp(ts, range, arg)) =>
      FieldMirrors(g, b, fs, arg, schema, Some(ts), offset, len, table);
      TimestampMirrors(g, vt, n, r, arg, b.visited[arg], schema, timestamp, offset, len, table, ts, range);
    case Ok(RExt(id, data, arg)) =>
      FieldMirrors(g, b, fs, arg, schema, timestamp, offset, len, table);
      ExtMirrors(g, vt, n, r, arg, b.visited[arg], schema, timestamp, offset, len, table, id, data);
    case _ =>
      LastMirrors(g, vt, n, r, schema, timestamp, offset, len, table);
  }

  // ---------------------------------------------------------------- compiler correctness

  /**
   Compiling any graph, with sharing, yields a program whose recursion ends, and realizing its
   fields gives the ids, types, shapes, bytes, timestamps and errors of the builders themselves.
   */
  lemma CompileCorrect(t: Target, g: Graph, fields: seq<FieldBuilder>, table: Option<seq<byte>>)
    requires GraphOk(g) && DimsAligned(g) && FieldsOk(g, fields) && t.limit > 0
    requires Fits(t, Compile(t, g, fields).ops, Compile(t, g, fields).data)
    ensures WellFounded(Compile(t, g, fields))
    ensures RealizeFields(Compile(t, g, fields), table) == EvalFields(g, fields, table)
  {
    var b0 := Builder([], [], map[]);
    CompileFieldsOk(t, g, b0, fields);
    var (b, fs) := CompileFields(t, g, b0, fields);
    var vt := Compile(t, g, fields);
    BuilderWellFounded(g, b, fs);
    forall k | 0 <= k < |fields|
      ensures RealizeFields(vt, table)[k] == EvalFields(g, fields, table)[k]
    {
      FieldMirrors(g, b, fs, fields[k].arg, None, None, fields[k].offset, fields[k].len, table);
    }
  }

  /** The Rust and the C++ builder agree wherever the narrower one does not truncate. */
  lemma RustAndCppAgree(g: Graph, fields: seq<FieldBuilder>, table: Option<seq<byte>>)
    requires GraphOk(g) && DimsAligned(g) && FieldsOk(g, fields)
    requires Fits(RUST, Compile(RUST, g, fields).ops, Compile(RUST, g, fields).data)
    requires Fits(CPP, Compile(CPP, g, fields).ops, Compile(CPP, g, fields).data)
    ensures WellFounded(Compile(RUST, g, fields)) && WellFounded(Compile(CPP, g, fields))
    ensures RealizeFields(Compile(RUST, g, fields), table) == RealizeFields(Compile(CPP, g, fields), table)
  {
    CompileCorrect(RUST, g, fields, table);
    CompileCorrect(CPP, g, fields, table);
  }

  /** Every data range of a compiled program is aligned as asked, in bounds, and holds its node's bytes. */
  lemma CompiledDataRanges(t: Target, g: Graph, fields: seq<FieldBuilder>, n: nat)
    requires GraphOk(g) && FieldsOk(g, fields) && t.limit > 0
    requires Fits(t, Compile(t, g, fields).ops, Compile(t, g, fields).data)
    requires n in CompileFields(t, g, Builder([], [], map[]), fields).0.visited && n < |g| && g[n].BData?
    ensures var vt := Compile(t, g, fields);
            exists i | 0 <= i < |vt.ops| ::
              && vt.ops[i].Data?
              && g[n].align > 0 && vt.ops[i].offset % g[n].align == 0
              && vt.ops[i].offset + vt.ops[i].len <= |vt.data|
              && vt.data[vt.ops[i].offset..vt.ops[i].offset + vt.ops[i].len] == g[n].bytes
  {
    CompileFieldsOk(t, g, Builder([], [], map[]), fields);
    var b := CompileFields(t, g, Builder([], [], map[]), fields).0;
    assert Mirrors(g, b, n);
    assert NodeOk(g[n], n);
    assert b.ops[b.visited[n]].Data?;
  }

  /** The width condition is needed: one data node realizes to its bytes iff its length fits. */
  lemma DataFitsIff(t: Target, bytes: seq<byte>, table: Option<seq<byte>>)
    requires t.limit > 0
    ensures var (b, r) := Visit(t, [BData(1, bytes)], Builder([], [], map[]), 0);
            var vt := VTable(b.ops, [], b.data);
            WellFounded(vt) && (Realize(vt, r, table) == Ok(RData(bytes)) <==> |bytes| < t.limit)
  {
    var g := [BData(1, bytes)];
    assert GraphOk(g);
    var (b, r) := Visit(t, g, Builder([], [], map[]), 0);
    assert Padded([], 1) == [];
    ModOf(0, 0, t.limit, 0);
    assert b.data == bytes && b.ops == [Data(0, |bytes| % t.limit)] && r == 0;
    if |bytes| < t.limit {
      ModOf(|bytes|, 0, t.limit, |bytes|);
      assert bytes[0..|bytes|] == bytes;
    }
  }

  // ---------------------------------------------------------------- how large a compiled program is

  /** Data bytes that one node can add: its own and the padding before them. */
  function NodeRoom(node: Node): nat {
    if node.BData? then |node.bytes| + (if node.align > 0 then node.align - 1 else 0) else 0
  }

  /** What the nodes below `k` among `visited` can add. */
  function RoomOf(g: Graph, visited: set<nat>, k: nat): nat
    requires k <= |g|
  {
    if k == 0 then 0 else RoomOf(g, visited, k - 1) + if k - 1 in visited then NodeRoom(g[k - 1]) else 0
  }

  function TotalRoom(g: Graph): nat {
    if g == [] then 0 else TotalRoom(g[..|g| - 1]) + NodeRoom(g[|g| - 1])
  }

  lemma {:induction false} RoomAdds(g: Graph, visited: set<nat>, n: nat, k: nat)
    requires k <= |g| && n < |g| && n !in visited
    ensures RoomOf(g, visited + {n}, k) == RoomOf(g, visited, k) + if n < k then NodeRoom(g[n]) else 0
  {
    if k > 0 {
      RoomAdds(g, visited, n, k - 1);
    }
  }

  lemma {:induction false} RoomAtMost(g: Graph, visited: set<nat>, k: nat)
    requires k <= |g|
    ensures RoomOf(g, visited, k) <= TotalRoom(g[..k])
  {
    if k > 0 {
      RoomAtMost(g, visited, k - 1);
      assert g[..k][..k - 1] == g[..k - 1];
    }
  }

  /** One operation for each node visited, and data within those nodes' room. */
  predicate Sized(g: Graph, b: Builder) {
    && (forall n | n in b.visited :: n < |g|)
    && |b.ops| == |b.visited|
    && |b.data| <= RoomOf(g, b.visited.Keys, |g|)
  }

  lemma EmitSized(t: Target, g: Graph, b: Builder, n: nat, data: seq<byte>, op: Op)
    requires t.limit > 0 && Sized(g, b) && n < |g| && n !in b.visited && |data| <= |b.data| + NodeRoom(g[n])
    ensures Sized(g, Emit(t, b.(data := data), n, op).0)
  {
    RoomAdds(g, b.visited.Keys, n, |g|);
    var b' := Emit(t, b.(data := data), n, op).0;
    assert b'.visited.Keys == b.visited.Keys + {n};
  }

  lemma {:induction false} VisitSized(t: Target, g: Graph, b: Builder, n: nat)
    requires GraphOk(g) && n < |g| && t.limit > 0 && Sized(g, b)
    ensures Sized(g, Visit(t, g, b, n).0)
    decreases n, 1
  {
    if n !in b.visited {
      assert NodeOk(g[n], n);
      match g[n]
      case BData(align, data) =>
        var padded := Padded(b.data, align);
        EmitSized(t, g, b, n, padded + data, Data(|padded| % t.limit, |data| % t.limit));
      case BTable(offset, len) => EmitSized(t, g, b, n, b.data, Table(offset, len));
      case BComponent(c) =>
        VisitChild(t, g, b, c, n);
        var (b1, c') := Visit(t, g, b, c);
        EmitSized(t, g, b1, n, b1.data, Component(c'));
      case BSchema(ty, dim, arg) =>
        VisitChild(t, g, b, ty, n);
        var (b1, ty') := Visit(t, g, b, ty);
        VisitChild(t, g, b1, dim, n);
        var (b2, dim') := Visit(t, g, b1, dim);
        VisitChild(t, g, b2, arg, n);
        var (b3, arg') := Visit(t, g, b2, arg);
        EmitSized(t, g, b3, n, b3.data, Schema(ty', dim', arg'));
      case BTimestamp(source, arg) =>
        VisitChild(t, g, b, source, n);
        var (b1, source') := Visit(t, g, b, source);
        VisitChild(t, g, b1, arg, n);
        var (b2, arg') := Visit(t, g, b1, arg);
        EmitSized(t, g, b2, n, b2.data, VTables.Timestamp(source', arg'));
      case BExt(id, data, arg) =>
        var x, y := if t.extDataFirst then data else arg, if t.extDataFirst then arg else data;
        VisitChild(t, g, b, x, n);
        var (b1, x') := Visit(t, g, b, x);
        VisitChild(t, g, b1, y, n);
        var (b2, y') := Visit(t, g, b1, y);
        EmitSized(t, g, b2, n, b2.data, if t.extDataFirst then Ext(y', id, x') else Ext(x', id, y'));
    }
  }

  /** A child's visit keeps the sizes in step and does not visit the parent. */
  lemma {:induction false} VisitChild(t: Target, g: Graph, b: Builder, c: nat, n: nat)
    requires GraphOk(g) && c < n < |g| && t.limit > 0 && Sized(g, b) && n !in b.visited
    ensures Sized(g, Visit(t, g, b, c).0) && n !in Visit(t, g, b, c).0.visited
    decreases n, 0
  {
    VisitSized(t, g, b, c);
    VisitExtends(t, g, b, c);
  }

  lemma {:induction false} CompileFieldsSized(t: Target, g: Graph, b: Builder, fields: seq<FieldBuilder>)
    requires GraphOk(g) && FieldsOk(g, fields) && t.limit > 0 && Sized(g, b)
    ensures Sized(g, CompileFields(t, g, b, fields).0)
    decreases |fields|
  {
    if fields != [] {
      VisitSized(t, g, b, fields[0].arg);
      CompileFieldsSized(t, g, Visit(t, g, b, fields[0].arg).0, fields[1..]);
    }
  }

  lemma {:induction false} FewVisited(visited: set<nat>, k: nat)
    requires forall n | n in visited :: n < k
    ensures |visited| <= k
  {
    if k > 0 {
      FewVisited(visited - {k - 1}, k - 1);
    } else {
      assert visited == {};
    }
  }

  /** A graph compiles to no more operations than nodes and no more data than its nodes' room. */
  lemma CompiledSize(t: Target, g: Graph, fields: seq<FieldBuilder>)
    requires GraphOk(g) && FieldsOk(g, fields) && t.limit > 0
    ensures |Compile(t, g, fields).ops| <= |g|
    ensures |Compile(t, g, fields).data| <= TotalRoom(g)
  {
    var b0 := Builder([], [], map[]);
    assert b0.visited.Keys == {};
    CompileFieldsSized(t, g, b0, fields);
    var b := CompileFields(t, g, b0, fields).0;
    assert |b.visited| == |b.visited.Keys|;
    FewVisited(b.visited.Keys, |g|);
    RoomAtMost(g, b.visited.Keys, |g|);
    assert g[..|g|] == g;
  }

  /** A limit on the graph alone: both builders are right on every graph this small. */
  lemma SmallGraphsCompile(g: Graph, fields: seq<FieldBuilder>, table: Option<seq<byte>>)
    requires GraphOk(g) && DimsAligned(g) && FieldsOk(g, fields)
    requires |g| <= 0x1_0000 && TotalRoom(g) < 0x1_0000
    ensures WellFounded(Compile(RUST, g, fields)) && WellFounded(Compile(CPP, g, fields))
    ensures RealizeFields(Compile(RUST, g, fields), table) == EvalFields(g, fields, table)
    ensures RealizeFields(Compile(CPP, g, fields), table) == EvalFields(g, fields, table)
  {
    CompiledSize(RUST, g, fields);
    CompiledSize(CPP, g, fields);
    CompileCorrect(RUST, g, fields, table);
    CompileCorrect(CPP, g, fields, table);
  }
}

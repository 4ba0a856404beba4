/**
 From a client's builders to the server's fields: what the C++ builder compiles can always be
 sent, and what arrives means what the builders mean.
 */
module VTableWire {
  import opened Bytes
  import opened Postcard
  import opened VTables
  import opened VTableBuilder
  import opened VTableMessage

  /** Table offsets and lengths are 16-bit arguments of the C++ builder functions. */
  predicate Narrow(g: Graph) {
    forall i | 0 <= i < |g| && g[i].BTable? :: g[i].offset < Bytes.U16 && g[i].len < Bytes.U16
  }

  predicate NarrowFields(fields: seq<FieldBuilder>) {
    forall k | 0 <= k < |fields| :: fields[k].offset < Bytes.U16 && fields[k].len < Bytes.U16
  }

  predicate NarrowOps(ops: seq<Op>) {
    forall i | 0 <= i < |ops| :: OpOk(ops[i])
  }

  predicate NarrowRefs(visited: map<nat, nat>) {
    forall n | n in visited :: visited[n] < Bytes.U16
  }

  predicate NarrowBuilder(b: Builder) {
    NarrowOps(b.ops) && NarrowRefs(b.visited)
  }

  lemma EmitNarrow(b: Builder, n: nat, op: Op)
    requires NarrowBuilder(b) && OpOk(op)
    ensures NarrowBuilder(Emit(CPP, b, n, op).0) && Emit(CPP, b, n, op).1 < Bytes.U16
  {
  }

  lemma {:induction false} VisitNarrow(g: Graph, b: Builder, n: nat)
    requires GraphOk(g) && Narrow(g) && n < |g| && NarrowBuilder(b)
    ensures NarrowBuilder(Visit(CPP, g, b, n).0) && Visit(CPP, g, b, n).1 < Bytes.U16
    decreases n
  {
    if n !in b.visited {
      assert NodeOk(g[n], n);
      match g[n]
      case BData(align, data) =>
        var padded := Padded(b.data, align);
        EmitNarrow(b.(data := padded + data), n, Data(|padded| % CPP.limit, |data| % CPP.limit));
      case BTable(offset, len) =>
        EmitNarrow(b, n, Table(offset, len));
      case BComponent(c) =>
        VisitNarrow(g, b, c);
        var (b1, c') := Visit(CPP, g, b, c);
        EmitNarrow(b1, n, Component(c'));
      case BSchema(ty, dim, arg) =>
        VisitNarrow(g, b, ty);
        var (b1, ty') := Visit(CPP, g, b, ty);
        VisitNarrow(g, b1, dim);
        var (b2, dim') := Visit(CPP, g, b1, dim);
        VisitNarrow(g, b2, arg);
        var (b3, arg') := Visit(CPP, g, b2, arg);
        EmitNarrow(b3, n, Schema(ty', dim', arg'));
      case BTimestamp(source, arg) =>
        VisitNarrow(g, b, source);
        var (b1, source') := Visit(CPP, g, b, source);
        VisitNarrow(g, b1, arg);
        var (b2, arg') := Visit(CPP, g, b1, arg);
        EmitNarrow(b2, n, VTables.Timestamp(source', arg'));
      case BExt(id, data, arg) =>
        VisitNarrow(g, b, data);
        var (b1, data') := Visit(CPP, g, b, data);
        VisitNarrow(g, b1, arg);
        var (b2, arg') := Visit(CPP, g, b1, arg);
        EmitNarrow(b2, n, Ext(arg', id, data'));
    }
  }

  predicate NarrowResult(fs: seq<Field>) {
    forall k | 0 <= k < |fs| :: FieldOk(fs[k])
  }

  lemma {:induction false} CompileFieldsNarrow(g: Graph, b: Builder, fields: seq<FieldBuilder>)
    requires GraphOk(g) && Narrow(g) && FieldsOk(g, fields) && NarrowFields(fields) && NarrowBuilder(b)
    ensures var (b', fs) := CompileFields(CPP, g, b, fields);
            NarrowBuilder(b') && NarrowResult(fs) && |fs| == |fields|
    decreases |fields|
  {
    if fields != [] {
      VisitNarrow(g, b, fields[0].arg);
      CompileFieldsNarrow(g, Visit(CPP, g, b, fields[0].arg).0, fields[1..]);
    }
  }

  lemma CompiledIsSendable(g: Graph, fields: seq<FieldBuilder>)
    requires GraphOk(g) && Narrow(g) && FieldsOk(g, fields) && NarrowFields(fields) && |fields| < Bytes.U64
    requires Fits(CPP, Compile(CPP, g, fields).ops, Compile(CPP, g, fields).data)
    ensures MessageOk(Compile(CPP, g, fields))
  {
    CompileFieldsNarrow(g, Builder([], [], map[]), fields);
  }

  /**
   The vtable a C++ client builds, encodes and sends is decoded without error, and realizing the
   decoded fields against any table gives what the client's builders mean.
   */
  lemma SentVTableKeepsMeaning(
    g: Graph, fields: seq<FieldBuilder>, table: Option<seq<byte>>, rest: seq<byte>, junk: Field, junkByte: byte)
    requires GraphOk(g) && DimsAligned(g) && Narrow(g)
    requires FieldsOk(g, fields) && NarrowFields(fields) && |fields| < Bytes.U64
    requires Fits(CPP, Compile(CPP, g, fields).ops, Compile(CPP, g, fields).data)
    ensures MessageOk(Compile(CPP, g, fields))
    ensures var (err, received, left) := DecodeMessage(MessageBytes(Compile(CPP, g, fields)) + rest, junk, junkByte);
            && err == Success && left == rest && WellFounded(received)
            && RealizeFields(received, table) == EvalFields(g, fields, table)
  {
    CompiledIsSendable(g, fields);
    MessageRoundTrip(Compile(CPP, g, fields), rest, junk, junkByte);
    CompileCorrect(CPP, g, fields, table);
  }
}

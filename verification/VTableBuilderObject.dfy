/**
 The builder as the object that both implementations update: vectors that grow and a memo
 keyed by node identity. Each method is proved to compute the compiler of `VTableBuilder`.
 */
module VTableBuilderObject {
  import opened Bytes
  import opened VTables
  import opened VTableBuilder

  class BuilderObject {
    const target: Target
    var ops: seq<Op>
    var data: seq<byte>
    var fields: seq<Field>
    var visited: map<nat, nat>

    ghost function Abs(): Builder
      reads this
    {
      Builder(ops, data, visited)
    }

    constructor (target: Target)
      ensures this.target == target
      ensures Abs() == Builder([], [], map[]) && fields == []
    {
      this.target := target;
      ops, data, fields, visited := [], [], [], map[];
    }

    /** Pushes zeros up to a multiple of `align`. */
    method Pad(align: nat)
      requires align > 0
      modifies this`data
      ensures data == Padded(old(data), align)
    {
      var padding := (align - |data| % align) % align;
      var i := 0;
      while i < padding
        invariant 0 <= i <= padding
        invariant data == old(data) + Zeros(i)
      {
        data := data + [0];
        i := i + 1;
      }
    }

    /** Appends an operation and remembers it as the compiled form of node `n`. */
    method Push(n: nat, op: Op) returns (r: nat)
      requires target.limit > 0
      modifies this`ops, this`visited
      ensures (Abs(), r) == Emit(target, old(Abs()), n, op)
    {
      r := |ops| % target.limit;
      ops := ops + [op];
      visited := visited[n := r];
    }

    method Visit(g: Graph, n: nat) returns (r: nat)
      requires GraphOk(g) && n < |g| && target.limit > 0
      modifies this`ops, this`data, this`visited
      ensures (Abs(), r) == VTableBuilder.Visit(target, g, old(Abs()), n)
      decreases n
    {
      if n in visited {
        return visited[n];
      }
      assert NodeOk(g[n], n);
      var op;
      match g[n] {
        case BData(align, bytes) =>
          Pad(align);
          op := Data(|data| % target.limit, |bytes| % target.limit);
          data := data + bytes;
        case BTable(offset, len) =>
          op := Table(offset, len);
        case BComponent(componentId) =>
          var c := Visit(g, componentId);
          op := Component(c);
        case BSchema(ty, dim, arg) =>
          var t := Visit(g, ty);
          var d := Visit(g, dim);
          var a := Visit(g, arg);
          op := Schema(t, d, a);
        case BTimestamp(source, arg) =>
          var s := Visit(g, source);
          var a := Visit(g, arg);
          op := VTables.Timestamp(s, a);
        case BExt(id, child, arg) =>
          var d, a;
          if target.extDataFirst {
            d := Visit(g, child);
            a := Visit(g, arg);
          } else {
            a := Visit(g, arg);
            d := Visit(g, child);
          }
          op := Ext(a, id, d);
      }
      r := Push(n, op);
    }

    method PushField(g: Graph, f: FieldBuilder)
      requires GraphOk(g) && f.arg < |g| && target.limit > 0
      modifies this
      ensures Abs() == VTableBuilder.Visit(target, g, old(Abs()), f.arg).0
      ensures fields == old(fields) + [Field(f.offset, f.len, VTableBuilder.Visit(target, g, old(Abs()), f.arg).1)]
    {
      var r := Visit(g, f.arg);
      fields := fields + [Field(f.offset, f.len, r)];
    }
  }

  lemma {:induction false} CompileFieldsSnoc(t: Target, g: Graph, b: Builder, fs: seq<FieldBuilder>, f: FieldBuilder)
    requires GraphOk(g) && FieldsOk(g, fs) && f.arg < |g| && t.limit > 0
    ensures FieldsOk(g, fs + [f])
    ensures var (b1, out) := CompileFields(t, g, b, fs);
            var (b2, r) := Visit(t, g, b1, f.arg);
            CompileFields(t, g, b, fs + [f]) == (b2, out + [Field(f.offset, f.len, r)])
    decreases |fs|
  {
    if fs == [] {
      assert fs + [f] == [f] && [f][1..] == [];
      var (b2, r) := Visit(t, g, b, f.arg);
      assert CompileFields(t, g, b2, []) == (b2, []);
      assert [Field(f.offset, f.len, r)] + [] == [] + [Field(f.offset, f.len, r)];
    } else {
      assert (fs + [f])[1..] == fs[1..] + [f];
      var (b0, r0) := Visit(t, g, b, fs[0].arg);
      CompileFieldsSnoc(t, g, b0, fs[1..], f);
      var (b1, rest) := CompileFields(t, g, b0, fs[1..]);
      var last := Field(f.offset, f.len, Visit(t, g, b1, f.arg).1);
      var first := Field(fs[0].offset, fs[0].len, r0);
      assert [first] + (rest + [last]) == [first] + rest + [last];
      assert (fs + [f])[0] == fs[0];
    }
  }

  /** `vtable(fields)`: one builder, one pass over the fields. */
  method BuildVTable(target: Target, g: Graph, fs: seq<FieldBuilder>) returns (vt: VTable)
    requires GraphOk(g) && FieldsOk(g, fs) && target.limit > 0
    ensures vt == Compile(target, g, fs)
  {
    var builder := new BuilderObject(target);
    ghost var b0 := builder.Abs();
    var i := 0;
    while i < |fs|
      invariant 0 <= i <= |fs|
      invariant FieldsOk(g, fs[..i])
      invariant (builder.Abs(), builder.fields) == CompileFields(target, g, b0, fs[..i])
    {
      CompileFieldsSnoc(target, g, b0, fs[..i], fs[i]);
      assert fs[..i + 1] == fs[..i] + [fs[i]];
      builder.PushField(g, fs[i]);
      i := i + 1;
    }
    assert fs[..|fs|] == fs;
    vt := VTable(builder.ops, builder.fields, builder.data);
  }
}

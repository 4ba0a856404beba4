/**
 VTables: the flat table-layout program (`ops`, `data`, `fields`) and its interpreter.
 */
module VTables {
  import opened Bytes

  datatype PrimType = U8 | U16 | U32 | U64 | I8 | I16 | I32 | I64 | Bool | F32 | F64

  const PRIM_TYPES: seq<PrimType> := [U8, U16, U32, PrimType.U64, I8, I16, I32, I64, Bool, F32, F64]

  function PrimSize(ty: PrimType): (n: nat)
    ensures n in {1, 2, 4, 8}
  {
    match ty
    case U8 | I8 | Bool => 1
    case U16 | I16 => 2
    case U32 | I32 | F32 => 4
    case U64 | I64 | F64 => 8
  }

  /** On the supported targets every primitive is aligned to its size. */
  function PrimAlign(ty: PrimType): nat {
    PrimSize(ty)
  }

  type PacketId = (byte, byte)

  datatype Op =
    | Data(offset: nat, len: nat)
    | Table(offset: nat, len: nat)
    | NoOp
    | Component(componentId: nat)
    | Schema(ty: nat, dim: nat, arg: nat)
    | Timestamp(source: nat, arg: nat)
    | Ext(arg: nat, id: PacketId, data: nat)

  datatype Field = Field(offset: nat, len: nat, arg: nat)

  datatype VTable = VTable(ops: seq<Op>, fields: seq<Field>, data: seq<byte>)

  datatype Error =
    | BufferUnderflow
    | BufferOverflow
    | OffsetOverflow
    | Alignment
    | InvalidComponentData
    | OpRefNotFound
    | InvalidOp
    | SchemaNotFound

  /** An operation evaluated against a table; `arg` is the operation it decorates. */
  datatype RealizedOp =
    | RData(bytes: seq<byte>)
    | RTable(slice: Option<seq<byte>>, start: nat, end: nat)
    | RComponent(componentId: nat)
    | RSchema(dim: seq<nat>, ty: PrimType, arg: nat)
    | RTimestamp(timestamp: Option<Bytes.Timestamp>, range: Option<(nat, nat)>, arg: nat)
    | RExt(id: PacketId, data: seq<byte>, arg: nat)
    | RNone

  datatype View = View(ty: PrimType, shape: seq<nat>, bytes: seq<byte>)

  datatype RealizedField = RealizedField(
    componentId: nat,
    shape: seq<nat>,
    ty: PrimType,
    offset: nat,
    view: Option<View>,
    timestamp: Option<Bytes.Timestamp>)

  // ---------------------------------------------------------------- reading bytes

  function Get(buf: seq<byte>, start: nat, end: nat): Option<seq<byte>> {
    if start <= end <= |buf| then Some(buf[start..end]) else None
  }

  function AsSlice(r: RealizedOp): Option<seq<byte>> {
    match r
    case RData(bytes) => Some(bytes)
    case RTable(slice, _, _) => slice
    case _ => None
  }

  function AsComponentId(r: RealizedOp): Option<nat> {
    match AsSlice(r)
    case Some(b) => if |b| == 8 then Some(FromLe(b)) else None
    case None => None
  }

  function AsPrimType(r: RealizedOp): Option<PrimType> {
    match AsSlice(r)
    case Some(b) => if |b| == 8 && FromLe(b) < |PRIM_TYPES| then Some(PRIM_TYPES[FromLe(b)]) else None
    case None => None
  }

  function AsTableRange(r: RealizedOp): Option<(nat, nat)> {
    if r.RTable? then Some((r.start, r.end)) else None
  }

  /** Reads a slice of 64-bit words. */
  function Words(b: seq<byte>): seq<nat> {
    if |b| < 8 then [] else [FromLe(b[..8])] + Words(b[8..])
  }

  /** Casts bytes to 64-bit dimensions; `aligned` says whether their address is. */
  function CastDims(b: seq<byte>, aligned: bool): Result<seq<nat>, Error> {
    if !aligned then Err(Alignment)
    else if |b| % 8 != 0 then Err(BufferUnderflow)
    else Ok(Words(b))
  }

  /** Number of elements, by checked multiplication from the left. */
  function ElementCount(shape: seq<nat>, acc: nat): Option<nat> {
    if shape == [] then Some(acc)
    else if acc * shape[0] >= Bytes.U64 then None
    else ElementCount(shape[1..], acc * shape[0])
  }

  /** A typed view of the first elements of `buf`, which starts at table offset `at`. */
  function ViewOf(buf: seq<byte>, at: nat, shape: seq<nat>, ty: PrimType): Result<View, Error> {
    match ElementCount(shape, 1)
    case None => Err(OffsetOverflow)
    case Some(n) =>
      var size := n * PrimSize(ty);
      if size >= Bytes.U64 / 2 then Err(BufferUnderflow)
      else if at % PrimAlign(ty) != 0 then Err(Alignment)
      else if size > |buf| then Err(BufferUnderflow)
      else if ty == Bool && exists i | 0 <= i < size :: buf[i] > 1 then Err(InvalidComponentData)
      else Ok(View(ty, shape, buf[..size]))
  }

  // ---------------------------------------------------------------- what a view holds

  /** The product of all dimensions. */
  function Product(shape: seq<nat>): nat {
    if shape == [] then 1 else Product(shape[..|shape| - 1]) * shape[|shape| - 1]
  }

  /** No product of leading dimensions overflows a machine word. */
  predicate ProductsFit(shape: seq<nat>) {
    forall k | 0 <= k <= |shape| :: Product(shape[..k]) < Bytes.U64
  }

  lemma {:induction false} CountFrom(shape: seq<nat>, k: nat)
    requires k <= |shape| && forall i | 0 <= i <= k :: Product(shape[..i]) < Bytes.U64
    ensures ElementCount(shape[k..], Product(shape[..k]))
            == if ProductsFit(shape) then Some(Product(shape)) else None
    decreases |shape| - k
  {
    if k == |shape| {
      assert shape[..k] == shape && shape[k..] == [];
    } else {
      assert shape[..k + 1][..k] == shape[..k] && shape[k..][1..] == shape[k + 1..];
      assert Product(shape[..k + 1]) == Product(shape[..k]) * shape[k];
      if Product(shape[..k + 1]) < Bytes.U64 {
        CountFrom(shape, k + 1);
      }
    }
  }

  /** The checked multiplication gives the product of the dimensions, or fails where a partial one overflows. */
  lemma CountIsProduct(shape: seq<nat>)
    ensures ElementCount(shape, 1) == if ProductsFit(shape) then Some(Product(shape)) else None
  {
    assert shape[..0] == [] && shape[0..] == shape;
    CountFrom(shape, 0);
  }

  /** Exactly when there is a view. */
  predicate Viewable(buf: seq<byte>, at: nat, shape: seq<nat>, ty: PrimType) {
    && ProductsFit(shape)
    && Product(shape) * PrimSize(ty) < Bytes.U64 / 2
    && Product(shape) * PrimSize(ty) <= |buf|
    && at % PrimSize(ty) == 0
    && (ty == Bool ==> forall i | 0 <= i < Product(shape) :: i < |buf| ==> buf[i] <= 1)
  }

  /** A view holds as many bytes as its elements take, from the front of the field's. */
  lemma ViewExact(buf: seq<byte>, at: nat, shape: seq<nat>, ty: PrimType)
    ensures ViewOf(buf, at, shape, ty).Ok? <==> Viewable(buf, at, shape, ty)
    ensures ViewOf(buf, at, shape, ty).Ok? ==>
              var view := ViewOf(buf, at, shape, ty).value;
              && view.ty == ty && view.shape == shape && view.bytes <= buf
              && |view.bytes| == Product(shape) * PrimSize(ty)
    ensures ViewOf(buf, at, shape, ty).Err? ==>
              ViewOf(buf, at, shape, ty).error ==
                if !ProductsFit(shape) then OffsetOverflow
                else if Product(shape) * PrimSize(ty) >= Bytes.U64 / 2 then BufferUnderflow
                else if at % PrimSize(ty) != 0 then Alignment
                else if Product(shape) * PrimSize(ty) > |buf| then BufferUnderflow
                else InvalidComponentData
  {
    CountIsProduct(shape);
  }

  // ---------------------------------------------------------------- what each kind of op does

  function RealizeTable(offset: nat, len: nat, table: Option<seq<byte>>): Result<RealizedOp, Error> {
    match table
    case None => Ok(RTable(None, offset, offset + len))
    case Some(t) =>
      match Get(t, offset, offset + len)
      case None => Err(BufferUnderflow)
      case Some(s) => Ok(RTable(Some(s), offset, offset + len))
  }

  function RealizeComponent(id: Result<RealizedOp, Error>): Result<RealizedOp, Error> {
    match id
    case Err(e) => Err(e)
    case Ok(r) =>
      match AsComponentId(r)
      case None => Err(InvalidOp)
      case Some(c) => Ok(RComponent(c))
  }

  function RealizeSchema(
    ty: Result<RealizedOp, Error>, dim: Result<RealizedOp, Error>, aligned: bool, arg: nat
  ): Result<RealizedOp, Error> {
    match ty
    case Err(e) => Err(e)
    case Ok(t) =>
      match AsPrimType(t)
      case None => Err(InvalidOp)
      case Some(p) =>
        match dim
        case Err(e) => Err(e)
        case Ok(d) =>
          match AsSlice(d)
          case None => Err(InvalidOp)
          case Some(b) =>
            match CastDims(b, aligned)
            case Err(e) => Err(e)
            case Ok(words) => Ok(RSchema(words, p, arg))
  }

  function RealizeTimestamp(source: Result<RealizedOp, Error>, arg: nat): Result<RealizedOp, Error> {
    match source
    case Err(e) => Err(e)
    case Ok(r) =>
      match AsSlice(r)
      case None => Ok(RTimestamp(None, AsTableRange(r), arg))
      case Some(b) =>
        if |b| != 8 then Err(OffsetOverflow)
        else Ok(RTimestamp(Some(TimestampFromLe(b)), AsTableRange(r), arg))
  }

  function RealizeExt(id: PacketId, data: Result<RealizedOp, Error>, arg: nat): Result<RealizedOp, Error> {
    match data
    case Err(e) => Err(e)
    case Ok(r) =>
      match AsSlice(r)
      case None => Err(InvalidOp)
      case Some(b) => Ok(RExt(id, b, arg))
  }

  /** The end of a field's chain of decorations: its component with the collected schema. */
  function FinishField(
    componentId: nat, schema: Option<(seq<nat>, PrimType)>, timestamp: Option<Option<Bytes.Timestamp>>,
    offset: nat, len: nat, table: Option<seq<byte>>
  ): Result<RealizedField, Error> {
    match schema
    case None => Err(SchemaNotFound)
    case Some((shape, ty)) =>
      var ts := match timestamp case Some(t) => t case None => None;
      match table
      case None => Ok(RealizedField(componentId, shape, ty, offset, None, ts))
      case Some(t) =>
        match Get(t, offset, offset + len)
        case None => Err(BufferUnderflow)
        case Some(buf) =>
          match ViewOf(buf, offset, shape, ty)
          case Err(e) => Err(e)
          case Ok(view) => Ok(RealizedField(componentId, shape, ty, offset, Some(view), ts))
  }

  // ---------------------------------------------------------------- the interpreter

  /** Every reference of operation `i` is to an earlier operation, or to none at all. */
  predicate OpBackwards(op: Op, i: nat, n: nat) {
    match op
    case Data(_, _) => true
    case Table(_, _) => true
    case NoOp => true
    case Component(c) => c < i || c >= n
    case Schema(ty, dim, arg) => (ty < i || ty >= n) && (dim < i || dim >= n) && (arg < i || arg >= n)
    case Timestamp(source, arg) => (source < i || source >= n) && (arg < i || arg >= n)
    case Ext(arg, _, data) => (arg < i || arg >= n) && (data < i || data >= n)
  }

  /** Every reference of an operation is below `i`. */
  predicate RefsBelow(op: Op, i: nat) {
    match op
    case Data(_, _) => true
    case Table(_, _) => true
    case NoOp => true
    case Component(c) => c < i
    case Schema(ty, dim, arg) => ty < i && dim < i && arg < i
    case Timestamp(source, arg) => source < i && arg < i
    case Ext(arg, _, data) => arg < i && data < i
  }

  /** The programs on which the interpreter's recursion ends. */
  predicate WellFounded(vt: VTable) {
    forall i | 0 <= i < |vt.ops| :: OpBackwards(vt.ops[i], i, |vt.ops|)
  }

  function Rank(vt: VTable, r: nat): nat {
    if r < |vt.ops| then r + 1 else 0
  }

  /** Whether the bytes of an operation start at a multiple of eight, both sections being aligned. */
  predicate WordAligned(vt: VTable, r: nat) {
    r < |vt.ops| && (vt.ops[r].Data? || vt.ops[r].Table?) ==> vt.ops[r].offset % 8 == 0
  }

  function Realize(vt: VTable, r: nat, table: Option<seq<byte>>): (res: Result<RealizedOp, Error>)
    requires WellFounded(vt)
    decreases Rank(vt, r)
    ensures r >= |vt.ops| ==> res == Err(OpRefNotFound)
    ensures res.Ok? && (res.value.RSchema? || res.value.RTimestamp? || res.value.RExt?) ==>
              Rank(vt, res.value.arg) < Rank(vt, r)
  {
    if r >= |vt.ops| then Err(OpRefNotFound)
    else
      assert OpBackwards(vt.ops[r], r, |vt.ops|);
      match vt.ops[r]
      case Data(offset, len) =>
        (match Get(vt.data, offset, offset + len)
         case None => Err(BufferOverflow)
         case Some(b) => Ok(RData(b)))
      case Table(offset, len) => RealizeTable(offset, len, table)
      case NoOp => Ok(RNone)
      case Component(c) => RealizeComponent(Realize(vt, c, table))
      case Schema(ty, dim, arg) =>
        RealizeSchema(Realize(vt, ty, table), Realize(vt, dim, table), WordAligned(vt, dim), arg)
      case Timestamp(source, arg) => RealizeTimestamp(Realize(vt, source, table), arg)
      case Ext(arg, id, data) => RealizeExt(id, Realize(vt, data, table), arg)
  }

  /** The chain of decorations of a field, from operation `r` on. */
  function FieldFrom(
    vt: VTable, r: nat, schema: Option<(seq<nat>, PrimType)>, timestamp: Option<Option<Bytes.Timestamp>>,
    offset: nat, len: nat, table: Option<seq<byte>>
  ): Result<RealizedField, Error>
    requires WellFounded(vt)
    decreases Rank(vt, r)
  {
    match Realize(vt, r, table)
    case Err(e) => Err(e)
    case Ok(RComponent(c)) => FinishField(c, schema, timestamp, offset, len, table)
    case Ok(RSchema(dim, ty, arg)) => FieldFrom(vt, arg, Some((dim, ty)), timestamp, offset, len, table)
    case Ok(RTimestamp(t, _, arg)) => FieldFrom(vt, arg, schema, Some(t), offset, len, table)
    case Ok(RExt(_, _, arg)) => FieldFrom(vt, arg, schema, timestamp, offset, len, table)
    case Ok(_) => Err(InvalidOp)
  }

  function RealizeFieldOf(vt: VTable, f: Field, table: Option<seq<byte>>): Result<RealizedField, Error>
    requires WellFounded(vt)
  {
    FieldFrom(vt, f.arg, None, None, f.offset, f.len, table)
  }

  /** The loop of `realize_fields`, which ends after at most one round per operation. */
  method RealizeField(vt: VTable, f: Field, table: Option<seq<byte>>)
    returns (res: Result<RealizedField, Error>, rounds: nat)
    requires WellFounded(vt)
    ensures res == RealizeFieldOf(vt, f, table)
    ensures rounds <= |vt.ops|
  {
    var schema: Option<(seq<nat>, PrimType)> := None;
    var timestamp: Option<Option<Bytes.Timestamp>> := None;
    var r := f.arg;
    rounds := 0;
    var realized := Realize(vt, r, table);
    if realized.Err? {
      return Err(realized.error), rounds;
    }
    while true
      invariant realized.Ok? && realized == Realize(vt, r, table)
      invariant rounds + Rank(vt, r) <= |vt.ops| && 0 < Rank(vt, r)
      invariant FieldFrom(vt, r, schema, timestamp, f.offset, f.len, table) == RealizeFieldOf(vt, f, table)
      decreases Rank(vt, r)
    {
      rounds := rounds + 1;
      match realized.value {
        case RComponent(c) =>
          return FinishField(c, schema, timestamp, f.offset, f.len, table), rounds;
        case RSchema(dim, ty, arg) =>
          schema, r := Some((dim, ty)), arg;
        case RTimestamp(t, _, arg) =>
          timestamp, r := Some(t), arg;
        case RExt(_, _, arg) =>
          r := arg;
        case _ =>
          return Err(InvalidOp), rounds;
      }
      realized := Realize(vt, r, table);
      if realized.Err? {
        return Err(realized.error), rounds;
      }
    }
  }

  // ---------------------------------------------------------------- applying a table to a sink

  datatype Sunk = Sunk(componentId: nat, view: View, timestamp: Option<Bytes.Timestamp>)

  datatype Outcome = Done | SinkRefused | Failed(error: Error)

  /**
   Feeds realized fields to a sink until one fails or the sink refuses; `accepts(i)` is the
   sink's answer to its call number `i`.
   */
  function SinkAll(fields: seq<Result<RealizedField, Error>>, accepts: nat -> bool, i: nat): (seq<Sunk>, Outcome)
    requires forall k | 0 <= k < |fields| :: fields[k].Ok? ==> fields[k].value.view.Some?
  {
    if fields == [] then ([], Done)
    else match fields[0]
      case Err(e) => ([], Failed(e))
      case Ok(f) =>
        var call := Sunk(f.componentId, f.view.value, f.timestamp);
        if !accepts(i) then ([call], SinkRefused)
        else
          var (rest, outcome) := SinkAll(fields[1..], accepts, i + 1);
          ([call] + rest, outcome)
  }

  /** Against a table every realized field has a view, so `apply` never misses one. */
  lemma {:induction false} FieldHasView(
    vt: VTable, r: nat, schema: Option<(seq<nat>, PrimType)>, timestamp: Option<Option<Bytes.Timestamp>>,
    offset: nat, len: nat, table: seq<byte>)
    requires WellFounded(vt)
    ensures var f := FieldFrom(vt, r, schema, timestamp, offset, len, Some(table));
            f.Ok? ==> f.value.view.Some?
    decreases Rank(vt, r)
  {
    match Realize(vt, r, Some(table))
    case Ok(RSchema(dim, ty, arg)) =>
      FieldHasView(vt, arg, Some((dim, ty)), timestamp, offset, len, table);
    case Ok(RTimestamp(t, _, arg)) =>
      FieldHasView(vt, arg, schema, Some(t), offset, len, table);
    case Ok(RExt(_, _, arg)) =>
      FieldHasView(vt, arg, schema, timestamp, offset, len, table);
    case _ =>
  }

  function RealizeFields(vt: VTable, table: Option<seq<byte>>): (fs: seq<Result<RealizedField, Error>>)
    requires WellFounded(vt)
    ensures |fs| == |vt.fields|
    ensures table.Some? ==> forall k | 0 <= k < |fs| :: fs[k].Ok? ==> fs[k].value.view.Some?
  {
    var fs := seq(|vt.fields|, k requires 0 <= k < |vt.fields| => RealizeFieldOf(vt, vt.fields[k], table));
    assert table.Some? ==> forall k | 0 <= k < |fs| :: fs[k].Ok? ==> fs[k].value.view.Some? by {
      if table.Some? {
        forall k | 0 <= k < |fs| ensures fs[k].Ok? ==> fs[k].value.view.Some? {
          var f := vt.fields[k];
          FieldHasView(vt, f.arg, None, None, f.offset, f.len, table.value);
        }
      }
    }
    fs
  }

  function Apply(vt: VTable, table: seq<byte>, accepts: nat -> bool): (seq<Sunk>, Outcome)
    requires WellFounded(vt)
  {
    SinkAll(RealizeFields(vt, Some(table)), accepts, 0)
  }
}

/**
 A vtable as a Postcard message: sizes, encoding into a slice and decoding from one, field by
 field as the generated C++ does it, including which results it checks and which it overwrites.
 */
module VTableMessage {
  import opened Bytes
  import opened Postcard
  import opened VTables

  // ---------------------------------------------------------------- the bytes of a message

  predicate OpOk(op: Op) {
    match op
    case Data(offset, len) => offset < Bytes.U16 && len < Bytes.U16
    case Table(offset, len) => offset < Bytes.U16 && len < Bytes.U16
    case NoOp => true
    case Component(id) => id < Bytes.U16
    case Schema(ty, dim, arg) => ty < Bytes.U16 && dim < Bytes.U16 && arg < Bytes.U16
    case Timestamp(source, arg) => source < Bytes.U16 && arg < Bytes.U16
    case Ext(arg, _, data) => arg < Bytes.U16 && data < Bytes.U16
  }

  predicate FieldOk(f: Field) {
    f.offset < Bytes.U16 && f.len < Bytes.U16 && f.arg < Bytes.U16
  }

  predicate MessageOk(v: VTable) {
    && (forall i | 0 <= i < |v.ops| :: OpOk(v.ops[i]))
    && (forall i | 0 <= i < |v.fields| :: FieldOk(v.fields[i]))
    && |v.ops| < Bytes.U64 && |v.fields| < Bytes.U64 && |v.data| < Bytes.U64
  }

  function OpBytes(op: Op): (b: seq<byte>)
    ensures |b| >= 1
  {
    match op
    case Data(offset, len) => [0] + (Varint(offset) + Varint(len))
    case Table(offset, len) => [1] + (Varint(offset) + Varint(len))
    case NoOp => [2]
    case Component(id) => [3] + Varint(id)
    case Schema(ty, dim, arg) => [4] + (Varint(ty) + (Varint(dim) + Varint(arg)))
    case Timestamp(source, arg) => [5] + (Varint(source) + Varint(arg))
    case Ext(arg, id, data) => [6] + (Varint(arg) + ([id.0] + ([id.1] + Varint(data))))
  }

  function FieldBytes(f: Field): (b: seq<byte>)
    ensures |b| >= 1
  {
    Varint(f.offset) + (Varint(f.len) + Varint(f.arg))
  }

  function ByteBytes(b: byte): seq<byte> {
    [b]
  }

  function Encodings<T>(xs: seq<T>, encode: T -> seq<byte>): (bs: seq<seq<byte>>)
    ensures |bs| == |xs| && forall i | 0 <= i < |xs| :: bs[i] == encode(xs[i])
  {
    seq(|xs|, i requires 0 <= i < |xs| => encode(xs[i]))
  }

  /** A count, then the elements. */
  function SeqBytes<T>(xs: seq<T>, encode: T -> seq<byte>): seq<byte> {
    Varint(|xs|) + Flatten(Encodings(xs, encode))
  }

  function MessageBytes(v: VTable): seq<byte> {
    SeqBytes(v.ops, OpBytes) + (SeqBytes(v.fields, FieldBytes) + SeqBytes(v.data, ByteBytes))
  }

  lemma WireNumbers()
    ensures forall v: nat | v < 0x80 :: Varint(v) == [v]
    ensures Varint(300) == [0xAC, 0x02] && Varint(0x80) == [0x80, 0x01] && Varint(0xFFFF) == [0xFF, 0xFF, 0x03]
  {
    assert Varint(300) == [0xAC] + Varint(2) && Varint(0x80) == [0x80] + Varint(1);
    assert Varint(0xFFFF) == [0xFF] + Varint(0x1FF) && Varint(0x1FF) == [0xFF] + Varint(3);
  }

  /** Each operation on the wire: its tag, then its members in the order of their declaration. */
  lemma WireOps()
    ensures OpBytes(Data(1, 300)) == [0, 1, 0xAC, 0x02]
    ensures OpBytes(Table(0xFFFF, 2)) == [1, 0xFF, 0xFF, 0x03, 2]
    ensures OpBytes(NoOp) == [2]
    ensures OpBytes(Component(0x80)) == [3, 0x80, 0x01]
    ensures OpBytes(Schema(1, 2, 3)) == [4, 1, 2, 3]
    ensures OpBytes(Timestamp(4, 5)) == [5, 4, 5]
    ensures OpBytes(Ext(6, (0xA0, 0xB0), 7)) == [6, 6, 0xA0, 0xB0, 7]
  {
    WireNumbers();
  }

  lemma OneEncoding<T>(x: T, encode: T -> seq<byte>)
    ensures SeqBytes([x], encode) == [1] + encode(x)
  {
    var bs := Encodings([x], encode);
    assert bs == [encode(x)] && |bs[1..]| == 0;
    assert Flatten(bs) == encode(x) + Flatten<byte>([]);
  }

  lemma TwoEncodings<T>(x: T, y: T, encode: T -> seq<byte>)
    ensures SeqBytes([x, y], encode) == [2] + encode(x) + encode(y)
  {
    var bs := Encodings([x, y], encode);
    assert bs == [encode(x), encode(y)] && bs[1..] == [encode(y)];
    assert Flatten(bs[1..]) == encode(y) + Flatten<byte>([]);
  }

  /** A whole message: operations, fields and data, each with its count in front. */
  lemma WireMessage()
    ensures MessageBytes(VTable([NoOp, Component(9)], [Field(8, 300, 1)], [200])) ==
              [2, 2, 3, 9, 1, 8, 0xAC, 0x02, 1, 1, 200]
  {
    WireNumbers();
    TwoEncodings(NoOp, Component(9), OpBytes);
    OneEncoding(Field(8, 300, 1), FieldBytes);
    OneEncoding<byte>(200, ByteBytes);
  }

  // ---------------------------------------------------------------- decoding

  function DecodeU16(buf: seq<byte>): (Status, nat, seq<byte>) {
    DecodeUnsigned(buf, W16)
  }

  function DecodeByte(buf: seq<byte>, junk: byte): (Status, byte, seq<byte>) {
    if buf == [] then (IncompleteData, junk, buf) else (Success, buf[0], buf[1..])
  }

  /** Two numbers in a row, stopping at the first error. */
  function DecodePair(buf: seq<byte>): (Status, (nat, nat), seq<byte>) {
    var (e1, x, r1) := DecodeU16(buf);
    if e1 != Success then (e1, (0, 0), r1)
    else
      var (e2, y, r2) := DecodeU16(r1);
      (e2, (x, y), r2)
  }

  const DEFAULT_OP: Op := Data(0, 0)

  /** An operation that cannot be decoded stays as default-constructed. */
  function DecodeOp(buf: seq<byte>): (Status, Op, seq<byte>) {
    var (e, tag, r) := DecodeByte(buf, 0);
    if e != Success then (e, DEFAULT_OP, r)
    else if tag == 0 then
      var (e, p, r) := DecodePair(r);
      (e, if e == Success then Data(p.0, p.1) else DEFAULT_OP, r)
    else if tag == 1 then
      var (e, p, r) := DecodePair(r);
      (e, if e == Success then Table(p.0, p.1) else DEFAULT_OP, r)
    else if tag == 2 then (Success, NoOp, r)
    else if tag == 3 then
      var (e, id, r) := DecodeU16(r);
      (e, if e == Success then Component(id) else DEFAULT_OP, r)
    else if tag == 4 then DecodeSchema(r)
    else if tag == 5 then
      var (e, p, r) := DecodePair(r);
      (e, if e == Success then Timestamp(p.0, p.1) else DEFAULT_OP, r)
    else if tag == 6 then DecodeExt(r)
    else (InvalidInput, DEFAULT_OP, r)
  }

  function DecodeSchema(buf: seq<byte>): (Status, Op, seq<byte>) {
    var (e1, p, r1) := DecodePair(buf);
    if e1 != Success then (e1, DEFAULT_OP, r1)
    else
      var (e2, arg, r2) := DecodeU16(r1);
      (e2, if e2 == Success then Schema(p.0, p.1, arg) else DEFAULT_OP, r2)
  }

  /** Of the two bytes of the id only the second result is looked at. */
  function DecodeExt(buf: seq<byte>): (Status, Op, seq<byte>) {
    var (e1, arg, r1) := DecodeU16(buf);
    if e1 != Success then (e1, DEFAULT_OP, r1)
    else
      var (_, id0, r2) := DecodeByte(r1, 0);
      var (e3, id1, r3) := DecodeByte(r2, 0);
      if e3 != Success then (e3, DEFAULT_OP, r3)
      else
        var (e4, data, r4) := DecodeU16(r3);
        (e4, if e4 == Success then Ext(arg, (id0, id1), data) else DEFAULT_OP, r4)
  }

  /** A field's members keep whatever they held (`junk`) from the first error on. */
  function DecodeField(buf: seq<byte>, junk: Field): (Status, Field, seq<byte>) {
    var (e1, offset, r1) := DecodeU16(buf);
    if e1 != Success then (e1, junk, r1)
    else
      var (e2, len, r2) := DecodeU16(r1);
      if e2 != Success then (e2, junk.(offset := offset), r2)
      else
        var (e3, arg, r3) := DecodeU16(r2);
        if e3 != Success then (e3, Field(offset, len, junk.arg), r3)
        else (Success, Field(offset, len, arg), r3)
  }

  function FieldDecoder(junk: Field): seq<byte> -> (Status, Field, seq<byte>) {
    buf => DecodeField(buf, junk)
  }

  function ByteDecoder(junk: byte): seq<byte> -> (Status, byte, seq<byte>) {
    buf => DecodeByte(buf, junk)
  }

  /** Every element is kept and only the last result survives; `err` is the result so far. */
  function DecodeSeq<T>(n: nat, buf: seq<byte>, err: Status, decode: seq<byte> -> (Status, T, seq<byte>)): (Status, seq<T>, seq<byte>) {
    if n == 0 then (err, [], buf)
    else
      var (e, x, r) := decode(buf);
      var (e', xs, r') := DecodeSeq(n - 1, r, e, decode);
      (e', [x] + xs, r')
  }

  function DecodeCounted<T>(buf: seq<byte>, decode: seq<byte> -> (Status, T, seq<byte>)): (Status, seq<T>, seq<byte>) {
    var (e, n, r) := ReadVarint(buf, 10, 0, 0);
    if e != Success then (e, [], r) else DecodeSeq(n, r, Success, decode)
  }

  function DecodeMessage(buf: seq<byte>, junk: Field, junkByte: byte): (Status, VTable, seq<byte>) {
    var (e1, ops, r1) := DecodeCounted(buf, DecodeOp);
    if e1 != Success then (e1, VTable(ops, [], []), r1)
    else
      var (e2, fields, r2) := DecodeCounted(r1, FieldDecoder(junk));
      if e2 != Success then (e2, VTable(ops, fields, []), r2)
      else
        var (e3, data, r3) := DecodeCounted(r2, ByteDecoder(junkByte));
        (e3, VTable(ops, fields, data), r3)
  }

  // ---------------------------------------------------------------- decoding undoes encoding

  lemma U16RoundTrip(v: nat, rest: seq<byte>)
    requires v < Bytes.U16
    ensures DecodeU16(Varint(v) + rest) == (Success, v, rest)
    ensures |Varint(v)| == VarintSize(v) <= 3
  {
    UnsignedRoundTrip(v, W16, rest);
  }

  lemma Assoc<T>(a: seq<T>, b: seq<T>, c: seq<T>)
    ensures (a + b) + c == a + (b + c)
  {
  }

  lemma Regroup<T>(a: seq<T>, b: seq<T>, c: seq<T>, d: seq<T>)
    ensures a + (b + c) + d == (a + b) + (c + d)
  {
  }

  lemma PairRoundTrip(x: nat, y: nat, rest: seq<byte>)
    requires x < Bytes.U16 && y < Bytes.U16
    ensures DecodePair(Varint(x) + Varint(y) + rest) == (Success, (x, y), rest)
  {
    Assoc(Varint(x), Varint(y), rest);
    U16RoundTrip(x, Varint(y) + rest);
    U16RoundTrip(y, rest);
  }

  lemma SchemaRoundTrip(ty: nat, dim: nat, arg: nat, rest: seq<byte>)
    requires ty < Bytes.U16 && dim < Bytes.U16 && arg < Bytes.U16
    ensures DecodeSchema(Varint(ty) + (Varint(dim) + Varint(arg)) + rest) == (Success, Schema(ty, dim, arg), rest)
  {
    var tail := Varint(arg) + rest;
    Regroup(Varint(ty), Varint(dim), Varint(arg), rest);
    PairRoundTrip(ty, dim, tail);
    U16RoundTrip(arg, rest);
  }

  /** An id in front of a number. */
  lemma ExtAfterArg(buf: seq<byte>, arg: nat, id: PacketId, tail: seq<byte>, data: nat, rest: seq<byte>)
    requires DecodeU16(buf) == (Success, arg, [id.0] + ([id.1] + tail)) && DecodeU16(tail) == (Success, data, rest)
    ensures DecodeExt(buf) == (Success, Ext(arg, id, data), rest)
  {
    assert ([id.0] + ([id.1] + tail))[1..] == [id.1] + tail && ([id.1] + tail)[1..] == tail;
  }

  lemma Regroup4<T>(a: seq<T>, b: seq<T>, c: seq<T>, d: seq<T>, e: seq<T>)
    ensures a + (b + (c + d)) + e == a + (b + (c + (d + e)))
  {
    Assoc(a, b + (c + d), e);
    Assoc(b, c + d, e);
    Assoc(c, d, e);
  }

  lemma ExtRoundTrip(arg: nat, id: PacketId, data: nat, rest: seq<byte>)
    requires arg < Bytes.U16 && data < Bytes.U16
    ensures DecodeExt(Varint(arg) + ([id.0] + ([id.1] + Varint(data))) + rest) == (Success, Ext(arg, id, data), rest)
  {
    var tail := Varint(data) + rest;
    Regroup4(Varint(arg), [id.0], [id.1], Varint(data), rest);
    U16RoundTrip(arg, [id.0] + ([id.1] + tail));
    U16RoundTrip(data, rest);
    ExtAfterArg(Varint(arg) + ([id.0] + ([id.1] + tail)), arg, id, tail, data, rest);
  }

  lemma OpRoundTrip(op: Op, rest: seq<byte>)
    requires OpOk(op)
    ensures DecodeOp(OpBytes(op) + rest) == (Success, op, rest)
  {
    var buf, tag := OpBytes(op) + rest, OpBytes(op)[0];
    var tail := OpBytes(op)[1..] + rest;
    assert buf[0] == tag && buf[1..] == tail;
    match op
    case Data(offset, len) => PairRoundTrip(offset, len, rest); assert tail == Varint(offset) + Varint(len) + rest;
    case Table(offset, len) => PairRoundTrip(offset, len, rest); assert tail == Varint(offset) + Varint(len) + rest;
    case NoOp => assert tail == rest;
    case Component(id) => U16RoundTrip(id, rest); assert tail == Varint(id) + rest;
    case Schema(ty, dim, arg) => SchemaRoundTrip(ty, dim, arg, rest);
    case Timestamp(source, arg) => PairRoundTrip(source, arg, rest); assert tail == Varint(source) + Varint(arg) + rest;
    case Ext(arg, id, data) => ExtRoundTrip(arg, id, data, rest);
  }

  lemma FieldRoundTrip(f: Field, rest: seq<byte>, junk: Field)
    requires FieldOk(f)
    ensures DecodeField(FieldBytes(f) + rest, junk) == (Success, f, rest)
  {
    var r2 := Varint(f.arg) + rest;
    var r1 := Varint(f.len) + r2;
    assert FieldBytes(f) + rest == Varint(f.offset) + r1;
    U16RoundTrip(f.offset, r1);
    U16RoundTrip(f.len, r2);
    U16RoundTrip(f.arg, rest);
  }

  /** `decode` undoes `encode` on this element, whatever follows. */
  ghost predicate Inverts<T(!new)>(x: T, encode: T -> seq<byte>, decode: seq<byte> -> (Status, T, seq<byte>)) {
    forall rest: seq<byte> :: decode(encode(x) + rest) == (Success, x, rest)
  }

  lemma {:induction false} SeqRoundTrip<T(!new)>(
    xs: seq<T>, rest: seq<byte>, encode: T -> seq<byte>, decode: seq<byte> -> (Status, T, seq<byte>))
    requires forall i | 0 <= i < |xs| :: Inverts(xs[i], encode, decode)
    ensures DecodeSeq(|xs|, Flatten(Encodings(xs, encode)) + rest, Success, decode) == (Success, xs, rest)
  {
    if xs == [] {
      assert [] + rest == rest;
    } else {
      var tail := Flatten(Encodings(xs[1..], encode)) + rest;
      assert Encodings(xs, encode)[1..] == Encodings(xs[1..], encode);
      Assoc(encode(xs[0]), Flatten(Encodings(xs[1..], encode)), rest);
      assert Inverts(xs[0], encode, decode);
      assert decode(encode(xs[0]) + tail) == (Success, xs[0], tail);
      SeqRoundTrip(xs[1..], rest, encode, decode);
      assert [xs[0]] + xs[1..] == xs;
    }
  }

  lemma CountedRoundTrip<T(!new)>(
    xs: seq<T>, rest: seq<byte>, encode: T -> seq<byte>, decode: seq<byte> -> (Status, T, seq<byte>))
    requires |xs| < Bytes.U64 && forall i | 0 <= i < |xs| :: Inverts(xs[i], encode, decode)
    ensures DecodeCounted(SeqBytes(xs, encode) + rest, decode) == (Success, xs, rest)
  {
    var body := Flatten(Encodings(xs, encode)) + rest;
    Assoc(Varint(|xs|), Flatten(Encodings(xs, encode)), rest);
    VarintLength(|xs|);
    ReadInvertsVarint(|xs|, body, 10, 0, 0);
    SeqRoundTrip(xs, rest, encode, decode);
  }

  /** Decoding an encoded vtable gives it back, whatever follows it and whatever the memory held. */
  lemma MessageRoundTrip(v: VTable, rest: seq<byte>, junk: Field, junkByte: byte)
    requires MessageOk(v)
    ensures DecodeMessage(MessageBytes(v) + rest, junk, junkByte) == (Success, v, rest)
  {
    var r2 := SeqBytes(v.data, ByteBytes) + rest;
    var r1 := SeqBytes(v.fields, FieldBytes) + r2;
    assert MessageBytes(v) + rest == SeqBytes(v.ops, OpBytes) + r1;
    forall i | 0 <= i < |v.ops| ensures Inverts(v.ops[i], OpBytes, DecodeOp) {
      forall rest: seq<byte> ensures DecodeOp(OpBytes(v.ops[i]) + rest) == (Success, v.ops[i], rest) {
        OpRoundTrip(v.ops[i], rest);
      }
    }
    CountedRoundTrip(v.ops, r1, OpBytes, DecodeOp);
    FieldsRoundTrip(v, r2, junk);
    DataRoundTrip(v, rest, junkByte);
  }

  lemma FieldsRoundTrip(v: VTable, rest: seq<byte>, junk: Field)
    requires MessageOk(v)
    ensures DecodeCounted(SeqBytes(v.fields, FieldBytes) + rest, FieldDecoder(junk)) == (Success, v.fields, rest)
  {
    var decode := FieldDecoder(junk);
    forall i | 0 <= i < |v.fields| ensures Inverts(v.fields[i], FieldBytes, decode) {
      forall rest: seq<byte> ensures decode(FieldBytes(v.fields[i]) + rest) == (Success, v.fields[i], rest) {
        FieldRoundTrip(v.fields[i], rest, junk);
      }
    }
    CountedRoundTrip(v.fields, rest, FieldBytes, decode);
  }

  lemma DataRoundTrip(v: VTable, rest: seq<byte>, junkByte: byte)
    requires MessageOk(v)
    ensures DecodeCounted(SeqBytes(v.data, ByteBytes) + rest, ByteDecoder(junkByte)) == (Success, v.data, rest)
  {
    var decode := ByteDecoder(junkByte);
    forall i | 0 <= i < |v.data| ensures Inverts(v.data[i], ByteBytes, decode) {
      forall rest: seq<byte> ensures decode(ByteBytes(v.data[i]) + rest) == (Success, v.data[i], rest) {
        assert ([v.data[i]] + rest)[1..] == rest;
      }
    }
    CountedRoundTrip(v.data, rest, ByteBytes, decode);
  }

  /** The buffer after decoding `n` elements. */
  function Skip<T>(n: nat, buf: seq<byte>, decode: seq<byte> -> (Status, T, seq<byte>)): seq<byte> {
    if n == 0 then buf else Skip(n - 1, decode(buf).2, decode)
  }

  /** A sequence is accepted exactly when its last element is, whatever became of the others. */
  lemma {:induction false} LastDecides<T>(n: nat, buf: seq<byte>, err: Status, decode: seq<byte> -> (Status, T, seq<byte>))
    requires n > 0
    ensures DecodeSeq(n, buf, err, decode).0 == decode(Skip(n - 1, buf, decode)).0
    ensures |DecodeSeq(n, buf, err, decode).1| == n
  {
    if n > 1 {
      LastDecides(n - 1, decode(buf).2, decode(buf).0, decode);
    }
  }

  lemma {:induction false} OneElement<T>(buf: seq<byte>, err: Status, decode: seq<byte> -> (Status, T, seq<byte>))
    ensures DecodeSeq(1, buf, err, decode) == (decode(buf).0, [decode(buf).1], decode(buf).2)
  {
    assert DecodeSeq(0, decode(buf).2, decode(buf).0, decode) == (decode(buf).0, [], decode(buf).2);
    assert [decode(buf).1] + [] == [decode(buf).1];
  }

  /** So an unknown tag goes unnoticed if a known one follows. */
  lemma UnknownTagAccepted(junk: Field, junkByte: byte)
    ensures DecodeOp([9, 2, 0, 0]).0 == InvalidInput
    ensures DecodeMessage([2, 9, 2, 0, 0], junk, junkByte) == (Success, VTable([DEFAULT_OP, NoOp], [], []), [])
  {
    ReadLast(2, [9, 2, 0, 0], 10, 0, 0);
    assert Varint(2) + [9, 2, 0, 0] == [2, 9, 2, 0, 0];
    ReadLast(0, [0], 10, 0, 0);
    assert Varint(0) + [0] == [0, 0];
    ReadLast(0, [], 10, 0, 0);
    assert Varint(0) + [] == [0];
    assert DecodeOp([9, 2, 0, 0]) == (InvalidInput, DEFAULT_OP, [2, 0, 0]) by {
      assert [9, 2, 0, 0][1..] == [2, 0, 0];
    }
    assert DecodeOp([2, 0, 0]) == (Success, NoOp, [0, 0]) by {
      assert [2, 0, 0][1..] == [0, 0];
    }
    OneElement([2, 0, 0], InvalidInput, DecodeOp);
    assert DecodeSeq(1, [2, 0, 0], InvalidInput, DecodeOp) == (Success, [NoOp], [0, 0]);
    assert [DEFAULT_OP] + [NoOp] == [DEFAULT_OP, NoOp];
    assert DecodeSeq(2, [9, 2, 0, 0], Success, DecodeOp) == (Success, [DEFAULT_OP, NoOp], [0, 0]);
  }

  // ---------------------------------------------------------------- sizes

  function OpSize(op: Op): nat {
    1 + match op
        case Data(offset, len) => VarintSize(offset) + VarintSize(len)
        case Table(offset, len) => VarintSize(offset) + VarintSize(len)
        case NoOp => 0
        case Component(id) => VarintSize(id)
        case Schema(ty, dim, arg) => VarintSize(ty) + VarintSize(dim) + VarintSize(arg)
        case Timestamp(source, arg) => VarintSize(source) + VarintSize(arg)
        case Ext(arg, _, data) => VarintSize(arg) + 1 + 1 + VarintSize(data)
  }

  function FieldSize(f: Field): nat {
    VarintSize(f.offset) + VarintSize(f.len) + VarintSize(f.arg)
  }

  lemma OpSizeExact(op: Op)
    requires OpOk(op)
    ensures OpSize(op) == |OpBytes(op)|
  {
    match op
    case Data(x, y) => VarintLength(x); VarintLength(y);
    case Table(x, y) => VarintLength(x); VarintLength(y);
    case NoOp =>
    case Component(x) => VarintLength(x);
    case Schema(x, y, z) => VarintLength(x); VarintLength(y); VarintLength(z);
    case Timestamp(x, y) => VarintLength(x); VarintLength(y);
    case Ext(x, _, y) => VarintLength(x); VarintLength(y);
  }

  lemma FieldSizeExact(f: Field)
    requires FieldOk(f)
    ensures FieldSize(f) == |FieldBytes(f)|
  {
    VarintLength(f.offset);
    VarintLength(f.len);
    VarintLength(f.arg);
  }

  lemma EncodingsStep<T>(xs: seq<T>, i: nat, encode: T -> seq<byte>)
    requires i < |xs|
    ensures Flatten(Encodings(xs[..i + 1], encode)) == Flatten(Encodings(xs[..i], encode)) + encode(xs[i])
  {
    assert Encodings(xs[..i + 1], encode) == Encodings(xs[..i], encode) + [encode(xs[i])];
    FlattenAppend(Encodings(xs[..i], encode), encode(xs[i]));
  }

  method EncodedSize(v: VTable) returns (size: nat)
    requires MessageOk(v)
    ensures size == |MessageBytes(v)|
  {
    size := VarintSize(|v.ops|);
    VarintLength(|v.ops|);
    var i := 0;
    while i < |v.ops|
      invariant 0 <= i <= |v.ops|
      invariant size == |Varint(|v.ops|)| + |Flatten(Encodings(v.ops[..i], OpBytes))|
    {
      OpSizeExact(v.ops[i]);
      EncodingsStep(v.ops, i, OpBytes);
      size := size + OpSize(v.ops[i]);
      i := i + 1;
    }
    assert v.ops[..i] == v.ops;
    ghost var opsSize := size;
    size := size + VarintSize(|v.fields|);
    VarintLength(|v.fields|);
    i := 0;
    while i < |v.fields|
      invariant 0 <= i <= |v.fields|
      invariant size == opsSize + |Varint(|v.fields|)| + |Flatten(Encodings(v.fields[..i], FieldBytes))|
    {
      FieldSizeExact(v.fields[i]);
      EncodingsStep(v.fields, i, FieldBytes);
      size := size + FieldSize(v.fields[i]);
      i := i + 1;
    }
    assert v.fields[..i] == v.fields;
    ghost var fieldsSize := size;
    size := size + VarintSize(|v.data|);
    VarintLength(|v.data|);
    i := 0;
    while i < |v.data|
      invariant 0 <= i <= |v.data|
      invariant size == fieldsSize + |Varint(|v.data|)| + |Flatten(Encodings(v.data[..i], ByteBytes))|
    {
      EncodingsStep(v.data, i, ByteBytes);
      size := size + 1;
      i := i + 1;
    }
    assert v.data[..i] == v.data;
  }

  // ---------------------------------------------------------------- encoding into a slice

  /** All of `bytes` was appended exactly when it fitted, and what was there before is kept. */
  ghost predicate Encoded(before: seq<byte>, after: seq<byte>, capacity: nat, bytes: seq<byte>, err: Status) {
    && (err == Success <==> |before| + |bytes| <= capacity)
    && (err == Success ==> after == before + bytes)
    && before <= after
  }

  lemma EncodedChain(w0: seq<byte>, w1: seq<byte>, w2: seq<byte>, cap: nat, x: seq<byte>, y: seq<byte>, err: Status)
    requires Encoded(w0, w1, cap, x, Success) && Encoded(w1, w2, cap, y, err)
    ensures Encoded(w0, w2, cap, x + y, err)
  {
    Assoc(w0, x, y);
  }

  lemma EncodedStops(w0: seq<byte>, w1: seq<byte>, cap: nat, x: seq<byte>, y: seq<byte>, err: Status)
    requires Encoded(w0, w1, cap, x, err) && err != Success
    ensures Encoded(w0, w1, cap, x + y, err)
  {
  }

  method EncodeU16(slice: Slice, v: nat) returns (err: Status)
    requires slice.Valid() && v < Bytes.U16
    modifies slice, slice.data
    ensures slice.Valid() && Encoded(old(slice.Written()), slice.Written(), slice.capacity, Varint(v), err)
  {
    U16RoundTrip(v, []);
    err := slice.EncodeVarint(v, 3);
  }

  method EncodePair(slice: Slice, x: nat, y: nat) returns (err: Status)
    requires slice.Valid() && x < Bytes.U16 && y < Bytes.U16
    modifies slice, slice.data
    ensures slice.Valid() && Encoded(old(slice.Written()), slice.Written(), slice.capacity, Varint(x) + Varint(y), err)
  {
    ghost var w0 := slice.Written();
    err := EncodeU16(slice, x);
    ghost var w1 := slice.Written();
    if err != Success {
      EncodedStops(w0, w1, slice.capacity, Varint(x), Varint(y), err);
      return err;
    }
    err := EncodeU16(slice, y);
    EncodedChain(w0, w1, slice.Written(), slice.capacity, Varint(x), Varint(y), err);
  }

  method EncodeTriple(slice: Slice, x: nat, y: nat, z: nat) returns (err: Status)
    requires slice.Valid() && x < Bytes.U16 && y < Bytes.U16 && z < Bytes.U16
    modifies slice, slice.data
    ensures slice.Valid()
    ensures Encoded(old(slice.Written()), slice.Written(), slice.capacity, Varint(x) + (Varint(y) + Varint(z)), err)
  {
    ghost var w0 := slice.Written();
    err := EncodeU16(slice, x);
    ghost var w1 := slice.Written();
    if err != Success {
      EncodedStops(w0, w1, slice.capacity, Varint(x), Varint(y) + Varint(z), err);
      return err;
    }
    err := EncodePair(slice, y, z);
    EncodedChain(w0, w1, slice.Written(), slice.capacity, Varint(x), Varint(y) + Varint(z), err);
  }

  method EncodeByte(slice: Slice, b: byte) returns (err: Status)
    requires slice.Valid()
    modifies slice, slice.data
    ensures slice.Valid() && Encoded(old(slice.Written()), slice.Written(), slice.capacity, [b], err)
  {
    err := slice.EncodeU8(b);
  }

  /** The result of the first id byte is overwritten by that of the second. */
  method EncodeId(slice: Slice, id: PacketId) returns (err: Status)
    requires slice.Valid()
    modifies slice, slice.data
    ensures slice.Valid() && Encoded(old(slice.Written()), slice.Written(), slice.capacity, [id.0] + [id.1], err)
  {
    err := EncodeByte(slice, id.0);
    err := EncodeByte(slice, id.1);
  }

  method EncodeExt(slice: Slice, arg: nat, id: PacketId, data: nat) returns (err: Status)
    requires slice.Valid() && arg < Bytes.U16 && data < Bytes.U16
    modifies slice, slice.data
    ensures slice.Valid()
    ensures Encoded(old(slice.Written()), slice.Written(), slice.capacity,
                    Varint(arg) + ([id.0] + ([id.1] + Varint(data))), err)
  {
    ghost var w0, cap, ids := slice.Written(), slice.capacity, [id.0] + [id.1];
    assert [id.0] + ([id.1] + Varint(data)) == ids + Varint(data);
    err := EncodeU16(slice, arg);
    ghost var w1 := slice.Written();
    if err != Success {
      EncodedStops(w0, w1, cap, Varint(arg), ids + Varint(data), err);
      return err;
    }
    err := EncodeId(slice, id);
    ghost var w2 := slice.Written();
    if err != Success {
      EncodedStops(w1, w2, cap, ids, Varint(data), err);
      EncodedChain(w0, w1, w2, cap, Varint(arg), ids + Varint(data), err);
      return err;
    }
    err := EncodeU16(slice, data);
    EncodedChain(w1, w2, slice.Written(), cap, ids, Varint(data), err);
    EncodedChain(w0, w1, slice.Written(), cap, Varint(arg), ids + Varint(data), err);
  }

  function OpTag(op: Op): byte {
    match op
    case Data(_, _) => 0
    case Table(_, _) => 1
    case NoOp => 2
    case Component(_) => 3
    case Schema(_, _, _) => 4
    case Timestamp(_, _) => 5
    case Ext(_, _, _) => 6
  }

  method EncodeOpArgs(slice: Slice, op: Op) returns (err: Status)
    requires slice.Valid() && OpOk(op)
    modifies slice, slice.data
    ensures slice.Valid() && Encoded(old(slice.Written()), slice.Written(), slice.capacity, OpBytes(op)[1..], err)
  {
    match op
    case Data(offset, len) => err := EncodePair(slice, offset, len);
    case Table(offset, len) => err := EncodePair(slice, offset, len);
    case NoOp => err := Success;
    case Component(id) => err := EncodeU16(slice, id);
    case Schema(ty, dim, arg) => err := EncodeTriple(slice, ty, dim, arg);
    case Timestamp(source, arg) => err := EncodePair(slice, source, arg);
    case Ext(arg, id, data) => err := EncodeExt(slice, arg, id, data);
  }

  method EncodeOp(slice: Slice, op: Op) returns (err: Status)
    requires slice.Valid() && OpOk(op)
    modifies slice, slice.data
    ensures slice.Valid() && Encoded(old(slice.Written()), slice.Written(), slice.capacity, OpBytes(op), err)
  {
    ghost var w0, cap := slice.Written(), slice.capacity;
    assert OpBytes(op) == [OpTag(op)] + OpBytes(op)[1..];
    err := EncodeByte(slice, OpTag(op));
    ghost var w1 := slice.Written();
    if err != Success {
      EncodedStops(w0, w1, cap, [OpTag(op)], OpBytes(op)[1..], err);
      return err;
    }
    err := EncodeOpArgs(slice, op);
    EncodedChain(w0, w1, slice.Written(), cap, [OpTag(op)], OpBytes(op)[1..], err);
  }

  method EncodeField(slice: Slice, f: Field) returns (err: Status)
    requires slice.Valid() && FieldOk(f)
    modifies slice, slice.data
    ensures slice.Valid() && Encoded(old(slice.Written()), slice.Written(), slice.capacity, FieldBytes(f), err)
  {
    err := EncodeTriple(slice, f.offset, f.len, f.arg);
  }

  // ---------------------------------------------------------------- counted sequences

  lemma VarintShort(n: nat)
    requires 0 < n < Bytes.U64
    ensures |Varint(n)| <= n
  {
    VarintLength(n);
  }

  lemma {:induction false} OneByteEach(bs: seq<seq<byte>>)
    requires forall i | 0 <= i < |bs| :: |bs[i]| >= 1
    ensures |Flatten(bs)| >= |bs|
  {
    if bs != [] {
      OneByteEach(bs[1..]);
    }
  }

  /**
   Part way through a counted sequence. The count's own result is overwritten by the elements',
   so the loop may go on after the count did not fit.
   */
  ghost predicate Counting<T>(
    w0: seq<byte>, w: seq<byte>, cap: nat, xs: seq<T>, encode: T -> seq<byte>, i: nat, err: Status)
  {
    && i <= |xs| && |w| <= cap && w0 <= w
    && (err == Success || i == 0)
    && if |w0| + |Varint(|xs|)| <= cap
       then w == w0 + Varint(|xs|) + Flatten(Encodings(xs[..i], encode)) && err == Success
       else w == w0 + Flatten(Encodings(xs[..i], encode)) && (i == 0 ==> err != Success)
  }

  lemma CountingStart<T>(w0: seq<byte>, w: seq<byte>, cap: nat, xs: seq<T>, encode: T -> seq<byte>, err: Status)
    requires |w0| <= cap && |w| <= cap && Encoded(w0, w, cap, Varint(|xs|), err) && (err != Success ==> w == w0)
    ensures Counting(w0, w, cap, xs, encode, 0, err)
  {
    assert xs[..0] == [] && Flatten(Encodings(xs[..0], encode)) == [];
  }

  lemma CountingStep<T>(
    w0: seq<byte>, w: seq<byte>, w': seq<byte>, cap: nat, xs: seq<T>, encode: T -> seq<byte>, i: nat, err: Status, err': Status)
    requires Counting(w0, w, cap, xs, encode, i, err) && i < |xs| && |w'| <= cap
    requires Encoded(w, w', cap, encode(xs[i]), err')
    ensures err' == Success ==> Counting(w0, w', cap, xs, encode, i + 1, err')
    ensures err' != Success ==> Encoded(w0, w', cap, SeqBytes(xs, encode), err')
  {
    EncodingsStep(xs, i, encode);
    var done := Flatten(Encodings(xs[..i], encode));
    if err' == Success {
      assert w0 + Varint(|xs|) + done + encode(xs[i]) == w0 + Varint(|xs|) + (done + encode(xs[i]));
      assert w0 + done + encode(xs[i]) == w0 + (done + encode(xs[i]));
    } else {
      PrefixFits(xs, encode, i + 1);
    }
  }

  lemma PrefixFits<T>(xs: seq<T>, encode: T -> seq<byte>, i: nat)
    requires i <= |xs|
    ensures |Flatten(Encodings(xs[..i], encode))| <= |Flatten(Encodings(xs, encode))|
  {
    assert Encodings(xs, encode) == Encodings(xs[..i], encode) + Encodings(xs[i..], encode);
    FlattenConcat(Encodings(xs[..i], encode), Encodings(xs[i..], encode));
  }

  /** A count that did not fit leaves no room for that many elements either. */
  lemma CountingDone<T>(w0: seq<byte>, w: seq<byte>, cap: nat, xs: seq<T>, encode: T -> seq<byte>, err: Status)
    requires Counting(w0, w, cap, xs, encode, |xs|, err) && |xs| < Bytes.U64
    requires forall i | 0 <= i < |xs| :: |encode(xs[i])| >= 1
    ensures Encoded(w0, w, cap, SeqBytes(xs, encode), err)
  {
    assert xs[..|xs|] == xs;
    OneByteEach(Encodings(xs, encode));
    if |xs| > 0 {
      VarintShort(|xs|);
    }
    Assoc(w0, Varint(|xs|), Flatten(Encodings(xs, encode)));
  }

  method StartSeq(slice: Slice, count: nat) returns (err: Status)
    requires slice.Valid() && count < Bytes.U64
    modifies slice, slice.data
    ensures slice.Valid() && Encoded(old(slice.Written()), slice.Written(), slice.capacity, Varint(count), err)
    ensures err != Success ==> slice.Written() == old(slice.Written())
  {
    VarintLength(count);
    err := slice.EncodeVarint(count, 10);
  }

  method EncodeOps(slice: Slice, ops: seq<Op>) returns (err: Status)
    requires slice.Valid() && |ops| < Bytes.U64 && (forall i | 0 <= i < |ops| :: OpOk(ops[i]))
    modifies slice, slice.data
    ensures slice.Valid() && Encoded(old(slice.Written()), slice.Written(), slice.capacity, SeqBytes(ops, OpBytes), err)
  {
    ghost var w0, cap := slice.Written(), slice.capacity;
    err := StartSeq(slice, |ops|);
    CountingStart(w0, slice.Written(), cap, ops, OpBytes, err);
    var i := 0;
    while i < |ops|
      invariant slice.Valid() && 0 <= i <= |ops|
      invariant Counting(w0, slice.Written(), cap, ops, OpBytes, i, err)
    {
      ghost var w, before := slice.Written(), err;
      err := EncodeOp(slice, ops[i]);
      CountingStep(w0, w, slice.Written(), cap, ops, OpBytes, i, before, err);
      if err != Success {
        return err;
      }
      i := i + 1;
    }
    CountingDone(w0, slice.Written(), cap, ops, OpBytes, err);
  }

  method EncodeFields(slice: Slice, fields: seq<Field>) returns (err: Status)
    requires slice.Valid() && |fields| < Bytes.U64 && (forall i | 0 <= i < |fields| :: FieldOk(fields[i]))
    modifies slice, slice.data
    ensures slice.Valid() && Encoded(old(slice.Written()), slice.Written(), slice.capacity, SeqBytes(fields, FieldBytes), err)
  {
    ghost var w0, cap := slice.Written(), slice.capacity;
    err := StartSeq(slice, |fields|);
    CountingStart(w0, slice.Written(), cap, fields, FieldBytes, err);
    var i := 0;
    while i < |fields|
      invariant slice.Valid() && 0 <= i <= |fields|
      invariant Counting(w0, slice.Written(), cap, fields, FieldBytes, i, err)
    {
      ghost var w, before := slice.Written(), err;
      err := EncodeField(slice, fields[i]);
      CountingStep(w0, w, slice.Written(), cap, fields, FieldBytes, i, before, err);
      if err != Success {
        return err;
      }
      i := i + 1;
    }
    CountingDone(w0, slice.Written(), cap, fields, FieldBytes, err);
  }

  method EncodeData(slice: Slice, bytes: seq<byte>) returns (err: Status)
    requires slice.Valid() && |bytes| < Bytes.U64
    modifies slice, slice.data
    ensures slice.Valid() && Encoded(old(slice.Written()), slice.Written(), slice.capacity, SeqBytes(bytes, ByteBytes), err)
  {
    ghost var w0, cap := slice.Written(), slice.capacity;
    err := StartSeq(slice, |bytes|);
    CountingStart(w0, slice.Written(), cap, bytes, ByteBytes, err);
    var i := 0;
    while i < |bytes|
      invariant slice.Valid() && 0 <= i <= |bytes|
      invariant Counting(w0, slice.Written(), cap, bytes, ByteBytes, i, err)
    {
      ghost var w, before := slice.Written(), err;
      err := EncodeByte(slice, bytes[i]);
      CountingStep(w0, w, slice.Written(), cap, bytes, ByteBytes, i, before, err);
      if err != Success {
        return err;
      }
      i := i + 1;
    }
    CountingDone(w0, slice.Written(), cap, bytes, ByteBytes, err);
  }

  // ---------------------------------------------------------------- the whole message

  /** Succeeds exactly when the message fits, although results are overwritten on the way. */
  method EncodeMessage(slice: Slice, v: VTable) returns (err: Status)
    requires slice.Valid() && MessageOk(v)
    modifies slice, slice.data
    ensures slice.Valid() && Encoded(old(slice.Written()), slice.Written(), slice.capacity, MessageBytes(v), err)
  {
    ghost var w0, cap := slice.Written(), slice.capacity;
    ghost var a, b, c := SeqBytes(v.ops, OpBytes), SeqBytes(v.fields, FieldBytes), SeqBytes(v.data, ByteBytes);
    err := EncodeOps(slice, v.ops);
    ghost var w1 := slice.Written();
    if err != Success {
      EncodedStops(w0, w1, cap, a, b + c, err);
      return err;
    }
    err := EncodeFields(slice, v.fields);
    ghost var w2 := slice.Written();
    if err != Success {
      EncodedStops(w1, w2, cap, b, c, err);
      EncodedChain(w0, w1, w2, cap, a, b + c, err);
      return err;
    }
    err := EncodeData(slice, v.data);
    EncodedChain(w1, w2, slice.Written(), cap, b, c, err);
    EncodedChain(w0, w1, slice.Written(), cap, a, b + c, err);
  }

  /** A vector of the computed size is always filled exactly, so it is never cleared. */
  method EncodeVec(v: VTable) returns (vec: seq<byte>)
    requires MessageOk(v)
    ensures vec == MessageBytes(v)
  {
    var size := EncodedSize(v);
    var buffer := new byte[size];
    var slice := new Slice(buffer, size);
    assert slice.Written() == [];
    var err := EncodeMessage(slice, v);
    if err == Success {
      vec := slice.data[..slice.len];
    } else {
      vec := [];
    }
  }

  // ---------------------------------------------------------------- decoding from a slice

  method ReadU16(slice: Slice) returns (err: Status, v: nat)
    requires slice.Valid()
    modifies slice
    ensures slice.Valid() && (err, v, slice.Rest()) == DecodeU16(old(slice.Rest()))
  {
    err, v := slice.DecodeVarint(3);
    if err == Success && v >= Bytes.U16 {
      err := Overflow;
    }
  }

  method ReadByte(slice: Slice, junk: byte) returns (err: Status, b: byte)
    requires slice.Valid()
    modifies slice
    ensures slice.Valid() && (err, b, slice.Rest()) == DecodeByte(old(slice.Rest()), junk)
  {
    err, b := slice.DecodeU8();
    if err != Success {
      b := junk;
    }
  }

  method ReadPair(slice: Slice) returns (err: Status, p: (nat, nat))
    requires slice.Valid()
    modifies slice
    ensures slice.Valid() && (err, p, slice.Rest()) == DecodePair(old(slice.Rest()))
  {
    var x, y;
    err, x := ReadU16(slice);
    if err != Success {
      return err, (0, 0);
    }
    err, y := ReadU16(slice);
    p := (x, y);
  }

  method ReadSchema(slice: Slice) returns (err: Status, op: Op)
    requires slice.Valid()
    modifies slice
    ensures slice.Valid() && (err, op, slice.Rest()) == DecodeSchema(old(slice.Rest()))
  {
    var p, arg;
    err, p := ReadPair(slice);
    if err != Success {
      return err, DEFAULT_OP;
    }
    err, arg := ReadU16(slice);
    op := if err == Success then Schema(p.0, p.1, arg) else DEFAULT_OP;
  }

  method ReadExt(slice: Slice) returns (err: Status, op: Op)
    requires slice.Valid()
    modifies slice
    ensures slice.Valid() && (err, op, slice.Rest()) == DecodeExt(old(slice.Rest()))
  {
    var arg, id0, id1, data;
    err, arg := ReadU16(slice);
    if err != Success {
      return err, DEFAULT_OP;
    }
    err, id0 := ReadByte(slice, 0);
    err, id1 := ReadByte(slice, 0);
    if err != Success {
      return err, DEFAULT_OP;
    }
    err, data := ReadU16(slice);
    op := if err == Success then Ext(arg, (id0, id1), data) else DEFAULT_OP;
  }

  method ReadOp(slice: Slice) returns (err: Status, op: Op)
    requires slice.Valid()
    modifies slice
    ensures slice.Valid() && (err, op, slice.Rest()) == DecodeOp(old(slice.Rest()))
  {
    var tag, id, p;
    op := DEFAULT_OP;
    err, tag := ReadByte(slice, 0);
    if err != Success {
      return err, op;
    }
    if tag == 0 {
      err, p := ReadPair(slice);
      op := if err == Success then Data(p.0, p.1) else op;
    } else if tag == 1 {
      err, p := ReadPair(slice);
      op := if err == Success then Table(p.0, p.1) else op;
    } else if tag == 2 {
      op := NoOp;
    } else if tag == 3 {
      err, id := ReadU16(slice);
      op := if err == Success then Component(id) else op;
    } else if tag == 4 {
      err, op := ReadSchema(slice);
    } else if tag == 5 {
      err, p := ReadPair(slice);
      op := if err == Success then Timestamp(p.0, p.1) else op;
    } else if tag == 6 {
      err, op := ReadExt(slice);
    } else {
      err := InvalidInput;
    }
  }

  method ReadField(slice: Slice, junk: Field) returns (err: Status, f: Field)
    requires slice.Valid()
    modifies slice
    ensures slice.Valid() && (err, f, slice.Rest()) == DecodeField(old(slice.Rest()), junk)
  {
    var x;
    f := junk;
    err, x := ReadU16(slice);
    if err != Success {
      return err, f;
    }
    f := f.(offset := x);
    err, x := ReadU16(slice);
    if err != Success {
      return err, f;
    }
    f := f.(len := x);
    err, x := ReadU16(slice);
    if err == Success {
      f := f.(arg := x);
    }
  }

  /** Part way through a decoding loop: what is left to decode completes what is there. */
  ghost predicate Decoding<T(!new)>(
    whole: (Status, seq<T>, seq<byte>), n: nat, buf: seq<byte>, err: Status, xs: seq<T>,
    decode: seq<byte> -> (Status, T, seq<byte>))
  {
    var (e, ys, r) := DecodeSeq(n, buf, err, decode);
    whole == (e, xs + ys, r)
  }

  lemma {:induction false} DecodingStep<T(!new)>(
    whole: (Status, seq<T>, seq<byte>), n: nat, buf: seq<byte>, err: Status, xs: seq<T>,
    decode: seq<byte> -> (Status, T, seq<byte>))
    requires n > 0 && Decoding(whole, n, buf, err, xs, decode)
    ensures var (e, x, r) := decode(buf);
            Decoding(whole, n - 1, r, e, xs + [x], decode)
  {
    var (e, x, r) := decode(buf);
    Assoc(xs, [x], DecodeSeq(n - 1, r, e, decode).1);
  }

  lemma {:induction false} DecodingStart<T(!new)>(
    n: nat, buf: seq<byte>, err: Status, decode: seq<byte> -> (Status, T, seq<byte>))
    ensures Decoding(DecodeSeq(n, buf, err, decode), n, buf, err, [], decode)
  {
    var ys := DecodeSeq(n, buf, err, decode).1;
    assert [] + ys == ys;
  }

  lemma {:induction false} DecodingDone<T(!new)>(
    whole: (Status, seq<T>, seq<byte>), buf: seq<byte>, err: Status, xs: seq<T>,
    decode: seq<byte> -> (Status, T, seq<byte>))
    requires Decoding(whole, 0, buf, err, xs, decode)
    ensures whole == (err, xs, buf)
  {
    assert xs + [] == xs;
  }

  method ReadOpsLoop(slice: Slice, n: nat) returns (err: Status, ops: seq<Op>)
    requires slice.Valid()
    modifies slice
    ensures slice.Valid() && (err, ops, slice.Rest()) == DecodeSeq(n, old(slice.Rest()), Success, DecodeOp)
  {
    var i, op := 0, DEFAULT_OP;
    err, ops := Success, [];
    ghost var whole := DecodeSeq(n, slice.Rest(), Success, DecodeOp);
    DecodingStart(n, slice.Rest(), Success, DecodeOp);
    while i < n
      invariant slice.Valid() && 0 <= i <= n
      invariant Decoding(whole, n - i, slice.Rest(), err, ops, DecodeOp)
    {
      DecodingStep(whole, n - i, slice.Rest(), err, ops, DecodeOp);
      err, op := ReadOp(slice);
      ops := ops + [op];
      i := i + 1;
    }
    DecodingDone(whole, slice.Rest(), err, ops, DecodeOp);
  }

  method ReadOps(slice: Slice) returns (err: Status, ops: seq<Op>)
    requires slice.Valid()
    modifies slice
    ensures slice.Valid() && (err, ops, slice.Rest()) == DecodeCounted(old(slice.Rest()), DecodeOp)
  {
    var n;
    err, n := slice.DecodeVarint(10);
    if err != Success {
      return err, [];
    }
    err, ops := ReadOpsLoop(slice, n);
  }

  method ReadFieldsLoop(slice: Slice, n: nat, junk: Field) returns (err: Status, fields: seq<Field>)
    requires slice.Valid()
    modifies slice
    ensures slice.Valid() && (err, fields, slice.Rest()) == DecodeSeq(n, old(slice.Rest()), Success, FieldDecoder(junk))
  {
    var i, f := 0, junk;
    err, fields := Success, [];
    ghost var whole := DecodeSeq(n, slice.Rest(), Success, FieldDecoder(junk));
    DecodingStart(n, slice.Rest(), Success, FieldDecoder(junk));
    while i < n
      invariant slice.Valid() && 0 <= i <= n
      invariant Decoding(whole, n - i, slice.Rest(), err, fields, FieldDecoder(junk))
    {
      DecodingStep(whole, n - i, slice.Rest(), err, fields, FieldDecoder(junk));
      err, f := ReadField(slice, junk);
      fields := fields + [f];
      i := i + 1;
    }
    DecodingDone(whole, slice.Rest(), err, fields, FieldDecoder(junk));
  }

  method ReadFields(slice: Slice, junk: Field) returns (err: Status, fields: seq<Field>)
    requires slice.Valid()
    modifies slice
    ensures slice.Valid() && (err, fields, slice.Rest()) == DecodeCounted(old(slice.Rest()), FieldDecoder(junk))
  {
    var n;
    err, n := slice.DecodeVarint(10);
    if err != Success {
      return err, [];
    }
    err, fields := ReadFieldsLoop(slice, n, junk);
  }

  method ReadDataLoop(slice: Slice, n: nat, junk: byte) returns (err: Status, bytes: seq<byte>)
    requires slice.Valid()
    modifies slice
    ensures slice.Valid() && (err, bytes, slice.Rest()) == DecodeSeq(n, old(slice.Rest()), Success, ByteDecoder(junk))
  {
    var i, b := 0, junk;
    err, bytes := Success, [];
    ghost var whole := DecodeSeq(n, slice.Rest(), Success, ByteDecoder(junk));
    DecodingStart(n, slice.Rest(), Success, ByteDecoder(junk));
    while i < n
      invariant slice.Valid() && 0 <= i <= n
      invariant Decoding(whole, n - i, slice.Rest(), err, bytes, ByteDecoder(junk))
    {
      DecodingStep(whole, n - i, slice.Rest(), err, bytes, ByteDecoder(junk));
      err, b := ReadByte(slice, junk);
      bytes := bytes + [b];
      i := i + 1;
    }
    DecodingDone(whole, slice.Rest(), err, bytes, ByteDecoder(junk));
  }

  method ReadData(slice: Slice, junk: byte) returns (err: Status, bytes: seq<byte>)
    requires slice.Valid()
    modifies slice
    ensures slice.Valid() && (err, bytes, slice.Rest()) == DecodeCounted(old(slice.Rest()), ByteDecoder(junk))
  {
    var n;
    err, n := slice.DecodeVarint(10);
    if err != Success {
      return err, [];
    }
    err, bytes := ReadDataLoop(slice, n, junk);
  }

  method ReadMessage(slice: Slice, junk: Field, junkByte: byte) returns (err: Status, v: VTable)
    requires slice.Valid()
    modifies slice
    ensures slice.Valid() && (err, v, slice.Rest()) == DecodeMessage(old(slice.Rest()), junk, junkByte)
  {
    var ops, fields, bytes;
    err, ops := ReadOps(slice);
    if err != Success {
      return err, VTable(ops, [], []);
    }
    err, fields := ReadFields(slice, junk);
    if err != Success {
      return err, VTable(ops, fields, []);
    }
    err, bytes := ReadData(slice, junkByte);
    v := VTable(ops, fields, bytes);
  }

  /** From one side to the other: a vtable put into a vector is read back from it, all of it. */
  method SendAndReceive(v: VTable, junk: Field, junkByte: byte) returns (err: Status, out: VTable)
    requires MessageOk(v)
    ensures err == Success && out == v
  {
    var vec := EncodeVec(v);
    var buffer := new byte[|vec|](i requires 0 <= i < |vec| => vec[i]);
    var slice := new Slice(buffer, |vec|);
    assert slice.Rest() == MessageBytes(v) + [];
    MessageRoundTrip(v, [], junk, junkByte);
    err, out := ReadMessage(slice, junk, junkByte);
  }
}

/**
 What the decoder of vtable messages makes of any bytes, said without following it: a tag, numbers in
 a row, and bytes.
 */
module VTableDecoding {
  import opened Arithmetic
  import opened Bytes
  import opened Postcard
  import opened VTables
  import opened VTableMessage

  /** A 16-bit number in front: at most three bytes, the last without the top bit. */
  function Number(buf: seq<byte>): Option<(nat, seq<byte>)> {
    var b := UpToLast(buf);
    if Ends(b) && |b| <= 3 && Septets(b) < Bytes.U16 then Some((Septets(b), buf[|b|..])) else None
  }

  /** `n` numbers in a row, or none if any is missing. */
  function Numbers(buf: seq<byte>, n: nat): (r: Option<(seq<nat>, seq<byte>)>)
    ensures r.Some? ==> |r.value.0| == n
  {
    if n == 0 then Some(([], buf))
    else
      match Number(buf)
      case None => None
      case Some((x, rest)) =>
        match Numbers(rest, n - 1)
        case None => None
        case Some((xs, rest)) => Some(([x] + xs, rest))
  }

  /** An operation in front, by its tag. */
  function Operation(buf: seq<byte>): Option<(Op, seq<byte>)> {
    if buf == [] || buf[0] > 6 then None
    else if buf[0] == 6 then Extension(buf[1..])
    else
      match Numbers(buf[1..], [2, 2, 0, 1, 3, 2][buf[0]])
      case None => None
      case Some((xs, rest)) => Some((OfKind(buf[0], xs), rest))
  }

  function OfKind(tag: byte, xs: seq<nat>): Op
    requires tag < 6
  {
    if tag == 0 && |xs| == 2 then Data(xs[0], xs[1])
    else if tag == 1 && |xs| == 2 then Table(xs[0], xs[1])
    else if tag == 3 && |xs| == 1 then Component(xs[0])
    else if tag == 4 && |xs| == 3 then Schema(xs[0], xs[1], xs[2])
    else if tag == 5 && |xs| == 2 then VTables.Timestamp(xs[0], xs[1])
    else NoOp
  }

  /** A number, two bytes and another number. */
  function Extension(buf: seq<byte>): Option<(Op, seq<byte>)> {
    match Number(buf)
    case None => None
    case Some((arg, rest)) =>
      if |rest| < 2 then None
      else
        match Number(rest[2..])
        case None => None
        case Some((data, after)) => Some((Ext(arg, (rest[0], rest[1]), data), after))
  }

  lemma NumberExact(buf: seq<byte>)
    ensures DecodeU16(buf).0 == Success <==> Number(buf).Some?
    ensures Number(buf).Some? ==> (DecodeU16(buf).1, DecodeU16(buf).2) == Number(buf).value
  {
    DecodeUnsignedExact(buf, W16);
    SmallSeptets(UpToLast(buf));
  }

  /** Three bytes never reach 64 bits. */
  lemma {:induction false} SmallSeptets(b: seq<byte>)
    ensures |b| == 0 ==> Septets(b) == 0
    ensures |b| <= 1 ==> Septets(b) < 0x80
    ensures |b| <= 2 ==> Septets(b) < 0x4000
    ensures |b| <= 3 ==> Septets(b) < 0x20_0000
  {
    if b != [] {
      SmallSeptets(b[1..]);
    }
  }

  lemma OneNumber(buf: seq<byte>)
    ensures Numbers(buf, 1) ==
              match Number(buf) case None => None case Some((x, rest)) => Some(([x], rest))
  {
    if Number(buf).Some? {
      var (x, rest) := Number(buf).value;
      assert Numbers(rest, 0) == Some(([], rest)) && [x] + [] == [x];
    }
  }

  lemma TwoNumbers(buf: seq<byte>)
    ensures DecodePair(buf).0 == Success <==> Numbers(buf, 2).Some?
    ensures Numbers(buf, 2).Some? ==>
              var (xs, rest) := Numbers(buf, 2).value;
              xs == [DecodePair(buf).1.0, DecodePair(buf).1.1] && rest == DecodePair(buf).2
  {
    NumberExact(buf);
    if Number(buf).Some? {
      var rest := Number(buf).value.1;
      NumberExact(rest);
      OneNumber(rest);
    }
  }

  lemma ThreeNumbers(buf: seq<byte>)
    ensures DecodeSchema(buf).0 == Success <==> Numbers(buf, 3).Some?
    ensures Numbers(buf, 3).Some? ==>
              var (xs, rest) := Numbers(buf, 3).value;
              |xs| == 3 && DecodeSchema(buf).1 == Schema(xs[0], xs[1], xs[2]) && rest == DecodeSchema(buf).2
    ensures DecodeSchema(buf).0 != Success ==> DecodeSchema(buf).1 == DEFAULT_OP
  {
    NumberExact(buf);
    if Number(buf).Some? {
      var r1 := Number(buf).value.1;
      NumberExact(r1);
      if Number(r1).Some? {
        var r2 := Number(r1).value.1;
        NumberExact(r2);
        OneNumber(r2);
      }
    }
  }

  lemma ExtensionExact(buf: seq<byte>)
    ensures DecodeExt(buf).0 == Success <==> Extension(buf).Some?
    ensures Extension(buf).Some? ==> (DecodeExt(buf).1, DecodeExt(buf).2) == Extension(buf).value
    ensures DecodeExt(buf).0 != Success ==> DecodeExt(buf).1 == DEFAULT_OP
  {
    NumberExact(buf);
    if Number(buf).Some? {
      var rest := Number(buf).value.1;
      if |rest| >= 2 {
        assert rest[1..][1..] == rest[2..];
        NumberExact(rest[2..]);
      }
    }
  }

  /**
   Any bytes decode to an operation if and only if there is one in front, tag, numbers and all; then it
   is that one and what follows is left, and otherwise a default one takes its place.
   */
  lemma DecodeOpExact(buf: seq<byte>)
    ensures DecodeOp(buf).0 == Success <==> Operation(buf).Some?
    ensures Operation(buf).Some? ==> (DecodeOp(buf).1, DecodeOp(buf).2) == Operation(buf).value
    ensures DecodeOp(buf).0 != Success ==> DecodeOp(buf).1 == Data(0, 0)
  {
    if buf != [] {
      var tail := buf[1..];
      if buf[0] == 6 {
        ExtensionExact(tail);
      } else if buf[0] == 4 {
        ThreeNumbers(tail);
      } else if buf[0] == 3 {
        OneNumber(tail);
        NumberExact(tail);
      } else {
        TwoNumbers(tail);
      }
    }
  }

  /** Numbers in a row, up to three of them, from those one by one. */
  lemma NumbersInRow(buf: seq<byte>)
    ensures Numbers(buf, 1).Some? <==> Number(buf).Some?
    ensures Numbers(buf, 2).Some? <==> Number(buf).Some? && Number(Number(buf).value.1).Some?
    ensures Numbers(buf, 3).Some? <==> Numbers(buf, 2).Some? && Number(Number(Number(buf).value.1).value.1).Some?
    ensures Numbers(buf, 1).Some? ==> Numbers(buf, 1).value == ([Number(buf).value.0], Number(buf).value.1)
    ensures Numbers(buf, 2).Some? ==>
              var (y, r2) := Number(Number(buf).value.1).value;
              Numbers(buf, 2).value == ([Number(buf).value.0, y], r2)
    ensures Numbers(buf, 3).Some? ==>
              var (y, r2) := Number(Number(buf).value.1).value;
              var (z, r3) := Number(r2).value;
              Numbers(buf, 3).value == ([Number(buf).value.0, y, z], r3)
  {
    OneNumber(buf);
    if Number(buf).Some? {
      var (x, r1) := Number(buf).value;
      OneNumber(r1);
      if Number(r1).Some? {
        var (y, r2) := Number(r1).value;
        OneNumber(r2);
        assert [x] + [y] == [x, y];
        assert Number(r2).Some? ==> [x] + ([y] + [Number(r2).value.0]) == [x, y, Number(r2).value.0];
      }
    }
  }

  /** A field is three numbers; of one that breaks off, those read are kept. */
  lemma DecodeFieldExact(buf: seq<byte>, junk: Field)
    ensures var (err, f, rest) := DecodeField(buf, junk);
            && (err == Success <==> Numbers(buf, 3).Some?)
            && (err == Success ==> Numbers(buf, 3).value == ([f.offset, f.len, f.arg], rest))
            && f.offset == (if Numbers(buf, 1).Some? then Numbers(buf, 1).value.0[0] else junk.offset)
            && f.len == (if Numbers(buf, 2).Some? then Numbers(buf, 2).value.0[1] else junk.len)
            && (err != Success ==> f.arg == junk.arg)
  {
    NumbersInRow(buf);
    NumberExact(buf);
    if Number(buf).Some? {
      var r1 := Number(buf).value.1;
      NumberExact(r1);
      if Number(r1).Some? {
        NumberExact(Number(r1).value.1);
      }
    }
  }

  // ---------------------------------------------------------------- sequences and messages

  lemma {:induction false} SeqElements<T>(n: nat, buf: seq<byte>, err: Status, decode: seq<byte> -> (Status, T, seq<byte>), i: nat)
    requires i < n
    ensures |DecodeSeq(n, buf, err, decode).1| == n
    ensures DecodeSeq(n, buf, err, decode).1[i] == decode(Skip(i, buf, decode)).1
    ensures DecodeSeq(n, buf, err, decode).2 == Skip(n, buf, decode)
  {
    var (e, x, r) := decode(buf);
    if i > 0 {
      SeqElements(n - 1, r, e, decode, i - 1);
    } else if n > 1 {
      SeqElements(n - 1, r, e, decode, 0);
    }
  }

  /**
   A counted sequence: each element is what its bytes decode to, whether they did or not; it is accepted
   if and only if its count can be read and its last element, if it has any, decodes.
   */
  lemma CountedExact<T>(buf: seq<byte>, decode: seq<byte> -> (Status, T, seq<byte>))
    ensures var b := UpToLast(buf);
            var (err, xs, rest) := DecodeCounted(buf, decode);
            var counted, n := Ends(b) && |b| <= 10, Septets(b) % Bytes.U64;
            && (!counted ==> err != Success && xs == [])
            && (counted ==>
                  && |xs| == n && rest == Skip(n, buf[|b|..], decode)
                  && (forall i | 0 <= i < n :: xs[i] == decode(Skip(i, buf[|b|..], decode)).1)
                  && (err == Success <==> n == 0 || decode(Skip(n - 1, buf[|b|..], decode)).0 == Success))
  {
    ReadVarintExact(buf, 10, 0, 0);
    assert Pow2(0) == 1 && Room(10, 0) == 10;
    var b := UpToLast(buf);
    var n := Septets(b) % Bytes.U64;
    if Ends(b) && |b| <= 10 {
      var tail := buf[|b|..];
      forall i | 0 <= i < n
        ensures |DecodeSeq(n, tail, Success, decode).1| == n
        ensures DecodeSeq(n, tail, Success, decode).1[i] == decode(Skip(i, tail, decode)).1
      {
        SeqElements(n, tail, Success, decode, i);
      }
      if n > 0 {
        SeqElements(n, tail, Success, decode, 0);
        LastDecides(n, tail, Success, decode);
      }
    }
  }

  /** A message is accepted if and only if its three sequences are; those after one that is not stay empty. */
  lemma DecodeMessageExact(buf: seq<byte>, junk: Field, junkByte: byte)
    ensures var (err, v, rest) := DecodeMessage(buf, junk, junkByte);
            var (e1, ops, r1) := DecodeCounted(buf, DecodeOp);
            var (e2, fields, r2) := DecodeCounted(r1, FieldDecoder(junk));
            var (e3, data, r3) := DecodeCounted(r2, ByteDecoder(junkByte));
            && (err == Success <==> e1 == Success && e2 == Success && e3 == Success)
            && v.ops == ops
            && v.fields == (if e1 == Success then fields else [])
            && v.data == (if e1 == Success && e2 == Success then data else [])
            && (err == Success ==> rest == r3)
  {
  }
}

/**
 The Postcard codec: variable-length integers (the unsigned form is the ULEB128 of section 7.6 of
 DWARF version 5), zigzag for signed ones, and byte arrays, over a slice that encoders extend and
 decoders advance through.
 */
module Postcard {
  import opened Arithmetic
  import opened Bytes

  datatype Status = Success | BufferTooSmall | InvalidInput | IncompleteData | Overflow

  // ---------------------------------------------------------------- unsigned

  /** Seven bits at a time, least significant first, the top bit saying that more follow. */
  function Varint(v: nat): (b: seq<byte>)
    ensures |b| >= 1
  {
    if v < 0x80 then [v] else [v % 0x80 + 0x80] + Varint(v / 0x80)
  }

  function VarintSize(v: nat): nat {
    if v < 0x80 then 1
    else if v < 0x4000 then 2
    else if v < 0x200000 then 3
    else if v < 0x10000000 then 4
    else if v < 0x800000000 then 5
    else if v < 0x40000000000 then 6
    else if v < 0x2000000000000 then 7
    else if v < 0x100000000000000 then 8
    else if v < 0x8000000000000000 then 9
    else 10
  }

  lemma VarintStep(v: nat)
    requires 0x80 <= v < U64
    ensures VarintSize(v) == 1 + VarintSize(v / 0x80)
  {
  }

  /** The size function tells how many bytes are written. */
  lemma {:induction false} VarintLength(v: nat)
    requires v < U64
    ensures |Varint(v)| == VarintSize(v)
  {
    if v >= 0x80 {
      VarintLength(v / 0x80);
      VarintStep(v);
    }
  }

  /** Bitwise or. */
  function Or(x: nat, y: nat): nat
    decreases x + y
  {
    if x == 0 then y
    else if y == 0 then x
    else 2 * Or(x / 2, y / 2) + (if x % 2 == 1 || y % 2 == 1 then 1 else 0)
  }

  /** Decoding from a given shift on; the slice advances over every byte looked at. */
  function ReadVarint(buf: seq<byte>, maxBytes: nat, shift: nat, acc: nat): (Status, nat, seq<byte>)
    decreases |buf|
  {
    if maxBytes == 0 then (Overflow, acc, buf)
    else if buf == [] then (IncompleteData, acc, buf)
    else
      var value := Or(acc, (buf[0] % 0x80) * Pow2(shift) % U64);
      if buf[0] < 0x80 then (Success, value, buf[1..])
      else if shift + 7 > 63 then (Overflow, value, buf[1..])
      else ReadVarint(buf[1..], maxBytes - 1, shift + 7, value)
  }

  /** Above all set bits, or is addition. */
  lemma {:induction false} OrIsAdd(x: nat, y: nat, k: nat)
    requires x < Pow2(k)
    ensures Or(x, y * Pow2(k)) == x + y * Pow2(k)
  {
    if k > 0 && x > 0 && y > 0 {
      var h := y * Pow2(k - 1);
      assert y * Pow2(k) == 2 * h;
      OrIsAdd(x / 2, y, k - 1);
      assert h > 0;
    }
  }

  lemma Weigh(lo: nat, hi: nat, w: nat)
    ensures (lo + 0x80 * hi) * w == lo * w + hi * (0x80 * w)
  {
  }

  lemma WeighAtMost(lo: nat, top: nat, w: nat)
    requires lo <= top
    ensures 0 <= lo * w <= top * w
  {
    assert (top - lo) * w >= 0;
  }

  /** Splitting off the low seven bits, at weight `w`. */
  lemma SplitWeight(v: nat, w: nat)
    ensures v * w == (v % 0x80) * w + (v / 0x80) * (0x80 * w)
    ensures 0 <= (v % 0x80) * w <= 0x7f * w && 0 <= (v / 0x80) * (0x80 * w)
    ensures v >= 0x80 ==> 0x80 * w <= (v / 0x80) * (0x80 * w)
  {
    Weigh(v % 0x80, v / 0x80, w);
    WeighAtMost(v % 0x80, 0x7f, w);
    WeighAtMost(0, v / 0x80, 0x80 * w);
    if v >= 0x80 {
      WeighAtMost(1, v / 0x80, 0x80 * w);
    }
  }

  /** One byte read: its seven bits land at the shift, nothing lost. */
  lemma ReadBits(v: nat, shift: nat, acc: nat)
    requires acc < Pow2(shift) && v * Pow2(shift) < U64
    ensures Or(acc, (v % 0x80) * Pow2(shift) % U64) == acc + (v % 0x80) * Pow2(shift)
  {
    SplitWeight(v, Pow2(shift));
    OrIsAdd(acc, v % 0x80, shift);
    SmallMod((v % 0x80) * Pow2(shift));
  }

  lemma SmallMod(x: nat)
    requires x < U64
    ensures x % U64 == x
  {
  }

  lemma ShiftStays(shift: nat)
    requires Pow2(shift + 7) < U64
    ensures shift + 7 <= 63
  {
    WordPower();
    if shift + 7 > 63 {
      PowGrows(64, shift + 7);
    }
  }

  lemma NextShift(v: nat, shift: nat, acc: nat)
    requires acc < Pow2(shift) && v * Pow2(shift) < U64
    ensures var value := acc + (v % 0x80) * Pow2(shift);
            && value < Pow2(shift + 7)
            && value + (v / 0x80) * Pow2(shift + 7) == acc + v * Pow2(shift)
            && (v / 0x80) * Pow2(shift + 7) < U64
            && (v >= 0x80 ==> shift + 7 <= 63)
  {
    var w := Pow2(shift);
    SplitWeight(v, w);
    Weight7(shift);
    if v >= 0x80 {
      ShiftStays(shift);
    }
  }

  lemma Weight7(shift: nat)
    ensures Pow2(shift + 7) == 0x80 * Pow2(shift)
  {
    SmallPowers();
    PowAdds(shift, 7);
  }

  lemma {:induction false} ReadOne(buf: seq<byte>, maxBytes: nat, shift: nat, acc: nat, value: nat)
    requires buf != [] && maxBytes > 0 && Or(acc, (buf[0] % 0x80) * Pow2(shift) % U64) == value
    ensures buf[0] < 0x80 ==> ReadVarint(buf, maxBytes, shift, acc) == (Success, value, buf[1..])
    ensures buf[0] >= 0x80 && shift + 7 <= 63 ==>
              ReadVarint(buf, maxBytes, shift, acc) == ReadVarint(buf[1..], maxBytes - 1, shift + 7, value)
  {
  }

  lemma {:induction false} VarintUnfolds(v: nat)
    requires v >= 0x80
    ensures Varint(v) == [v % 0x80 + 0x80] + Varint(v / 0x80)
  {
  }

  lemma ConsHead<T>(x: T, tail: seq<T>, rest: seq<T>)
    ensures ([x] + tail + rest)[0] == x && ([x] + tail + rest)[1..] == tail + rest
  {
  }

  lemma AppendHead<T>(before: seq<T>, x: T, tail: seq<T>)
    ensures before + ([x] + tail) == (before + [x]) + tail
  {
  }

  lemma {:induction false} ReadContinues(v: nat, rest: seq<byte>, maxBytes: nat, shift: nat, acc: nat, value: nat)
    requires v >= 0x80 && maxBytes > 0 && shift + 7 <= 63
    requires Or(acc, (v % 0x80) * Pow2(shift) % U64) == value
    ensures ReadVarint(Varint(v) + rest, maxBytes, shift, acc)
            == ReadVarint(Varint(v / 0x80) + rest, maxBytes - 1, shift + 7, value)
  {
    VarintUnfolds(v);
    ConsHead(v % 0x80 + 0x80, Varint(v / 0x80), rest);
    var b := v % 0x80 + 0x80;
    assert b % 0x80 == v % 0x80;
    ReadOne(Varint(v) + rest, maxBytes, shift, acc, value);
  }

  /** One byte of a longer number. */
  lemma {:induction false} ReadMore(v: nat, rest: seq<byte>, maxBytes: nat, shift: nat, acc: nat) returns (value: nat)
    requires acc < Pow2(shift) && v * Pow2(shift) < U64 && |Varint(v)| <= maxBytes && v >= 0x80
    ensures |Varint(v / 0x80)| <= maxBytes - 1
    ensures value < Pow2(shift + 7) && (v / 0x80) * Pow2(shift + 7) < U64
    ensures value + (v / 0x80) * Pow2(shift + 7) == acc + v * Pow2(shift)
    ensures ReadVarint(Varint(v) + rest, maxBytes, shift, acc)
            == ReadVarint(Varint(v / 0x80) + rest, maxBytes - 1, shift + 7, value)
  {
    value := acc + (v % 0x80) * Pow2(shift);
    VarintUnfolds(v);
    ReadBits(v, shift, acc);
    NextShift(v, shift, acc);
    ReadContinues(v, rest, maxBytes, shift, acc, value);
  }

  lemma {:induction false} ReadLast(v: nat, rest: seq<byte>, maxBytes: nat, shift: nat, acc: nat)
    requires acc < Pow2(shift) && v * Pow2(shift) < U64 && 0 < maxBytes && v < 0x80
    ensures ReadVarint(Varint(v) + rest, maxBytes, shift, acc) == (Success, acc + v * Pow2(shift), rest)
  {
    assert (Varint(v) + rest)[0] == v && (Varint(v) + rest)[1..] == rest;
    ReadBits(v, shift, acc);
    ReadOne(Varint(v) + rest, maxBytes, shift, acc, acc + v * Pow2(shift));
  }

  /** Reading what was written, from any shift on. */
  lemma {:induction false} ReadInvertsVarint(v: nat, rest: seq<byte>, maxBytes: nat, shift: nat, acc: nat)
    requires acc < Pow2(shift) && v * Pow2(shift) < U64 && |Varint(v)| <= maxBytes
    ensures ReadVarint(Varint(v) + rest, maxBytes, shift, acc) == (Success, acc + v * Pow2(shift), rest)
    decreases v
  {
    if v < 0x80 {
      ReadLast(v, rest, maxBytes, shift, acc);
    } else {
      var value := ReadMore(v, rest, maxBytes, shift, acc);
      ReadInvertsVarint(v / 0x80, rest, maxBytes - 1, shift + 7, value);
    }
  }

  // ---------------------------------------------------------------- decoding exactly

  /** Seven bits a byte, least significant first, of any bytes at all. */
  function Septets(b: seq<byte>): nat {
    if b == [] then 0 else b[0] % 0x80 + 0x80 * Septets(b[1..])
  }

  /** The bytes up to and including the first without the top bit; all of them if there is none. */
  function UpToLast(buf: seq<byte>): (b: seq<byte>)
    ensures b <= buf
  {
    if buf == [] then [] else if buf[0] < 0x80 then [buf[0]] else [buf[0]] + UpToLast(buf[1..])
  }

  predicate Ends(b: seq<byte>) {
    b != [] && b[|b| - 1] < 0x80
  }

  /** How many bytes are read at most from a shift on. */
  function Room(maxBytes: nat, shift: nat): nat
    requires shift <= 63
  {
    var most := (63 - shift) / 7 + 1;
    if maxBytes < most then maxBytes else most
  }

  /** Of a number shifted left in 64 bits, what is lost are whole multiples. */
  lemma ShiftedModulo(y: nat, w: nat, m: nat)
    requires w > 0 && m > 0 && w * m == U64
    ensures (y * w) % U64 == (y % m) * w
  {
    var r := y % m;
    assert y * w == (y / m) * U64 + r * w by {
      assert (y / m * m + r) * w == (y / m) * (m * w) + r * w;
    }
    WeighAtMost(r, m - 1, w);
    assert (m - 1) * w == U64 - w;
    ModOf(y * w, y / m, U64, r * w);
  }

  lemma Complement(shift: nat) returns (m: nat)
    requires shift <= 63
    ensures m > 0 && Pow2(shift) * m == U64
  {
    m := Pow2(64 - shift);
    PowAdds(shift, 64 - shift);
    WordPower();
  }

  /** Seven bits in front of whole multiples of the next weight do not carry. */
  lemma NoCarry(x: nat, hi: nat, w: nat, m: nat)
    requires w > 0 && m > 0 && w * m == U64 && x < w
    ensures (x + hi * w) % U64 == x + hi * w % U64
  {
    ShiftedModulo(hi, w, m);
    var r := hi % m;
    WeighAtMost(r, m - 1, w);
    assert (m - 1) * w == U64 - w;
    assert hi * w == (hi / m) * U64 + r * w by {
      assert (hi / m * m + r) * w == (hi / m) * (m * w) + r * w;
    }
    ModOf(x + hi * w, hi / m, U64, x + r * w);
  }

  lemma ShiftedSum(lo: nat, hi: nat, shift: nat)
    requires lo < 0x80 && shift + 7 <= 63
    ensures (lo + 0x80 * hi) * Pow2(shift) % U64 == lo * Pow2(shift) + hi * Pow2(shift + 7) % U64
  {
    Weight7(shift);
    var m := Complement(shift + 7);
    Weigh(lo, hi, Pow2(shift));
    WeighAtMost(lo, 0x7f, Pow2(shift));
    NoCarry(lo * Pow2(shift), hi, Pow2(shift + 7), m);
  }

  /** The last byte's bits, those that fit. */
  lemma LastBits(lo: nat, shift: nat, acc: nat)
    requires shift <= 63 && acc < Pow2(shift)
    ensures Or(acc, lo * Pow2(shift) % U64) == acc + lo * Pow2(shift) % U64
  {
    var m := Complement(shift);
    ShiftedModulo(lo, Pow2(shift), m);
    OrIsAdd(acc, lo % m, shift);
  }

  /**
   What the decoder makes of any bytes: it succeeds exactly if a byte without the top bit comes while
   there is room, with the value of the bytes up to it, in 64 bits, and what follows them; and it fails
   for want of bytes exactly if there is room for more than there are.
   */
  predicate ReadsAs(buf: seq<byte>, room: nat, shift: nat, acc: nat, r: (Status, nat, seq<byte>)) {
    var b := UpToLast(buf);
    && (r.0 == Success <==> Ends(b) && |b| <= room)
    && (r.0 == Success ==> r.1 == acc + Septets(b) * Pow2(shift) % U64 && r.2 == buf[|b|..])
    && (r.0 == IncompleteData <==> !Ends(b) && |buf| < room)
    && (r.0 == IncompleteData ==> r.2 == [])
    && (r.0 in {Success, IncompleteData} || (r.0 == Overflow && room <= |buf| && r.2 == buf[room..]))
  }

  lemma ReadsAsLast(buf: seq<byte>, maxBytes: nat, shift: nat, acc: nat)
    requires buf != [] && buf[0] < 0x80 && maxBytes > 0 && shift <= 63 && acc < Pow2(shift)
    ensures ReadsAs(buf, Room(maxBytes, shift), shift, acc, ReadVarint(buf, maxBytes, shift, acc))
  {
    LastBits(buf[0] % 0x80, shift, acc);
    assert UpToLast(buf) == [buf[0]] && Septets([buf[0]]) == buf[0] % 0x80;
  }

  lemma ReadsAsMore(buf: seq<byte>, room: nat, shift: nat, acc: nat, value: nat, r: (Status, nat, seq<byte>))
    requires buf != [] && buf[0] >= 0x80 && room > 0 && shift + 7 <= 63
    requires value == acc + (buf[0] % 0x80) * Pow2(shift)
    requires ReadsAs(buf[1..], room - 1, shift + 7, value, r)
    ensures ReadsAs(buf, room, shift, acc, r)
  {
    var b := UpToLast(buf);
    assert b[1..] == UpToLast(buf[1..]);
    assert Ends(b) == Ends(b[1..]);
    ShiftedSum(buf[0] % 0x80, Septets(b[1..]), shift);
  }

  /** A byte that is not the last fits as a whole. */
  lemma MiddleBits(lo: nat, shift: nat, acc: nat) returns (value: nat)
    requires lo < 0x80 && shift + 7 <= 63 && acc < Pow2(shift)
    ensures value == acc + lo * Pow2(shift) == Or(acc, lo * Pow2(shift) % U64)
    ensures value < Pow2(shift + 7)
  {
    LastBits(lo, shift, acc);
    ShiftedSum(lo, 0, shift);
    Weight7(shift);
    WeighAtMost(lo, 0x7f, Pow2(shift));
    value := acc + lo * Pow2(shift);
  }

  lemma NextRoom(maxBytes: nat, shift: nat)
    requires maxBytes > 0 && shift + 7 <= 63
    ensures Room(maxBytes, shift) == 1 + Room(maxBytes - 1, shift + 7)
  {
  }

  lemma {:induction false} ReadsAsStop(buf: seq<byte>, maxBytes: nat, shift: nat, acc: nat)
    requires shift <= 63 && (maxBytes == 0 || buf == [] || (buf[0] >= 0x80 && shift + 7 > 63))
    ensures ReadsAs(buf, Room(maxBytes, shift), shift, acc, ReadVarint(buf, maxBytes, shift, acc))
  {
  }

  /** The decoder, on any bytes. */
  lemma {:induction false} ReadVarintExact(buf: seq<byte>, maxBytes: nat, shift: nat, acc: nat)
    requires shift <= 63 && acc < Pow2(shift)
    ensures ReadsAs(buf, Room(maxBytes, shift), shift, acc, ReadVarint(buf, maxBytes, shift, acc))
    decreases |buf|
  {
    var r := ReadVarint(buf, maxBytes, shift, acc);
    if maxBytes == 0 || buf == [] || (buf[0] >= 0x80 && shift + 7 > 63) {
      ReadsAsStop(buf, maxBytes, shift, acc);
    } else if buf[0] < 0x80 {
      ReadsAsLast(buf, maxBytes, shift, acc);
    } else {
      var value := MiddleBits(buf[0] % 0x80, shift, acc);
      ReadOne(buf, maxBytes, shift, acc, value);
      NextRoom(maxBytes, shift);
      ReadVarintExact(buf[1..], maxBytes - 1, shift + 7, value);
      ReadsAsMore(buf, Room(maxBytes, shift), shift, acc, value, r);
    }
  }

  lemma {:induction false} LastAt(buf: seq<byte>, n: nat)
    requires n < |buf| && buf[n] < 0x80 && forall i | 0 <= i < n :: buf[i] >= 0x80
    ensures UpToLast(buf) == buf[..n + 1] && Ends(UpToLast(buf))
  {
    if n > 0 {
      LastAt(buf[1..], n - 1);
      assert buf[..n + 1] == [buf[0]] + buf[1..][..n];
    } else {
      assert buf[..1] == [buf[0]];
    }
  }

  /** An integer width: how many values, and how many bytes at most. */
  datatype Width = W16 | W32 | W64

  function Limit(w: Width): nat {
    match w case W16 => U16 case W32 => U32 case W64 => U64
  }

  function MaxBytes(w: Width): nat {
    match w case W16 => 3 case W32 => 5 case W64 => 10
  }

  /** Widths of 16 and 32 bits check the value afterwards. */
  function DecodeUnsigned(buf: seq<byte>, w: Width): (Status, nat, seq<byte>) {
    var (err, v, rest) := ReadVarint(buf, MaxBytes(w), 0, 0);
    if err == Success && v >= Limit(w) then (Overflow, v, rest) else (err, v, rest)
  }

  /** Every value of a width decodes to itself within that width's bytes. */
  lemma UnsignedRoundTrip(v: nat, w: Width, rest: seq<byte>)
    requires v < Limit(w)
    ensures |Varint(v)| == VarintSize(v) <= MaxBytes(w)
    ensures DecodeUnsigned(Varint(v) + rest, w) == (Success, v, rest)
  {
    VarintLength(v);
    ReadInvertsVarint(v, rest, MaxBytes(w), 0, 0);
  }

  /**
   Any bytes decode to a value of the width exactly if a last byte comes among the width's bytes and
   the value up to it, in 64 bits, is below the width's limit; a value that is not is refused.
   */
  lemma DecodeUnsignedExact(buf: seq<byte>, w: Width)
    ensures var b := UpToLast(buf);
            var (err, v, rest) := DecodeUnsigned(buf, w);
            var whole := Ends(b) && |b| <= (match w case W16 => 3 case W32 => 5 case W64 => 10);
            && (err == Success <==> whole && Septets(b) % U64 < (match w case W16 => U16 case W32 => U32 case W64 => U64))
            && (err == Success ==> v == Septets(b) % U64 && rest == buf[|b|..])
            && (whole && err != Success ==> err == Overflow && rest == buf[|b|..])
            && (!whole ==> err == if !Ends(b) && |buf| < MaxBytes(w) then IncompleteData else Overflow)
  {
    ReadVarintExact(buf, MaxBytes(w), 0, 0);
    var (err, v, rest) := ReadVarint(buf, MaxBytes(w), 0, 0);
    assert Room(MaxBytes(w), 0) == MaxBytes(w) && Pow2(0) == 1;
  }

  lemma WeighSeven(low: nat, w: nat)
    ensures 0x80 * (low * w) == low * (0x80 * w)
  {
  }

  lemma {:induction false} ZeroSeptets(buf: seq<byte>, n: nat)
    requires |buf| == n + 1 && buf[n] < 0x80 && forall i | 0 <= i < n :: buf[i] == 0x80
    ensures Septets(buf) == buf[n] * Pow2(7 * n)
  {
    if n > 0 {
      ZeroSeptets(buf[1..], n - 1);
      Weight7(7 * (n - 1));
      WeighSeven(buf[n], Pow2(7 * (n - 1)));
    } else {
      assert buf[1..] == [];
    }
  }

  /** So a tenth byte is taken for its lowest bit alone: ten bytes of more than 64 bits are a value of 64. */
  lemma TenthByteIsCut(low: byte)
    requires low < 0x80
    ensures var buf: seq<byte> := [0x80, 0x80, 0x80, 0x80, 0x80, 0x80, 0x80, 0x80, 0x80, low];
            DecodeUnsigned(buf, W64) == (Success, (low % 2) * (U64 / 2), [])
  {
    var buf: seq<byte> := [0x80, 0x80, 0x80, 0x80, 0x80, 0x80, 0x80, 0x80, 0x80, low];
    LastAt(buf, 9);
    DecodeUnsignedExact(buf, W64);
    assert buf[..10] == buf;
    ZeroSeptets(buf, 9);
    WordPower();
    ShiftedModulo(low, Pow2(63), 2);
  }

  // ---------------------------------------------------------------- signed

  /** Exclusive or with the sign spread over all 64 bits. */
  function XorSign(x: nat, negative: bool): int {
    if negative then U64 - 1 - x else x
  }

  /** Shift left by one in 64 bits, then exclusive or with the sign. */
  function ZigZag(v: Timestamp): (z: nat)
    ensures z < U64
  {
    XorSign((2 * v) % U64, v < 0)
  }

  /** Shift right by one, exclusive or with the low bit's negation, read as two's complement. */
  function UnZigZag(z: nat): int {
    var x := XorSign(z / 2, z % 2 == 1);
    if x < U64 / 2 then x else x - U64
  }

  lemma ZigZagRoundTrip(v: Timestamp)
    ensures ZigZag(v) == if v < 0 then -2 * v - 1 else 2 * v
    ensures UnZigZag(ZigZag(v)) == v
  {
    if v < 0 {
      assert (2 * v) % U64 == 2 * v + U64;
    }
  }

  predicate InWidth(v: int, w: Width) {
    -(Limit(w) as int) <= 2 * v < Limit(w)
  }

  function DecodeSigned(buf: seq<byte>, w: Width): (Status, int, seq<byte>) {
    var (err, z, rest) := ReadVarint(buf, MaxBytes(w), 0, 0);
    if err != Success then (err, 0, rest)
    else
      var v := UnZigZag(z);
      if !InWidth(v, w) then (Overflow, v, rest) else (Success, v, rest)
  }

  lemma SignedRoundTrip(v: Timestamp, w: Width, rest: seq<byte>)
    requires InWidth(v, w)
    ensures |Varint(ZigZag(v))| == VarintSize(ZigZag(v)) <= MaxBytes(w)
    ensures DecodeSigned(Varint(ZigZag(v)) + rest, w) == (Success, v, rest)
  {
    ZigZagRoundTrip(v);
    UnsignedRoundTrip(ZigZag(v), w, rest);
  }

  /** Even numbers are the non-negative values, odd ones the negative, nearest to zero first. */
  lemma UnZigZagExact(z: nat, w: Width)
    requires z < U64
    ensures UnZigZag(z) == if z % 2 == 0 then z / 2 else -((z + 1) / 2)
    ensures InWidth(UnZigZag(z), w) <==> z < Limit(w)
  {
  }

  /** Any bytes, decoded as a signed value: refused exactly where the unsigned form would be. */
  lemma DecodeSignedExact(buf: seq<byte>, w: Width)
    ensures var (err, v, rest) := DecodeSigned(buf, w);
            var (e, z, r) := DecodeUnsigned(buf, w);
            && err == e && rest == r
            && (err == Success ==> v == if z % 2 == 0 then z / 2 else -((z + 1) / 2))
  {
    ReadVarintExact(buf, MaxBytes(w), 0, 0);
    var z := ReadVarint(buf, MaxBytes(w), 0, 0).1;
    if ReadVarint(buf, MaxBytes(w), 0, 0).0 == Success {
      assert Pow2(0) == 1 && z == Septets(UpToLast(buf)) % U64;
      UnZigZagExact(z, w);
    }
  }

  // ---------------------------------------------------------------- the slice

  /** A view of a buffer: encoders write at `len`, decoders read there, up to `capacity`. */
  class Slice {
    const data: array<byte>
    const capacity: nat
    var len: nat

    ghost predicate Valid()
      reads this
    {
      len <= capacity <= data.Length
    }

    ghost function Written(): seq<byte>
      requires Valid()
      reads this, data
    {
      data[..len]
    }

    ghost function Rest(): seq<byte>
      requires Valid()
      reads this, data
    {
      data[len..capacity]
    }

    constructor (buffer: array<byte>, capacity: nat)
      requires capacity <= buffer.Length
      ensures Valid() && data == buffer && len == 0 && this.capacity == capacity
    {
      data := buffer;
      len := 0;
      this.capacity := capacity;
    }

    /** Appends the whole varint, or fails and leaves what was written as it was. */
    method EncodeVarint(v: nat, maxBytes: nat) returns (err: Status)
      requires Valid()
      modifies this, data
      ensures Valid()
      ensures err == Success <==> old(len) + |Varint(v)| <= capacity && |Varint(v)| <= maxBytes + 1
      ensures err == Success ==> Written() == old(Written()) + Varint(v)
      ensures err != Success ==> len == old(len) && Written() == old(Written())
      ensures err in {Success, BufferTooSmall, Overflow}
      ensures err == Overflow <==> |Varint(v)| > maxBytes + 1 && old(len) + maxBytes < capacity
    {
      var value, i := v, 0;
      while value >= 0x80
        invariant len == old(len) && len + i <= capacity && i <= maxBytes
        invariant data[..len] == old(data[..len])
        invariant data[..len + i] + Varint(value) == old(data[..len]) + Varint(v)
        invariant i + |Varint(value)| == |Varint(v)|
        decreases value
      {
        if len + i >= capacity {
          return BufferTooSmall;
        }
        if i >= maxBytes {
          return Overflow;
        }
        VarintUnfolds(value);
        AppendHead(data[..len + i], value % 0x80 + 0x80, Varint(value / 0x80));
        Put(len + i, value % 0x80 + 0x80);
        value := value / 0x80;
        i := i + 1;
      }
      if len + i >= capacity {
        return BufferTooSmall;
      }
      Put(len + i, value);
      len := len + i + 1;
      return Success;
    }

    method Put(at: nat, b: byte)
      requires at < data.Length
      modifies data
      ensures data[..at + 1] == old(data[..at]) + [b]
      ensures forall k | 0 <= k < at :: data[k] == old(data[k])
    {
      data[at] := b;
    }

    method DecodeVarint(maxBytes: nat) returns (err: Status, value: nat)
      requires Valid()
      modifies this
      ensures Valid()
      ensures (err, value, Rest()) == ReadVarint(old(Rest()), maxBytes, 0, 0)
    {
      value := 0;
      var shift, i := 0, 0;
      while i < maxBytes
        invariant Valid() && i <= maxBytes
        invariant ReadVarint(Rest(), maxBytes - i, shift, value) == ReadVarint(old(Rest()), maxBytes, 0, 0)
        decreases maxBytes - i
      {
        if len >= capacity {
          return IncompleteData, value;
        }
        var b := data[len];
        assert Rest()[0] == b && Rest()[1..] == data[len + 1..capacity];
        len := len + 1;
        i := i + 1;
        value := Or(value, (b % 0x80) * Pow2(shift) % U64);
        if b < 0x80 {
          return Success, value;
        }
        shift := shift + 7;
        if shift > 63 {
          return Overflow, value;
        }
      }
      return Overflow, value;
    }

    method EncodeU8(v: byte) returns (err: Status)
      requires Valid()
      modifies this, data
      ensures Valid()
      ensures err == Success <==> old(len) < capacity
      ensures err == Success ==> Written() == old(Written()) + [v]
      ensures err != Success ==> err == BufferTooSmall && len == old(len) && Written() == old(Written())
    {
      if len >= capacity {
        return BufferTooSmall;
      }
      data[len] := v;
      len := len + 1;
      return Success;
    }

    method DecodeU8() returns (err: Status, v: byte)
      requires Valid()
      modifies this
      ensures Valid()
      ensures err == Success <==> old(Rest()) != []
      ensures err == Success ==> v == old(Rest())[0] && Rest() == old(Rest())[1..]
      ensures err != Success ==> err == IncompleteData && Rest() == old(Rest())
    {
      if len >= capacity {
        return IncompleteData, 0;
      }
      v := data[len];
      len := len + 1;
      return Success, v;
    }

    /** The length goes in first; when the bytes then do not fit it stays written. */
    method EncodeByteArray(bytes: seq<byte>) returns (err: Status)
      requires Valid() && |bytes| < U64
      modifies this, data
      ensures Valid()
      ensures err == Success <==> old(len) + |Varint(|bytes|)| + |bytes| <= capacity
      ensures err == Success ==> Written() == old(Written()) + Varint(|bytes|) + bytes
      ensures err != Success ==> err == BufferTooSmall
      ensures err != Success ==>
                Written() == old(Written()) +
                             if old(len) + |Varint(|bytes|)| <= capacity then Varint(|bytes|) else []
    {
      VarintLength(|bytes|);
      err := EncodeVarint(|bytes|, 10);
      if err != Success {
        return err;
      }
      if len + |bytes| > capacity {
        return BufferTooSmall;
      }
      ghost var before := data[..len];
      var i := 0;
      while i < |bytes|
        invariant 0 <= i <= |bytes| && len == |before| && len + |bytes| <= capacity
        invariant data[..len] == before && data[len..len + i] == bytes[..i]
      {
        data[len + i] := bytes[i];
        i := i + 1;
      }
      len := len + |bytes|;
      assert data[..len] == before + data[|before|..len];
      return Success;
    }

    /** A length of zero is refused, whatever the input. */
    method DecodeByteArray(maxLength: nat, actual: nat) returns (err: Status, bytes: seq<byte>)
      requires Valid()
      modifies this
      ensures Valid()
      ensures err == Success <==> 0 < actual <= maxLength && actual <= |old(Rest())|
      ensures err == Success ==> bytes == old(Rest())[..actual] && Rest() == old(Rest())[actual..]
      ensures err != Success ==> Rest() == old(Rest()) && bytes == []
      ensures err == InvalidInput <==> actual == 0
      ensures err == IncompleteData <==> actual > |old(Rest())|
      ensures err in {Success, InvalidInput, IncompleteData, BufferTooSmall}
    {
      if actual == 0 {
        return InvalidInput, [];
      }
      if actual + len > capacity {
        return IncompleteData, [];
      }
      if actual > maxLength {
        return BufferTooSmall, [];
      }
      bytes := data[len..len + actual];
      len := len + actual;
      return Success, bytes;
    }
  }

  /** A byte array comes back exactly when it is not empty. */
  method ByteArrayRoundTrip(bytes: seq<byte>, ghost rest: seq<byte>, slice: Slice) returns (err: Status, out: seq<byte>)
    requires slice.Valid() && |bytes| < U64 && slice.Rest() == Varint(|bytes|) + bytes + rest
    modifies slice
    ensures err == Success <==> bytes != []
    ensures err == Success ==> out == bytes && slice.Valid() && slice.Rest() == rest
  {
    assert Varint(|bytes|) + bytes + rest == Varint(|bytes|) + (bytes + rest);
    UnsignedRoundTrip(|bytes|, W64, bytes + rest);
    var lenErr, len := slice.DecodeVarint(10);
    assert slice.Rest() == bytes + rest;
    err, out := slice.DecodeByteArray(len, len);
  }
}

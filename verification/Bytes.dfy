/**
 Byte strings shared by every part of the data path: concatenation of frames and
 the little-endian encodings that the Rust side writes with `to_le_bytes`.
 */
module Bytes {
  import Arithmetic

  type byte = x: int | 0 <= x < 256

  datatype Option<+T> = None | Some(value: T)

  datatype Result<+T, +E> = Ok(value: T) | Err(error: E)

  const U16: nat := 0x1_0000
  const U32: nat := 0x1_0000_0000
  const U64: nat := 0x1_0000_0000_0000_0000

  // ---------------------------------------------------------------- concatenation

  /** The bytes of a sequence of frames, one after another. */
  function Flatten<T>(frames: seq<seq<T>>): seq<T> {
    if frames == [] then [] else frames[0] + Flatten(frames[1..])
  }

  lemma {:induction false} FlattenConcat<T>(a: seq<seq<T>>, b: seq<seq<T>>)
    ensures Flatten(a + b) == Flatten(a) + Flatten(b)
  {
    if a == [] {
      assert a + b == b;
    } else {
      assert (a + b)[1..] == a[1..] + b;
      FlattenConcat(a[1..], b);
    }
  }

  lemma FlattenSplit<T>(s: seq<seq<T>>, i: nat, j: nat, k: nat)
    requires i <= j <= k <= |s|
    ensures Flatten(s[i..k]) == Flatten(s[i..j]) + Flatten(s[j..k])
  {
    assert s[i..k] == s[i..j] + s[j..k];
    FlattenConcat(s[i..j], s[j..k]);
  }

  lemma FlattenAppend<T>(s: seq<seq<T>>, f: seq<T>)
    ensures Flatten(s + [f]) == Flatten(s) + f
  {
    FlattenConcat(s, [f]);
    assert Flatten([f]) == f + Flatten<T>([]);
  }

  // ---------------------------------------------------------------- little endian

  function Pow256(k: nat): (r: nat)
    ensures r > 0
  {
    if k == 0 then 1 else 256 * Pow256(k - 1)
  }

  /** The `k` low bytes of `v`, least significant first. */
  function ToLe(v: nat, k: nat): (b: seq<byte>)
    ensures |b| == k
  {
    if k == 0 then [] else [v % 256] + ToLe(v / 256, k - 1)
  }

  function FromLe(b: seq<byte>): nat {
    if b == [] then 0 else b[0] + 256 * FromLe(b[1..])
  }

  lemma {:induction false} FromLeToLe(v: nat, k: nat)
    requires v < Pow256(k)
    ensures FromLe(ToLe(v, k)) == v
  {
    if k > 0 {
      FromLeToLe(v / 256, k - 1);
      assert ToLe(v, k)[1..] == ToLe(v / 256, k - 1);
    }
  }

  lemma {:induction false} ToLeFromLe(b: seq<byte>)
    ensures FromLe(b) < Pow256(|b|)
    ensures ToLe(FromLe(b), |b|) == b
  {
    if b != [] {
      ToLeFromLe(b[1..]);
      assert [b[0]] + b[1..] == b;
    }
  }

  lemma DivideTwice(v: nat, p: nat)
    requires p > 0
    ensures (v / 256) / p == v / (256 * p)
  {
    var h := v / 256;
    assert v == (h / p) * (256 * p) + (256 * (h % p) + v % 256);
    Arithmetic.ModOf(v, h / p, 256 * p, 256 * (h % p) + v % 256);
  }

  /** Byte `i` counts for the `i`-th power of 256. */
  lemma {:induction false} ToLeAt(v: nat, k: nat, i: nat)
    requires i < k
    ensures ToLe(v, k)[i] == v / Pow256(i) % 256
  {
    if i > 0 {
      ToLeAt(v / 256, k - 1, i - 1);
      DivideTwice(v, Pow256(i - 1));
    }
  }

  lemma PowersOf256()
    ensures Pow256(2) == U16 && Pow256(4) == U32 && Pow256(8) == U64
  {
    assert Pow256(1) == 256;
    assert Pow256(3) == 256 * Pow256(2);
    assert Pow256(5) == 256 * Pow256(4);
    assert Pow256(7) == 256 * (256 * Pow256(5));
  }

  // ---------------------------------------------------------------- timestamps

  /** A `Timestamp` is an `i64`; its bytes are those of the two's complement. */
  type Timestamp = t: int | -0x8000_0000_0000_0000 <= t < 0x8000_0000_0000_0000

  function TimestampToLe(t: Timestamp): (b: seq<byte>)
    ensures |b| == 8
  {
    ToLe(if t >= 0 then t else t + U64, 8)
  }

  function TimestampFromLe(b: seq<byte>): (t: Timestamp)
    requires |b| == 8
  {
    ToLeFromLe(b);
    PowersOf256();
    var v := FromLe(b);
    if v < U64 / 2 then v else v - U64
  }

  lemma TimestampRoundTrip(t: Timestamp)
    ensures TimestampFromLe(TimestampToLe(t)) == t
  {
    PowersOf256();
    FromLeToLe(if t >= 0 then t else t + U64, 8);
  }

  lemma TimestampBytesRoundTrip(b: seq<byte>)
    requires |b| == 8
    ensures TimestampToLe(TimestampFromLe(b)) == b
  {
    PowersOf256();
    ToLeFromLe(b);
  }
}

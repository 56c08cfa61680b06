/**
 * Explicit little-endian images of the scalar field types that the C++ code
 * copies to and from disk as raw memory: `unsigned short`, `unsigned`,
 * `unsigned long long`, `int` (two's complement) and `bool` (one byte).
 * A byte and every unsigned word is an integer in its C range.
 */
module Codec {

  type byte = x: int | 0 <= x < 0x100
  type u16 = x: int | 0 <= x < 0x1_0000
  type u32 = x: int | 0 <= x < 0x1_0000_0000
  type u64 = x: int | 0 <= x < 0x1_0000_0000_0000_0000

  type Bytes = seq<byte>

  /** The range of a C `int`, used for the enumerations and the tag words. */
  newtype int32 = x: int | -0x8000_0000 <= x < 0x8000_0000

  /** A fixed `char[16]` text field. */
  type Text16 = s: Bytes | |s| == 16 witness seq(16, _ => 0)

  /** 256 to the power `n`: one past the largest value `n` bytes hold. */
  function Pow256(n: nat): (r: nat)
    ensures r > 0
  {
    if n == 0 then 1 else 0x100 * Pow256(n - 1)
  }

  /** The `n`-byte little-endian image of `w`, least significant byte first. */
  function LE(w: nat, n: nat): (r: Bytes)
    requires w < Pow256(n)
    ensures |r| == n
  {
    if n == 0 then [] else [w % 0x100] + LE(w / 0x100, n - 1)
  }

  /** The value of a little-endian byte string. */
  function DecLE(b: Bytes): (w: nat)
    ensures w < Pow256(|b|)
  {
    if |b| == 0 then 0 else b[0] + 0x100 * DecLE(b[1..])
  }

  lemma {:induction false} LERoundTrip(w: nat, n: nat)
    requires w < Pow256(n)
    ensures DecLE(LE(w, n)) == w
    decreases n
  {
    if n > 0 {
      var r := LE(w, n);
      assert r[1..] == LE(w / 0x100, n - 1);
      LERoundTrip(w / 0x100, n - 1);
    }
  }

  /** One byte's shift distributed over a value and a higher-order part. */
  lemma ShiftSum(x: nat, q: nat, y: nat)
    ensures 0x100 * (x + q * y) == 0x100 * x + (0x100 * q) * y
  {
  }

  /** The value of a concatenation: the first part is the less significant. */
  lemma {:induction false} DecLESplit(a: Bytes, b: Bytes)
    ensures DecLE(a + b) == DecLE(a) + Pow256(|a|) * DecLE(b)
    decreases |a|
  {
    if |a| == 0 {
      assert a + b == b;
    } else {
      assert (a + b)[1..] == a[1..] + b;
      DecLESplit(a[1..], b);
      var x, y, q := DecLE(a[1..]), DecLE(b), Pow256(|a| - 1);
      assert DecLE(a + b) == a[0] + 0x100 * (x + q * y);
      ShiftSum(x, q, y);
    }
  }

  function U16(w: u16): (r: Bytes)
    ensures |r| == 2
  {
    LE(w, 2)
  }

  function DecU16(b: Bytes): u16
    requires |b| == 2
  {
    DecLE(b)
  }

  function U32(w: u32): (r: Bytes)
    ensures |r| == 4
  {
    LE(w, 4)
  }

  function DecU32(b: Bytes): u32
    requires |b| == 4
  {
    DecLE(b)
  }

  function U64(w: u64): (r: Bytes)
    ensures |r| == 8
  {
    LE(w, 8)
  }

  function DecU64(b: Bytes): u64
    requires |b| == 8
  {
    DecLE(b)
  }

  /** Two's-complement image of an `int`. */
  function I32(x: int32): (r: Bytes)
    ensures |r| == 4
  {
    U32(if x < 0 then x as int + 0x1_0000_0000 else x as int)
  }

  function DecI32(b: Bytes): int32
    requires |b| == 4
  {
    var n := DecU32(b);
    if n >= 0x8000_0000 then (n - 0x1_0000_0000) as int32 else n as int32
  }

  /** A `bool` occupies one byte; any non-zero byte reads back as true. */
  function Bool(x: bool): (r: Bytes)
    ensures |r| == 1
  {
    if x then [1] else [0]
  }

  function DecBool(b: Bytes): bool
    requires |b| == 1
  {
    b[0] != 0
  }

  lemma U16RoundTrip(w: u16)
    ensures DecU16(U16(w)) == w
  {
    LERoundTrip(w, 2);
  }

  lemma U32RoundTrip(w: u32)
    ensures DecU32(U32(w)) == w
  {
    LERoundTrip(w, 4);
  }

  lemma U64RoundTrip(w: u64)
    ensures DecU64(U64(w)) == w
  {
    LERoundTrip(w, 8);
  }

  /** A 64-bit word read over two 32-bit words takes the first as its low half. */
  lemma DecU64Halves(a: Bytes, b: Bytes)
    requires |a| == 4 && |b| == 4
    ensures DecU64(a + b) == DecU32(a) + 0x1_0000_0000 * DecU32(b)
  {
    DecLESplit(a, b);
  }

  /** A field found at the start of a suffix is the slice at that offset, and the rest follows it. */
  lemma PeelAt(b: Bytes, i: nat, u: Bytes, rest: Bytes)
    requires i <= |b| && b[i..] == u + rest
    ensures b[i..i + |u|] == u && b[i + |u|..] == rest
  {
    assert b[i..i + |u|] == b[i..][..|u|];
    assert b[i + |u|..] == b[i..][|u|..];
  }

  /** The two parts of a concatenation are recovered by slicing at the seam. */
  lemma SplitAt(a: Bytes, b: Bytes)
    ensures (a + b)[..|a|] == a && (a + b)[|a|..] == b
  {
  }

  lemma I32RoundTrip(x: int32)
    ensures DecI32(I32(x)) == x
  {
    U32RoundTrip(if x < 0 then x as int + 0x1_0000_0000 else x as int);
  }

  lemma BoolRoundTrip(x: bool)
    ensures DecBool(Bool(x)) == x
  {
  }

  /** Moves a trailing part inside a right-nested concatenation. */
  lemma Reassociate(a: Bytes, b: Bytes, c: Bytes, d: Bytes, e: Bytes)
    ensures a + (b + (c + d)) + e == a + (b + (c + (d + e)))
  {
  }
}

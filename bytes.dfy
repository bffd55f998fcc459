/** Bytes of a WebAssembly linear memory: little-endian integers and stores. */
module Bytes {

  newtype byte = x: int | 0 <= x < 256

  /** The number of values a 32-bit word can hold. */
  const U32_LIMIT := 0x1_0000_0000

  /** The two's-complement reading of a 32-bit word: how WebAssembly hands
      an i32 to JavaScript, and what a C++ `int` holds. */
  function Signed32(u: nat): (v: int)
    requires u < U32_LIMIT
    ensures -0x8000_0000 <= v < 0x8000_0000 && (v - u) % U32_LIMIT == 0
  {
    if u < 0x8000_0000 then u else u - U32_LIMIT
  }

  /** 256 to the power n: the number of values an n-byte field can hold. */
  function Pow256(n: nat): (r: nat)
    ensures r >= 1
  {
    if n == 0 then 1 else 256 * Pow256(n - 1)
  }

  /** The little-endian encoding of v in `width` bytes (what DataView's
      setUint16/setUint32 with littleEndian = true produce). */
  function LeBytes(v: nat, width: nat): (r: seq<byte>)
    ensures |r| == width
  {
    if width == 0 then [] else [(v % 256) as byte] + LeBytes(v / 256, width - 1)
  }

  /** The unsigned value of little-endian bytes (DataView's getUint32 with
      littleEndian = true, for four bytes). */
  function LeValue(bs: seq<byte>): (v: nat)
    ensures v < Pow256(|bs|)
  {
    if bs == [] then 0
    else
      var rest := LeValue(bs[1..]);
      assert 256 * rest <= 256 * (Pow256(|bs| - 1) - 1);
      bs[0] as nat + 256 * rest
  }

  /** Decoding an encoded value gives the value back. */
  lemma {:induction false} LeValueOfLeBytes(v: nat, width: nat)
    requires v < Pow256(width)
    ensures LeValue(LeBytes(v, width)) == v
  {
    if width > 0 {
      var bs := LeBytes(v, width);
      var q, r := v / 256, v % 256;
      var p := Pow256(width - 1);
      assert v == 256 * q + r && v < 256 * p;
      assert q < p;
      assert bs[0] as nat == r;
      assert bs[1..] == LeBytes(q, width - 1);
      LeValueOfLeBytes(q, width - 1);
    }
  }

  /** Encoding a decoded field gives the field back. */
  lemma {:induction false} LeBytesOfLeValue(bs: seq<byte>)
    ensures LeBytes(LeValue(bs), |bs|) == bs
  {
    if bs != [] {
      var v, b, rest := LeValue(bs), bs[0] as nat, LeValue(bs[1..]);
      assert v == b + 256 * rest && b < 256;
      assert v % 256 == b && v / 256 == rest;
      assert (v % 256) as byte == bs[0];
      LeBytesOfLeValue(bs[1..]);
      assert LeBytes(v, |bs|) == [bs[0]] + LeBytes(rest, |bs| - 1);
    }
  }

  /** The bytes [at, at+n) lie inside a memory of |m| bytes; offsets and
      lengths are host numbers and may be negative. */
  predicate InBounds(m: seq<byte>, at: int, n: int)
  {
    0 <= at && 0 <= n && at + n <= |m|
  }

  /** The memory m after the bytes bs are written starting at `at`. */
  function Store(m: seq<byte>, at: nat, bs: seq<byte>): (r: seq<byte>)
    requires at + |bs| <= |m|
    ensures |r| == |m|
    ensures forall i :: 0 <= i < |m| ==> r[i] == if at <= i < at + |bs| then bs[i - at] else m[i]
    ensures r[at..at + |bs|] == bs
  {
    m[..at] + bs + m[at + |bs|..]
  }

  /** n zero bytes. */
  function Zeros(n: nat): (r: seq<byte>)
    ensures |r| == n && forall i :: 0 <= i < n ==> r[i] == 0
  {
    seq(n, _ => 0)
  }
}

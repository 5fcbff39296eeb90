/** Byte-level view of a DBF file: the file is an in-memory byte sequence, `fread`
    after `fseek` and PHP's `substr` are clamped slices, and `unpack` reads
    little-endian integers. */
module Bytes {

  type byte = b: int | 0 <= b < 256

  datatype Option<+T> = None | Some(value: T) {
    function GetOr(default: T): T {
      match this
      case Some(v) => v
      case None => default
    }
  }

  /** The exceptions PHP 8 throws on the converters' paths: `fread` of zero
      bytes (a ValueError) and `%` by zero (a DivisionByZeroError). */
  datatype Error = ZeroLengthRead | ModuloByZero

  datatype Result<T> = Ok(value: T) | Err(error: Error)

  function Min(a: int, b: int): int { if a <= b then a else b }

  /** PHP 8 `substr($s, $pos, $len)` with non-negative arguments, and equally
      `fread` of `len` bytes after `fseek($fp, $pos)`: the part of `s` that
      starts at `pos` and is at most `len` long; empty past the end. */
  function Slice<T>(s: seq<T>, pos: nat, len: nat): (r: seq<T>)
    ensures |r| == if pos >= |s| then 0 else Min(len, |s| - pos)
  {
    if pos >= |s| then [] else if pos + len >= |s| then s[pos..] else s[pos..pos + len]
  }

  /** What is read is the data itself from `pos` on: a factor of `s`, never
      padded, cut off only by the end of the data. */
  lemma SliceContent<T>(s: seq<T>, pos: nat, len: nat)
    ensures pos <= |s| ==> Slice(s, pos, len) == s[pos..pos + |Slice(s, pos, len)|]
    ensures pos + len <= |s| ==> Slice(s, pos, len) == s[pos..pos + len]
    ensures pos >= |s| ==> Slice(s, pos, len) == []
  {
  }

  /** 256 to the power n. */
  function Pow256(n: nat): (p: nat)
    ensures p >= 1
  {
    if n == 0 then 1 else 256 * Pow256(n - 1)
  }

  /** Unsigned little-endian value of a byte string (least significant byte first). */
  function LittleEndian(s: seq<byte>): nat
  {
    if s == [] then 0 else s[0] + 256 * LittleEndian(s[1..])
  }

  /** The `n`-byte little-endian encoding of `x` (the inverse of LittleEndian). */
  function EncodeLittleEndian(x: nat, n: nat): (s: seq<byte>)
    ensures |s| == n
  {
    if n == 0 then [] else [x % 256] + EncodeLittleEndian(x / 256, n - 1)
  }

  lemma {:induction false} LittleEndianBound(s: seq<byte>)
    ensures LittleEndian(s) < Pow256(|s|)
  {
    if s != [] {
      LittleEndianBound(s[1..]);
      assert LittleEndian(s[1..]) + 1 <= Pow256(|s| - 1);
    }
  }

  /** Decoding an encoding gives back the number, for every number that fits. */
  lemma {:induction false} LittleEndianRoundTrip(x: nat, n: nat)
    requires x < Pow256(n)
    ensures LittleEndian(EncodeLittleEndian(x, n)) == x
  {
    if n > 0 {
      var s := EncodeLittleEndian(x, n);
      assert s[1..] == EncodeLittleEndian(x / 256, n - 1);
      LittleEndianRoundTrip(x / 256, n - 1);
    }
  }

  /** Encoding a decoded byte string gives back the bytes. */
  lemma {:induction false} EncodeDecodeRoundTrip(s: seq<byte>)
    ensures EncodeLittleEndian(LittleEndian(s), |s|) == s
  {
    if s != [] {
      EncodeDecodeRoundTrip(s[1..]);
      var x := LittleEndian(s);
      assert x % 256 == s[0] && x / 256 == LittleEndian(s[1..]);
    }
  }

  /** `unpack("V", $s)[1]`: unsigned 32-bit little-endian; `unpack` fails (and the
      PHP expression is null) when fewer than 4 bytes are given; extra bytes are ignored. */
  function UnpackU32(s: seq<byte>): (r: Option<nat>)
    ensures r.Some? <==> |s| >= 4
    ensures r.Some? ==> r.value == s[0] as int + 256 * (s[1] as int) + 65536 * (s[2] as int) + 16777216 * (s[3] as int)
    ensures r.Some? ==> r.value < 0x1_0000_0000
  {
    if |s| < 4 then None
    else
      var w := s[..4];
      var w1, w2, w3 := w[1..], w[2..], w[3..];
      assert w1[1..] == w2 && w2[1..] == w3 && w3[1..] == [];
      assert LittleEndian(w3) == w[3];
      assert LittleEndian(w2) == w[2] as int + 256 * (w[3] as int);
      LittleEndianBound(w);
      Some(LittleEndian(w))
  }

  /** `unpack("v", $s)[1]`: unsigned 16-bit little-endian, null on fewer than 2 bytes. */
  function UnpackU16(s: seq<byte>): (r: Option<nat>)
    ensures r.Some? <==> |s| >= 2
    ensures r.Some? ==> r.value == s[0] as int + 256 * (s[1] as int)
    ensures r.Some? ==> r.value < 0x1_0000
  {
    if |s| < 2 then None
    else
      var w := s[..2];
      assert w[1..][1..] == [];
      LittleEndianBound(w);
      Some(LittleEndian(w))
  }

  /** `unpack("q", $s)[1]`: signed 64-bit two's complement, taken here in
      little-endian byte order; null on fewer than 8 bytes. */
  function UnpackI64(s: seq<byte>): (r: Option<int>)
    ensures r.Some? <==> |s| >= 8
    ensures r.Some? ==> -0x8000_0000_0000_0000 <= r.value < 0x8000_0000_0000_0000
    ensures r.Some? ==> r.value % 0x1_0000_0000_0000_0000 == LittleEndian(s[..8])
  {
    if |s| < 8 then None
    else
      var u := LittleEndian(s[..8]);
      LittleEndianBound(s[..8]);
      assert Pow256(8) == 0x1_0000_0000_0000_0000;
      Some(if u >= 0x8000_0000_0000_0000 then u - 0x1_0000_0000_0000_0000 else u)
  }

  /** Two's complement 8-byte little-endian encoding of a signed 64-bit value. */
  function EncodeI64(x: int): (s: seq<byte>)
    requires -0x8000_0000_0000_0000 <= x < 0x8000_0000_0000_0000
    ensures |s| == 8
  {
    EncodeLittleEndian(if x < 0 then x + 0x1_0000_0000_0000_0000 else x, 8)
  }

  /** The signed decoder inverts the signed encoder on the whole 64-bit range. */
  lemma I64RoundTrip(x: int)
    requires -0x8000_0000_0000_0000 <= x < 0x8000_0000_0000_0000
    ensures UnpackI64(EncodeI64(x)) == Some(x)
  {
    var u := if x < 0 then x + 0x1_0000_0000_0000_0000 else x;
    assert Pow256(8) == 0x1_0000_0000_0000_0000;
    LittleEndianRoundTrip(u, 8);
    assert EncodeI64(x)[..8] == EncodeI64(x);
  }

  /** The unsigned 32-bit decoder inverts the 4-byte encoder. */
  lemma U32RoundTrip(x: nat)
    requires x < 0x1_0000_0000
    ensures UnpackU32(EncodeLittleEndian(x, 4)) == Some(x)
  {
    assert Pow256(4) == 0x1_0000_0000;
    LittleEndianRoundTrip(x, 4);
    assert EncodeLittleEndian(x, 4)[..4] == EncodeLittleEndian(x, 4);
  }

  /** The binary integer field `01 00 00 00` holds 1. */
  lemma U32One()
    ensures UnpackU32([1, 0, 0, 0]) == Some(1)
  {
  }
}

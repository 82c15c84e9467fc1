/**
 * Fixed-width big-endian integers, as written and read by java.nio.ByteBuffer
 * (whose default byte order is big-endian), and the one-byte-per-char
 * encoding of names.
 */
module Bytes {
  type Byte = b: int | 0 <= b < 256

  const INT32_MIN: int := -0x8000_0000
  const INT32_MAX: int := 0x7FFF_FFFF
  const INT64_MIN: int := -0x8000_0000_0000_0000
  const INT64_MAX: int := 0x7FFF_FFFF_FFFF_FFFF

  /** The widths of a Java int and long, in bytes. */
  const INT_SIZE: nat := 4
  const LONG_SIZE: nat := 8

  predicate IsInt32(v: int) { INT32_MIN <= v <= INT32_MAX }
  predicate IsInt64(v: int) { INT64_MIN <= v <= INT64_MAX }

  /** 256 to the power n: the number of values n bytes can hold. */
  function Pow256(n: nat): (p: nat)
    ensures p >= 1
  {
    if n == 0 then 1 else 256 * Pow256(n - 1)
  }

  /** The n-byte big-endian representation of u, most significant byte first. */
  function BigEndian(u: nat, n: nat): (s: seq<Byte>)
    requires u < Pow256(n)
    ensures |s| == n
    decreases n
  {
    if n == 0 then [] else BigEndian(u / 256, n - 1) + [u % 256]
  }

  /** The unsigned value of a big-endian byte sequence. */
  function FromBigEndian(s: seq<Byte>): (u: nat)
    ensures u < Pow256(|s|)
    decreases |s|
  {
    if s == [] then 0 else 256 * FromBigEndian(s[..|s| - 1]) + s[|s| - 1]
  }

  lemma {:induction false} FromBigEndianRoundTrip(u: nat, n: nat)
    requires u < Pow256(n)
    ensures FromBigEndian(BigEndian(u, n)) == u
    decreases n
  {
    if n > 0 {
      var s := BigEndian(u, n);
      assert s[..n - 1] == BigEndian(u / 256, n - 1);
      FromBigEndianRoundTrip(u / 256, n - 1);
    }
  }

  /** Two's complement: the unsigned n-byte pattern of a signed value. */
  function ToUnsigned(v: int, n: nat): (u: nat)
    requires -(Pow256(n) as int) <= 2 * v < Pow256(n)
    ensures u < Pow256(n)
  {
    if v < 0 then v + Pow256(n) else v
  }

  function ToSigned(u: nat, n: nat): (v: int)
    requires u < Pow256(n)
    ensures -(Pow256(n) as int) <= 2 * v < Pow256(n)
  {
    if 2 * u >= Pow256(n) then u - Pow256(n) else u
  }

  /** ByteBuffer.putInt */
  function PutInt(v: int): (s: seq<Byte>)
    requires IsInt32(v)
    ensures |s| == 4 && GetInt(s) == v
  {
    FromBigEndianRoundTrip(ToUnsigned(v, INT_SIZE), INT_SIZE);
    BigEndian(ToUnsigned(v, INT_SIZE), INT_SIZE)
  }

  /** ByteBuffer.getInt */
  function GetInt(s: seq<Byte>): (v: int)
    requires |s| == 4
    ensures IsInt32(v)
  {
    ToSigned(FromBigEndian(s), INT_SIZE)
  }

  /** ByteBuffer.putLong */
  function PutLong(v: int): (s: seq<Byte>)
    requires IsInt64(v)
    ensures |s| == 8 && GetLong(s) == v
  {
    FromBigEndianRoundTrip(ToUnsigned(v, LONG_SIZE), LONG_SIZE);
    BigEndian(ToUnsigned(v, LONG_SIZE), LONG_SIZE)
  }

  /** ByteBuffer.getLong */
  function GetLong(s: seq<Byte>): (v: int)
    requires |s| == 8
    ensures IsInt64(v)
  {
    ToSigned(FromBigEndian(s), LONG_SIZE)
  }

  /** The bytes a freshly allocated ByteBuffer holds where nothing was put. */
  function Zeros(n: nat): (s: seq<Byte>)
    ensures |s| == n && forall i :: 0 <= i < n ==> s[i] == 0
  {
    seq(n, i => 0)
  }

  /** A name all of whose chars String.getBytes encodes as one byte each. */
  predicate SingleByteChars(name: string)
  {
    forall i :: 0 <= i < |name| ==> name[i] as int < 128
  }

  /** String.getBytes for a name of single-byte chars. */
  function NameBytes(name: string): (s: seq<Byte>)
    requires SingleByteChars(name)
    ensures |s| == |name| && NameOfBytes(s) == name
  {
    seq(|name|, i requires 0 <= i < |name| => name[i] as int)
  }

  /** The client's reading of name bytes back into a string. */
  function NameOfBytes(s: seq<Byte>): (name: string)
    ensures |name| == |s|
  {
    seq(|s|, i requires 0 <= i < |s| => s[i] as char)
  }
}

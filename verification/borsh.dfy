/** The Borsh wire primitives the framework uses for instruction arguments and
    account data: little-endian fixed-width integers and length-prefixed byte
    strings, each with a reader that undoes its writer. */
module Borsh {
  import opened Types
  import opened Utf8

  function Pow256(n: nat): (r: nat)
    ensures r >= 1
  {
    if n == 0 then 1 else 256 * Pow256(n - 1)
  }

  lemma WidthConstants()
    ensures Pow256(4) == 0x1_0000_0000
    ensures Pow256(8) == U64_MAX + 1
  {
  }

  /** The `n` low-order bytes of `x`, least significant first. */
  function LeBytes(x: nat, n: nat): (r: seq<byte>)
    ensures |r| == n
  {
    if n == 0 then [] else [(x % 256) as byte] + LeBytes(x / 256, n - 1)
  }

  /** The number whose little-endian bytes are `s`. */
  function LeValue(s: seq<byte>): nat
  {
    if |s| == 0 then 0 else s[0] + 256 * LeValue(s[1..])
  }

  lemma {:induction false} LeValueBound(s: seq<byte>)
    ensures LeValue(s) < Pow256(|s|)
  {
    if |s| > 0 {
      LeValueBound(s[1..]);
    }
  }

  /** Writing `x` in `n` bytes and reading it back yields `x` whenever `x` fits. */
  lemma {:induction false} LeRoundTrip(x: nat, n: nat)
    requires x < Pow256(n)
    ensures LeValue(LeBytes(x, n)) == x
  {
    if n > 0 {
      assert x / 256 < Pow256(n - 1);
      LeRoundTrip(x / 256, n - 1);
      var r := LeBytes(x, n);
      assert r[1..] == LeBytes(x / 256, n - 1);
    }
  }

  function EncodeU32(x: nat): (r: seq<byte>)
    requires x < 0x1_0000_0000
    ensures |r| == 4
  {
    LeBytes(x, 4)
  }

  function EncodeU64(x: U64): (r: seq<byte>)
    ensures |r| == 8
  {
    LeBytes(x, 8)
  }

  /** Two's-complement encoding of a signed 64-bit integer. */
  function EncodeI64(x: I64): (r: seq<byte>)
    ensures |r| == 8
  {
    LeBytes(if x < 0 then x + (U64_MAX + 1) else x, 8)
  }

  /** A Borsh `String` / `Vec<u8>`: a `u32` length followed by the bytes. */
  function EncodeBytes(s: seq<byte>): (r: seq<byte>)
    requires |s| < 0x1_0000_0000
    ensures |r| == 4 + |s|
  {
    EncodeU32(|s|) + s
  }

  /** Reads `n` raw bytes off the front of `data`, returning them and the rest. */
  function ReadFixed(data: seq<byte>, n: nat): (r: Option<(seq<byte>, seq<byte>)>)
    ensures r.Some? <==> n <= |data|
    ensures r.Some? ==> |r.value.0| == n && r.value.0 + r.value.1 == data
  {
    if |data| < n then None else Some((data[..n], data[n..]))
  }

  function ReadU32(data: seq<byte>): Option<(nat, seq<byte>)>
  {
    match ReadFixed(data, 4)
    case None => None
    case Some((b, rest)) => Some((LeValue(b), rest))
  }

  function ReadU64(data: seq<byte>): Option<(U64, seq<byte>)>
  {
    match ReadFixed(data, 8)
    case None => None
    case Some((b, rest)) =>
      LeValueBound(b);
      WidthConstants();
      Some((LeValue(b), rest))
  }

  function ReadI64(data: seq<byte>): Option<(I64, seq<byte>)>
  {
    match ReadFixed(data, 8)
    case None => None
    case Some((b, rest)) =>
      LeValueBound(b);
      WidthConstants();
      var v := LeValue(b);
      Some((if v > I64_MAX then v - (U64_MAX + 1) else v, rest))
  }

  function ReadBytes(data: seq<byte>): Option<(seq<byte>, seq<byte>)>
  {
    match ReadU32(data)
    case None => None
    case Some((len, rest)) => ReadFixed(rest, len)
  }

  /** A Borsh `String`: the bytes of a `Vec<u8>`, refused unless they are
      well-formed UTF-8. */
  function ReadString(data: seq<byte>): (r: Option<(seq<byte>, seq<byte>)>)
    ensures r.Some? ==> IsUtf8(r.value.0)
  {
    match ReadBytes(data)
    case None => None
    case Some((s, rest)) => if IsUtf8(s) then Some((s, rest)) else None
  }

  /** Three consecutive `String`s, as both the argument list and the account
      hold them (title, content URI, image URI). */
  function ReadThreeStrings(data: seq<byte>): Option<(seq<byte>, seq<byte>, seq<byte>, seq<byte>)>
  {
    match ReadString(data)
    case None => None
    case Some((s1, r1)) =>
    match ReadString(r1)
    case None => None
    case Some((s2, r2)) =>
    match ReadString(r2)
    case None => None
    case Some((s3, r3)) => Some((s1, s2, s3, r3))
  }

  lemma ReadFixedPrefix(s: seq<byte>, tail: seq<byte>)
    ensures ReadFixed(s + tail, |s|) == Some((s, tail))
  {
    assert (s + tail)[..|s|] == s;
    assert (s + tail)[|s|..] == tail;
  }

  lemma ReadU64RoundTrip(x: U64, tail: seq<byte>)
    ensures ReadU64(EncodeU64(x) + tail) == Some((x, tail))
  {
    WidthConstants();
    ReadFixedPrefix(EncodeU64(x), tail);
    LeRoundTrip(x, 8);
  }

  lemma ReadI64RoundTrip(x: I64, tail: seq<byte>)
    ensures ReadI64(EncodeI64(x) + tail) == Some((x, tail))
  {
    WidthConstants();
    ReadFixedPrefix(EncodeI64(x), tail);
    LeRoundTrip(if x < 0 then x + (U64_MAX + 1) else x, 8);
  }

  lemma ReadBytesRoundTrip(s: seq<byte>, tail: seq<byte>)
    requires |s| < 0x1_0000_0000
    ensures ReadBytes(EncodeBytes(s) + tail) == Some((s, tail))
  {
    WidthConstants();
    var len := EncodeU32(|s|);
    assert EncodeBytes(s) + tail == len + (s + tail);
    ReadFixedPrefix(len, s + tail);
    LeRoundTrip(|s|, 4);
    ReadFixedPrefix(s, tail);
  }

  /** A well-formed UTF-8 string reads back unchanged; any other bytes are
      refused even though their length prefix is right. */
  lemma ReadStringRoundTrip(s: seq<byte>, tail: seq<byte>)
    requires |s| < 0x1_0000_0000
    ensures ReadString(EncodeBytes(s) + tail) == if IsUtf8(s) then Some((s, tail)) else None
  {
    ReadBytesRoundTrip(s, tail);
  }

  lemma ReadThreeStringsRoundTrip(s1: seq<byte>, s2: seq<byte>, s3: seq<byte>, tail: seq<byte>)
    requires |s1| < 0x1_0000_0000 && |s2| < 0x1_0000_0000 && |s3| < 0x1_0000_0000
    ensures ReadThreeStrings(EncodeBytes(s1) + EncodeBytes(s2) + EncodeBytes(s3) + tail)
         == if IsUtf8(s1) && IsUtf8(s2) && IsUtf8(s3) then Some((s1, s2, s3, tail)) else None
  {
    var t2 := EncodeBytes(s3) + tail;
    var t1 := EncodeBytes(s2) + t2;
    assert EncodeBytes(s1) + EncodeBytes(s2) + EncodeBytes(s3) + tail == EncodeBytes(s1) + t1;
    ReadStringRoundTrip(s1, t1);
    ReadStringRoundTrip(s2, t2);
    ReadStringRoundTrip(s3, tail);
  }
}

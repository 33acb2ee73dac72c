/** UTF-8, the encoding in which the client hands strings to the program
    (`Buffer.from(s)`, `createHash(...).update(s, "utf8")`, Borsh `String`)
    and in which the program measures them (`str::len`); and the validation
    a Borsh `String` goes through when it is read back. */
module Utf8 {
  import opened Types

  /** The one to four bytes that encode a Unicode scalar value. */
  function EncodeChar(c: char): (r: seq<byte>)
    ensures 1 <= |r| <= 4
    ensures |r| == 1 <==> (c as int) < 0x80
    ensures |r| == 1 ==> r[0] == c as int
  {
    var v := c as int;
    if v < 0x80 then [v]
    else if v < 0x800 then [0xC0 + v / 0x40, 0x80 + v % 0x40]
    else if v < 0x1_0000 then [0xE0 + v / 0x1000, 0x80 + (v / 0x40) % 0x40, 0x80 + v % 0x40]
    else [0xF0 + v / 0x4_0000, 0x80 + (v / 0x1000) % 0x40, 0x80 + (v / 0x40) % 0x40, 0x80 + v % 0x40]
  }

  function Encode(s: string): (r: seq<byte>)
  {
    if |s| == 0 then [] else EncodeChar(s[0]) + Encode(s[1..])
  }

  /** Every character takes one to four bytes, so the byte length is between
      the character count and four times it. */
  lemma {:induction false} EncodeLength(s: string)
    ensures |s| <= |Encode(s)| <= 4 * |s|
  {
    if |s| > 0 {
      EncodeLength(s[1..]);
    }
  }

  lemma EncodeEmpty(s: string)
    ensures Encode(s) == [] <==> s == []
  {
    EncodeLength(s);
  }

  /** Encoding distributes over concatenation. */
  lemma {:induction false} EncodeConcat(a: string, b: string)
    ensures Encode(a + b) == Encode(a) + Encode(b)
  {
    if |a| == 0 {
      assert a + b == b;
    } else {
      assert (a + b)[0] == a[0];
      assert (a + b)[1..] == a[1..] + b;
      EncodeConcat(a[1..], b);
    }
  }

  /** An ASCII string encodes to its code points, one byte each. */
  lemma {:induction false} EncodeAscii(s: string)
    requires forall i :: 0 <= i < |s| ==> (s[i] as int) < 0x80
    ensures |Encode(s)| == |s|
    ensures forall i :: 0 <= i < |s| ==> Encode(s)[i] == s[i] as int
  {
    if |s| > 0 {
      EncodeAscii(s[1..]);
      assert Encode(s) == [s[0] as int] + Encode(s[1..]);
    }
  }

  /** An ASCII string encodes to exactly the bytes of its code points. */
  lemma AsciiEncodes(s: string, b: seq<byte>)
    requires |s| == |b|
    requires forall i | 0 <= i < |s| :: s[i] as int == b[i] < 0x80
    ensures Encode(s) == b
  {
    EncodeAscii(s);
  }

  // ---------------------------------------------------------------------
  // Decoding: what `String::from_utf8` accepts
  // ---------------------------------------------------------------------

  predicate IsContinuation(b: byte)
  {
    0x80 <= b <= 0xBF
  }

  /** The length of the well-formed sequence at the front of `b`, or 0 when
      `b` does not start with one. The ranges are those of Table 3-7 of the
      Unicode Standard: no overlong forms, no surrogates, nothing above
      U+10FFFF. */
  function WellFormedPrefix(b: seq<byte>): (n: nat)
    ensures n <= 4 && n <= |b|
  {
    if |b| == 0 then 0
    else if b[0] < 0x80 then 1
    else if 0xC2 <= b[0] <= 0xDF then
      if 2 <= |b| && IsContinuation(b[1]) then 2 else 0
    else if 0xE0 <= b[0] <= 0xEF then
      var lo := if b[0] == 0xE0 then 0xA0 else 0x80;
      var hi := if b[0] == 0xED then 0x9F else 0xBF;
      if 3 <= |b| && lo <= b[1] <= hi && IsContinuation(b[2]) then 3 else 0
    else if 0xF0 <= b[0] <= 0xF4 then
      var lo := if b[0] == 0xF0 then 0x90 else 0x80;
      var hi := if b[0] == 0xF4 then 0x8F else 0xBF;
      if 4 <= |b| && lo <= b[1] <= hi && IsContinuation(b[2]) && IsContinuation(b[3]) then 4 else 0
    else 0
  }

  /** The six payload bits of a continuation byte. */
  function Payload(b: byte): int
  {
    b as int - 0x80
  }

  /** The scalar value the well-formed sequence at the front of `b` stands for. */
  function PrefixValue(b: seq<byte>): int
    requires WellFormedPrefix(b) > 0
  {
    var n := WellFormedPrefix(b);
    if n == 1 then b[0] as int
    else if n == 2 then (b[0] as int - 0xC0) * 0x40 + Payload(b[1])
    else if n == 3 then ((b[0] as int - 0xE0) * 0x40 + Payload(b[1])) * 0x40 + Payload(b[2])
    else (((b[0] as int - 0xF0) * 0x40 + Payload(b[1])) * 0x40 + Payload(b[2])) * 0x40 + Payload(b[3])
  }

  /** The character at the front of `b`: its encoding is that front sequence. */
  function PrefixChar(b: seq<byte>): (c: char)
    requires WellFormedPrefix(b) > 0
    ensures EncodeChar(c) == b[..WellFormedPrefix(b)]
  {
    PrefixValueEncodes(b);
    PrefixValue(b) as char
  }

  /** `String::from_utf8`: the string `b` encodes, or `None` when `b` is not
      well-formed UTF-8. */
  function Decode(b: seq<byte>): Option<string>
    decreases |b|
  {
    if |b| == 0 then Some([])
    else
      var n := WellFormedPrefix(b);
      if n == 0 then None
      else match Decode(b[n..])
        case None => None
        case Some(rest) => Some([PrefixChar(b)] + rest)
  }

  /** The byte strings a Borsh `String` may hold. */
  predicate IsUtf8(b: seq<byte>)
  {
    Decode(b).Some?
  }

  /** Decoding and encoding are inverse: `b` decodes to `s` exactly when `s`
      encodes to `b`. */
  lemma DecodeIffEncode(b: seq<byte>, s: string)
    ensures Decode(b) == Some(s) <==> Encode(s) == b
  {
    if Decode(b) == Some(s) {
      DecodeThenEncode(b, s);
    }
    if Encode(s) == b {
      EncodeThenDecode(s);
    }
  }

  /** Every encoded string is well-formed UTF-8. */
  lemma EncodeIsUtf8(s: string)
    ensures IsUtf8(Encode(s))
  {
    EncodeThenDecode(s);
  }

  lemma {:induction false} EncodeThenDecode(s: string)
    ensures Decode(Encode(s)) == Some(s)
  {
    if |s| > 0 {
      DecodeEncodedChar(s[0], Encode(s[1..]));
      EncodeThenDecode(s[1..]);
      assert (EncodeChar(s[0]) + Encode(s[1..]))[|EncodeChar(s[0])|..] == Encode(s[1..]);
      assert [s[0]] + s[1..] == s;
    }
  }

  lemma {:induction false} DecodeThenEncode(b: seq<byte>, s: string)
    requires Decode(b) == Some(s)
    ensures Encode(s) == b
    decreases |b|
  {
    if |b| > 0 {
      DecodeStep(b);
      var n := WellFormedPrefix(b);
      var tail := Decode(b[n..]).value;
      DecodeThenEncode(b[n..], tail);
      var c := PrefixChar(b);
      assert s == [c] + tail;
      EncodeCons(c, tail);
      assert EncodeChar(c) == b[..n];
      SplitAt(b, n);
    }
  }

  /** One step of decoding: a character, then the decoding of the rest. */
  lemma DecodeStep(b: seq<byte>)
    requires |b| > 0 && Decode(b).Some?
    ensures WellFormedPrefix(b) > 0
    ensures Decode(b[WellFormedPrefix(b)..]).Some?
    ensures Decode(b).value == [PrefixChar(b)] + Decode(b[WellFormedPrefix(b)..]).value
  {
  }

  lemma EncodeCons(c: char, s: string)
    ensures Encode([c] + s) == EncodeChar(c) + Encode(s)
  {
    assert ([c] + s)[0] == c && ([c] + s)[1..] == s;
  }

  lemma SplitAt(b: seq<byte>, n: nat)
    requires n <= |b|
    ensures b[..n] + b[n..] == b
  {
  }

  /** An encoded character is a well-formed sequence that decodes back to it. */
  lemma DecodeEncodedChar(c: char, rest: seq<byte>)
    ensures WellFormedPrefix(EncodeChar(c) + rest) == |EncodeChar(c)|
    ensures PrefixChar(EncodeChar(c) + rest) == c
  {
    EncodeCharWellFormed(c, rest);
    var b := EncodeChar(c) + rest;
    var e := EncodeChar(c);
    assert b[0] == e[0];
    assert |e| > 1 ==> b[1] == e[1];
    assert |e| > 2 ==> b[2] == e[2];
    assert |e| > 3 ==> b[3] == e[3];
    JoinGroups(c as int);
  }

  lemma EncodeCharWellFormed(c: char, rest: seq<byte>)
    ensures WellFormedPrefix(EncodeChar(c) + rest) == |EncodeChar(c)|
  {
    var v := c as int;
    if v < 0x80 {
    } else if v < 0x800 {
      TwoByteLead(v);
    } else if v < 0x1_0000 {
      ThreeByteLead(v);
    } else {
      FourByteLead(v);
    }
  }

  lemma TwoByteLead(v: int)
    requires 0x80 <= v < 0x800
    ensures 0xC2 <= 0xC0 + v / 0x40 <= 0xDF
    ensures IsContinuation(0x80 + v % 0x40)
  {
  }

  /** A three-byte encoding avoids the overlong range after `E0` and the
      surrogates after `ED`. */
  lemma ThreeByteLead(v: int)
    requires 0x800 <= v < 0x1_0000 && !(0xD800 <= v < 0xE000)
    ensures 0xE0 <= 0xE0 + v / 0x1000 <= 0xEF
    ensures var b1 := 0x80 + (v / 0x40) % 0x40;
      && IsContinuation(b1)
      && (v / 0x1000 == 0 ==> 0xA0 <= b1)
      && (v / 0x1000 == 0xD ==> b1 <= 0x9F)
    ensures IsContinuation(0x80 + v % 0x40)
  {
  }

  /** A four-byte encoding avoids the overlong range after `F0` and values
      above U+10FFFF after `F4`. */
  lemma FourByteLead(v: int)
    requires 0x1_0000 <= v <= 0x10_FFFF
    ensures 0xF0 <= 0xF0 + v / 0x4_0000 <= 0xF4
    ensures var b1 := 0x80 + (v / 0x1000) % 0x40;
      && IsContinuation(b1)
      && (v / 0x4_0000 == 0 ==> 0x90 <= b1)
      && (v / 0x4_0000 == 4 ==> b1 <= 0x8F)
    ensures IsContinuation(0x80 + (v / 0x40) % 0x40)
    ensures IsContinuation(0x80 + v % 0x40)
  {
  }

  /** Division by 64 undoes `q * 64 + r` for a remainder below 64. */
  lemma DivMod(q: int, r: int)
    requires 0 <= r < 0x40
    ensures (q * 0x40 + r) / 0x40 == q && (q * 0x40 + r) % 0x40 == r
  {
  }

  /** Splitting a value into six-bit groups and joining them again gives the
      value back. */
  lemma JoinGroups(v: int)
    requires 0 <= v
    ensures (v / 0x40) * 0x40 + v % 0x40 == v
    ensures ((v / 0x1000) * 0x40 + (v / 0x40) % 0x40) * 0x40 + v % 0x40 == v
    ensures (((v / 0x4_0000) * 0x40 + (v / 0x1000) % 0x40) * 0x40 + (v / 0x40) % 0x40) * 0x40 + v % 0x40 == v
  {
    var q := v / 0x40;
    assert q / 0x40 == v / 0x1000;
    assert (q / 0x40) / 0x40 == v / 0x4_0000;
  }

  /** The value at the front of a well-formed sequence is a Unicode scalar
      value whose encoding is that sequence. */
  lemma PrefixValueEncodes(b: seq<byte>)
    requires WellFormedPrefix(b) > 0
    ensures 0 <= PrefixValue(b) < 0xD800 || 0xE000 <= PrefixValue(b) <= 0x10_FFFF
    ensures EncodeChar(PrefixValue(b) as char) == b[..WellFormedPrefix(b)]
  {
    var n := WellFormedPrefix(b);
    if n == 2 {
      DivMod(b[0] as int - 0xC0, Payload(b[1]));
    } else if n == 3 {
      ThreeByteValue(b);
    } else if n == 4 {
      FourByteValue(b);
    }
  }

  lemma ThreeByteValue(b: seq<byte>)
    requires WellFormedPrefix(b) == 3
    ensures 0x800 <= PrefixValue(b) < 0xD800 || 0xE000 <= PrefixValue(b) < 0x1_0000
    ensures EncodeChar(PrefixValue(b) as char) == b[..3]
  {
    var hi := (b[0] as int - 0xE0) * 0x40 + Payload(b[1]);
    var v := PrefixValue(b);
    DivMod(hi, Payload(b[2]));
    DivMod(b[0] as int - 0xE0, Payload(b[1]));
    assert v / 0x1000 == (v / 0x40) / 0x40;
  }

  lemma FourByteValue(b: seq<byte>)
    requires WellFormedPrefix(b) == 4
    ensures 0x1_0000 <= PrefixValue(b) <= 0x10_FFFF
    ensures EncodeChar(PrefixValue(b) as char) == b[..4]
  {
    var top := (b[0] as int - 0xF0) * 0x40 + Payload(b[1]);
    var hi := top * 0x40 + Payload(b[2]);
    var v := PrefixValue(b);
    DivMod(hi, Payload(b[3]));
    DivMod(top, Payload(b[2]));
    DivMod(b[0] as int - 0xF0, Payload(b[1]));
    assert v / 0x1000 == (v / 0x40) / 0x40;
    assert v / 0x4_0000 == (v / 0x1000) / 0x40;
  }
}

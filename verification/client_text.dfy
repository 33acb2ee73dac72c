/** The browser client's string helpers: `String.prototype.trim`, as applied
    to the mint form's inputs, and `shortenAddr`. */
module ClientText {

  /** ECMAScript WhiteSpace and LineTerminator: what `trim` removes. */
  predicate IsJsWhitespace(c: char)
  {
    || c == '\t' || c == '\n' || c == '\U{B}' || c == '\U{C}' || c == '\r' || c == ' '
    || c == '\U{A0}' || c == '\U{1680}' || ('\U{2000}' <= c <= '\U{200A}')
    || c == '\U{2028}' || c == '\U{2029}' || c == '\U{202F}' || c == '\U{205F}'
    || c == '\U{3000}' || c == '\U{FEFF}'
  }

  predicate AllWhitespace(s: string)
  {
    forall i | 0 <= i < |s| :: IsJsWhitespace(s[i])
  }

  /** Drops leading whitespace. */
  function TrimStart(s: string): (r: string)
    ensures |r| <= |s| && r == s[|s| - |r|..]
    ensures AllWhitespace(s[..|s| - |r|])
    ensures |r| > 0 ==> !IsJsWhitespace(r[0])
  {
    if |s| > 0 && IsJsWhitespace(s[0]) then TrimStart(s[1..]) else s
  }

  /** Drops trailing whitespace. */
  function TrimEnd(s: string): (r: string)
    ensures |r| <= |s| && r == s[..|r|]
    ensures AllWhitespace(s[|r|..])
    ensures |r| > 0 ==> !IsJsWhitespace(r[|r| - 1])
  {
    if |s| > 0 && IsJsWhitespace(s[|s| - 1]) then TrimEnd(s[..|s| - 1]) else s
  }

  /** `s.trim()`: whitespace at neither end of the result. */
  function Trim(s: string): (r: string)
    ensures |r| <= |s|
    ensures |r| > 0 ==> !IsJsWhitespace(r[0]) && !IsJsWhitespace(r[|r| - 1])
  {
    TrimEnd(TrimStart(s))
  }

  /** `trim` keeps a contiguous middle part of its input, drops only
      whitespace around it, and leaves no whitespace at either end. */
  lemma TrimSpec(s: string)
    ensures exists i, j | 0 <= i <= j <= |s| ::
      && Trim(s) == s[i..j]
      && AllWhitespace(s[..i])
      && AllWhitespace(s[j..])
    ensures |Trim(s)| > 0 ==> !IsJsWhitespace(Trim(s)[0]) && !IsJsWhitespace(Trim(s)[|Trim(s)| - 1])
  {
    var t := TrimStart(s);
    var u := TrimEnd(t);
    var i := |s| - |t|;
    var j := i + |u|;
    SuffixSlices(s, i, |u|);
    assert Trim(s) == s[i..j] && AllWhitespace(s[..i]) && AllWhitespace(s[j..]);
  }

  /** Slicing a suffix of `s` is slicing `s`. */
  lemma SuffixSlices(s: string, i: nat, m: nat)
    requires i + m <= |s|
    ensures s[i..][..m] == s[i..i + m]
    ensures s[i..][m..] == s[i + m..]
  {
  }

  /** A trimmed input is empty exactly when the input was all whitespace:
      the condition under which the mint form reports a missing field. */
  lemma TrimEmptyIffBlank(s: string)
    ensures Trim(s) == [] <==> AllWhitespace(s)
  {
    var t := TrimStart(s);
    if Trim(s) == [] {
      assert AllWhitespace(t);
      assert s == s[..|s| - |t|] + t;
    } else {
      assert !IsJsWhitespace(t[0]);
    }
  }

  /** Trimming twice is trimming once. */
  lemma TrimIdempotent(s: string)
    ensures Trim(Trim(s)) == Trim(s)
  {
    TrimSpec(s);
  }

  function Min(a: int, b: int): int { if a <= b then a else b }
  function Max(a: int, b: int): int { if a <= b then b else a }

  /** `shortenAddr`: `addr.slice(0, 4) + "..." + addr.slice(-4)`; a negative
      `slice` start counts from the end and stops at the beginning. */
  function ShortenAddr(addr: string): (r: string)
    ensures |r| == 2 * Min(4, |addr|) + 3
  {
    addr[..Min(4, |addr|)] + "..." + addr[Max(|addr| - 4, 0)..]
  }

  /** An address of at least four characters, so every base58 address (32 to
      44 characters), shortens to its first four characters, an ellipsis and
      its last four. */
  lemma ShortenAddrShape(addr: string)
    requires |addr| >= 4
    ensures |ShortenAddr(addr)| == 11
    ensures ShortenAddr(addr)[..4] == addr[..4]
    ensures ShortenAddr(addr)[4..7] == "..."
    ensures ShortenAddr(addr)[7..] == addr[|addr| - 4..]
  {
  }

  /** A string of at most four characters appears whole on both sides. */
  lemma ShortenShortAddr(addr: string)
    requires |addr| <= 4
    ensures ShortenAddr(addr) == addr + "..." + addr
  {
  }
}

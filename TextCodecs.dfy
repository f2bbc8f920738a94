/**
 * Small text conversions the source takes from Python's library:
 * `str.encode()` (UTF-8), `xml.sax.saxutils.escape` and the `"hex"` codec.
 */
module TextCodecs {
  import opened Base

  /** The UTF-8 encoding of one character (Dafny characters are Unicode scalar values). */
  function Utf8Char(c: char): (r: Bytes)
    ensures 1 <= |r| <= 4
    ensures c as int < 0x80 ==> r == [c as byte]
    ensures c as int >= 0x80 ==> forall i :: 0 <= i < |r| ==> r[i] as int >= 0x80
  {
    var n := c as int;
    if n < 0x80 then [ByteOf(n)]
    else if n < 0x800 then [ByteOf(0xC0 + n / 0x40), ByteOf(0x80 + n % 0x40)]
    else if n < 0x10000 then
      [ByteOf(0xE0 + n / 0x1000), ByteOf(0x80 + n / 0x40 % 0x40), ByteOf(0x80 + n % 0x40)]
    else
      [ByteOf(0xF0 + n / 0x40000), ByteOf(0x80 + n / 0x1000 % 0x40),
       ByteOf(0x80 + n / 0x40 % 0x40), ByteOf(0x80 + n % 0x40)]
  }

  /** `s.encode("utf-8")`: ASCII text is its own encoding, other characters give only high bytes. */
  function Utf8(s: string): (r: Bytes)
    ensures |r| >= |s|
    decreases |s|
  {
    if s == [] then [] else Utf8Char(s[0]) + Utf8(s[1..])
  }

  /** ASCII text is encoded as itself. */
  lemma {:induction false} Utf8Ascii(s: string)
    requires forall i :: 0 <= i < |s| ==> s[i] as int < 0x80
    ensures Utf8(s) == s
    decreases |s|
  {
    if s != [] {
      Utf8Ascii(s[1..]);
    }
  }

  /** Encoding is homomorphic: the encoding of a concatenation is the concatenation of the encodings. */
  lemma {:induction false} Utf8Append(s: string, t: string)
    ensures Utf8(s + t) == Utf8(s) + Utf8(t)
    decreases |s|
  {
    if s == [] {
      assert s + t == t;
    } else {
      assert (s + t)[1..] == s[1..] + t;
      Utf8Append(s[1..], t);
    }
  }

  /** An ASCII prefix is encoded as itself at the front of the encoding. */
  lemma Utf8AsciiPrefix(p: string, t: string)
    requires forall i :: 0 <= i < |p| ==> p[i] as int < 0x80
    ensures |Utf8(p + t)| >= |p| && Utf8(p + t)[..|p|] == p
  {
    Utf8Append(p, t);
    Utf8Ascii(p);
  }

  /** The escape of one character by `xml.sax.saxutils.escape`. */
  function EscapeChar(c: char): string {
    if c == '&' then "&amp;" else if c == '>' then "&gt;" else if c == '<' then "&lt;" else [c]
  }

  /**
   * `xml.sax.saxutils.escape(s)`: `&`, `>` and `<` become entities, so no
   * angle bracket survives.
   */
  function HtmlEscape(s: string): (r: string)
    ensures forall i :: 0 <= i < |r| ==> r[i] != '<' && r[i] != '>'
    ensures (forall i :: 0 <= i < |s| ==> s[i] != '&' && s[i] != '<' && s[i] != '>') ==> r == s
    decreases |s|
  {
    if s == [] then [] else EscapeChar(s[0]) + HtmlEscape(s[1..])
  }

  /** Replaces the three entities `escape` produces by their characters. */
  function HtmlUnescape(s: string): string
    decreases |s|
  {
    if |s| >= 5 && s[..5] == "&amp;" then "&" + HtmlUnescape(s[5..])
    else if |s| >= 4 && s[..4] == "&gt;" then ">" + HtmlUnescape(s[4..])
    else if |s| >= 4 && s[..4] == "&lt;" then "<" + HtmlUnescape(s[4..])
    else if s == [] then []
    else [s[0]] + HtmlUnescape(s[1..])
  }

  /** Unescaping undoes the escape of the first character. */
  lemma UnescapeEscapeChar(c: char, rest: string)
    ensures HtmlUnescape(EscapeChar(c) + rest) == [c] + HtmlUnescape(rest)
  {
    if c == '&' {
      UnescapeEntity("&amp;", c, rest);
    } else if c == '>' {
      UnescapeEntity("&gt;", c, rest);
    } else if c == '<' {
      UnescapeEntity("&lt;", c, rest);
    } else {
      var t := [c] + rest;
      assert t[0] == c && t[1..] == rest;
    }
  }

  /** An entity at the front unescapes to its character. */
  lemma UnescapeEntity(e: string, c: char, rest: string)
    requires (e == "&amp;" && c == '&') || (e == "&gt;" && c == '>') || (e == "&lt;" && c == '<')
    ensures HtmlUnescape(e + rest) == [c] + HtmlUnescape(rest)
  {
    var t := e + rest;
    assert t[..|e|] == e && t[|e|..] == rest;
    assert t[1] == e[1];
  }

  /** The escaped value shown in an error message determines the provided value. */
  lemma {:induction false} UnescapeEscape(s: string)
    ensures HtmlUnescape(HtmlEscape(s)) == s
    decreases |s|
  {
    if s != [] {
      UnescapeEscape(s[1..]);
      UnescapeEscapeChar(s[0], HtmlEscape(s[1..]));
      assert s == [s[0]] + s[1..];
    }
  }

  predicate IsLowerHexDigit(c: char) {
    ('0' <= c <= '9') || ('a' <= c <= 'f')
  }

  /** The lower-case hexadecimal digit for `n`. */
  function LowerHexDigit(n: int): (c: char)
    requires 0 <= n < 16
    ensures IsLowerHexDigit(c)
  {
    if n < 10 then ('0' as int + n) as char else ('a' as int + n - 10) as char
  }

  /** The value of a lower-case hexadecimal digit. */
  function LowerHexValue(c: char): (n: int)
    requires IsLowerHexDigit(c)
    ensures 0 <= n < 16 && LowerHexDigit(n) == c
  {
    if c <= '9' then c as int - '0' as int else c as int - 'a' as int + 10
  }

  /** `bs.encode("hex")`: two lower-case hexadecimal digits per byte. */
  function LowerHex(bs: Bytes): (r: string)
    ensures |r| == 2 * |bs|
    ensures forall i :: 0 <= i < |r| ==> IsLowerHexDigit(r[i])
    decreases |bs|
  {
    if bs == [] then []
    else [LowerHexDigit(bs[0] as int / 16), LowerHexDigit(bs[0] as int % 16)] + LowerHex(bs[1..])
  }

  /** Decodes two hexadecimal digits per byte. */
  function ParseLowerHex(s: string): Option<Bytes>
    decreases |s|
  {
    if s == [] then Some([])
    else if |s| >= 2 && IsLowerHexDigit(s[0]) && IsLowerHexDigit(s[1]) then
      match ParseLowerHex(s[2..])
      case None => None
      case Some(rest) => Some([ByteOf(16 * LowerHexValue(s[0]) + LowerHexValue(s[1]))] + rest)
    else None
  }

  lemma LowerHexDigitValue(n: int)
    requires 0 <= n < 16
    ensures LowerHexValue(LowerHexDigit(n)) == n
  {
  }

  /** The hexadecimal form determines the bytes. */
  lemma {:induction false} ParseLowerHexInverse(bs: Bytes)
    ensures ParseLowerHex(LowerHex(bs)) == Some(bs)
    decreases |bs|
  {
    if bs != [] {
      ParseLowerHexInverse(bs[1..]);
      var hi, lo := bs[0] as int / 16, bs[0] as int % 16;
      var s := LowerHex(bs);
      assert s == [LowerHexDigit(hi), LowerHexDigit(lo)] + LowerHex(bs[1..]);
      assert s[2..] == LowerHex(bs[1..]);
      LowerHexDigitValue(hi);
      LowerHexDigitValue(lo);
      assert 16 * hi + lo == bs[0] as int;
      assert bs == [bs[0]] + bs[1..];
    }
  }
}

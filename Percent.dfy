/**
 * Percent-encoding as `urllib.parse.quote_from_bytes(b, b"")` performs it:
 * every byte outside the unreserved set of RFC 3986 section 2.3 becomes
 * `%XX` with two upper-case hexadecimal digits.  `Decode` is the exact
 * inverse, used to state what the encoding preserves.
 */
module Percent {
  import opened Base

  /** The unreserved characters of RFC 3986 section 2.3: letters, digits, `-`, `.`, `_`, `~`. */
  predicate Unreserved(b: byte) {
    ('A' <= b <= 'Z') || ('a' <= b <= 'z') || ('0' <= b <= '9') || b == '-' || b == '.' || b == '_' || b == '~'
  }

  /** The upper-case hexadecimal digit for `n`. */
  function HexDigit(n: int): (b: byte)
    requires 0 <= n < 16
    ensures Unreserved(b)
  {
    if n < 10 then ByteOf('0' as int + n) else ByteOf('A' as int + n - 10)
  }

  predicate IsHexDigit(b: byte) {
    ('0' <= b <= '9') || ('A' <= b <= 'F')
  }

  /** The value of an upper-case hexadecimal digit. */
  function HexValue(b: byte): (n: int)
    requires IsHexDigit(b)
    ensures 0 <= n < 16 && HexDigit(n) == b
  {
    if b <= '9' then b as int - '0' as int else b as int - 'A' as int + 10
  }

  /** The encoding of one byte. */
  function EncodeByte(b: byte): (r: Bytes)
    ensures forall i :: 0 <= i < |r| ==> Unreserved(r[i]) || r[i] == '%'
  {
    if Unreserved(b) then [b] else ['%' as byte, HexDigit(b as int / 16), HexDigit(b as int % 16)]
  }

  /** `quote_from_bytes(s, b"")`: only unreserved bytes and `%` appear in the result. */
  function Encode(s: Bytes): (r: Bytes)
    ensures forall i :: 0 <= i < |r| ==> Unreserved(r[i]) || r[i] == '%'
    ensures |r| >= |s|
    decreases |s|
  {
    if s == [] then [] else EncodeByte(s[0]) + Encode(s[1..])
  }

  /** The byte a `%XX` escape stands for. */
  function EscapedByte(hi: byte, lo: byte): byte
    requires IsHexDigit(hi) && IsHexDigit(lo)
  {
    ByteOf(16 * HexValue(hi) + HexValue(lo))
  }

  /**
   * Strict percent-decoding: accepts exactly the outputs of `Encode`
   * (escapes only for reserved bytes, upper-case hexadecimal digits).
   */
  function Decode(t: Bytes): Option<Bytes>
    decreases |t|
  {
    if t == [] then Some([])
    else if t[0] == '%' then
      if |t| >= 3 && IsHexDigit(t[1]) && IsHexDigit(t[2]) && !Unreserved(EscapedByte(t[1], t[2])) then
        match Decode(t[3..])
        case None => None
        case Some(rest) => Some([EscapedByte(t[1], t[2])] + rest)
      else None
    else if Unreserved(t[0]) then
      match Decode(t[1..])
      case None => None
      case Some(rest) => Some([t[0]] + rest)
    else None
  }

  lemma HexSplit(b: byte)
    ensures b as int / 16 < 16
    ensures EscapedByte(HexDigit(b as int / 16), HexDigit(b as int % 16)) == b
  {
    var hi, lo := b as int / 16, b as int % 16;
    assert HexValue(HexDigit(hi)) == hi && HexValue(HexDigit(lo)) == lo;
    assert 16 * hi + lo == b as int;
  }

  /** Every encoding decodes back to its input. */
  lemma {:induction false} DecodeEncode(s: Bytes)
    ensures Decode(Encode(s)) == Some(s)
    decreases |s|
  {
    if s != [] {
      DecodeEncode(s[1..]);
      var t := Encode(s);
      assert t == EncodeByte(s[0]) + Encode(s[1..]);
      if Unreserved(s[0]) {
        assert t[1..] == Encode(s[1..]);
      } else {
        HexSplit(s[0]);
        assert t[3..] == Encode(s[1..]);
      }
      assert s == [s[0]] + s[1..];
    }
  }

  /** Whatever decodes to `s` is the encoding of `s`: the encoding is canonical. */
  lemma {:induction false} EncodeDecode(t: Bytes, s: Bytes)
    requires Decode(t) == Some(s)
    ensures Encode(s) == t
    decreases |t|
  {
    if t != [] {
      if t[0] == '%' {
        var b := EscapedByte(t[1], t[2]);
        var h, l := HexValue(t[1]), HexValue(t[2]);
        assert b as int / 16 == h && b as int % 16 == l;
        EncodeDecode(t[3..], s[1..]);
        assert s == [b] + s[1..];
        assert t == [t[0], t[1], t[2]] + t[3..];
      } else {
        EncodeDecode(t[1..], s[1..]);
        assert s == [t[0]] + s[1..];
        assert t == [t[0]] + t[1..];
      }
    }
  }

  /** The encoding is one-to-one. */
  lemma EncodeInjective(s: Bytes, s': Bytes)
    requires Encode(s) == Encode(s')
    ensures s == s'
  {
    DecodeEncode(s);
    DecodeEncode(s');
  }

  /** A string of unreserved bytes is its own encoding. */
  lemma {:induction false} EncodeUnreserved(s: Bytes)
    requires forall i :: 0 <= i < |s| ==> Unreserved(s[i])
    ensures Encode(s) == s
    decreases |s|
  {
    if s != [] {
      EncodeUnreserved(s[1..]);
      assert s == [s[0]] + s[1..];
    }
  }
}

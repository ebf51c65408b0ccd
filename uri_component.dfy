/**
 * ECMAScript's encodeURIComponent (the Encode abstract operation of ECMA-262,
 * section 19.2.6, with the uriUnescaped set), the percent-encoding of section
 * 2.1 of RFC 3986 over the UTF-8 octets of each code point; and its inverse,
 * used to show that the encoding loses nothing.
 *
 * Strings are sequences of Unicode scalar values, so the lone surrogates on
 * which encodeURIComponent throws cannot occur here.
 */
module UriComponent {
  import opened Wrappers

  type Byte = x: int | 0 <= x < 256

  /** The characters encodeURIComponent copies unchanged: letters, digits and - _ . ! ~ * ' ( ). */
  predicate Unescaped(c: char) {
    || ('a' <= c <= 'z')
    || ('A' <= c <= 'Z')
    || ('0' <= c <= '9')
    || c == '-' || c == '_' || c == '.' || c == '!' || c == '~'
    || c == '*' || c == '\'' || c == '(' || c == ')'
  }

  /** A character that can occur in the output of Encode. */
  predicate EncodedChar(c: char) {
    Unescaped(c) || c == '%'
  }

  // ---------------------------------------------------------------- UTF-8

  predicate IsScalar(cp: int) {
    (0 <= cp < 0xD800) || (0xE000 <= cp <= 0x10FFFF)
  }

  /** The UTF-8 octets of one code point (RFC 3629, section 3). */
  function Utf8Char(c: char): (r: seq<Byte>)
    ensures 1 <= |r| <= 4
  {
    var cp := c as int;
    if cp < 0x80 then [cp]
    else if cp < 0x800 then [0xC0 + cp / 64, 0x80 + cp % 64]
    else if cp < 0x10000 then [0xE0 + cp / 4096, 0x80 + cp / 64 % 64, 0x80 + cp % 64]
    else [0xF0 + cp / 0x40000, 0x80 + cp / 4096 % 64, 0x80 + cp / 64 % 64, 0x80 + cp % 64]
  }

  /** Number of octets of the UTF-8 sequence a lead octet starts; 0 when it cannot lead one. */
  function SequenceLength(lead: Byte): nat {
    if lead < 0x80 then 1
    else if 0xC0 <= lead < 0xE0 then 2
    else if 0xE0 <= lead < 0xF0 then 3
    else if 0xF0 <= lead < 0xF8 then 4
    else 0
  }

  predicate Continuation(b: Byte) {
    0x80 <= b < 0xC0
  }

  /** The code point one complete UTF-8 sequence stands for; None for overlong forms, surrogates and values past U+10FFFF. */
  function ScalarOf(bs: seq<Byte>): Option<char>
    requires 1 <= |bs| <= 4 && SequenceLength(bs[0]) == |bs|
  {
    if |bs| == 1 then Some(bs[0] as char)
    else if exists k :: 1 <= k < |bs| && !Continuation(bs[k]) then None
    else
      var cp: int :=
        if |bs| == 2 then (bs[0] as int - 0xC0) * 64 + (bs[1] as int - 0x80)
        else if |bs| == 3 then (bs[0] as int - 0xE0) * 4096 + (bs[1] as int - 0x80) * 64 + (bs[2] as int - 0x80)
        else (bs[0] as int - 0xF0) * 0x40000 + (bs[1] as int - 0x80) * 4096 + (bs[2] as int - 0x80) * 64 + (bs[3] as int - 0x80);
      var least: int := if |bs| == 2 then 0x80 else if |bs| == 3 then 0x800 else 0x10000;
      if least <= cp && IsScalar(cp) then Some(cp as char) else None
  }

  /** Decodes a whole octet sequence as UTF-8. */
  function Utf8Decode(bs: seq<Byte>): Option<string>
    decreases |bs|
  {
    if bs == [] then Some([])
    else
      var n := SequenceLength(bs[0]);
      if n == 0 || |bs| < n then None
      else match ScalarOf(bs[..n])
        case None => None
        case Some(c) =>
          match Utf8Decode(bs[n..])
          case None => None
          case Some(rest) => Some([c] + rest)
  }

  /** Quotient-and-remainder facts for the 6-bit groups of UTF-8. */
  lemma SixBitGroups(cp: nat)
    ensures cp == cp / 64 * 64 + cp % 64
    ensures cp / 64 == cp / 4096 * 64 + cp / 64 % 64
    ensures cp / 4096 == cp / 0x40000 * 64 + cp / 4096 % 64
  {
    var q1, q2, q3 := cp / 64, cp / 4096, cp / 0x40000;
    assert q1 / 64 == q2 by {
      assert cp == q1 * 64 + cp % 64;
      assert q1 == q1 / 64 * 64 + q1 % 64;
      assert cp == q1 / 64 * 4096 + (q1 % 64 * 64 + cp % 64);
    }
    assert q2 / 64 == q3 by {
      assert cp == q2 * 4096 + cp % 4096;
      assert q2 == q2 / 64 * 64 + q2 % 64;
      assert cp == q2 / 64 * 0x40000 + (q2 % 64 * 4096 + cp % 4096);
    }
  }

  /** The octets of one code point decode back to it, whatever follows them. */
  lemma Utf8CharDecodes(c: char, rest: seq<Byte>)
    ensures var n := |Utf8Char(c)|;
            var bs := Utf8Char(c) + rest;
            && SequenceLength(bs[0]) == n
            && ScalarOf(bs[..n]) == Some(c)
            && bs[n..] == rest
  {
    var cp := c as int;
    var e := Utf8Char(c);
    var bs := e + rest;
    var n := |e|;
    assert bs[..n] == e && bs[n..] == rest;
    SixBitGroups(cp);
    if cp >= 0x80 {
      assert forall k :: 1 <= k < n ==> Continuation(e[k]);
    }
  }

  /** UTF-8 of a whole string: the octets of each code point in turn. */
  function Utf8(s: string): seq<Byte> {
    if s == [] then [] else Utf8Char(s[0]) + Utf8(s[1..])
  }

  lemma {:induction false} Utf8RoundTrip(s: string)
    ensures Utf8Decode(Utf8(s)) == Some(s)
  {
    if s != [] {
      Utf8CharDecodes(s[0], Utf8(s[1..]));
      Utf8RoundTrip(s[1..]);
      assert [s[0]] + s[1..] == s;
    }
  }

  // ---------------------------------------------------------------- percent-encoding

  /** An upper-case hexadecimal digit, as Encode writes them. */
  function HexDigit(d: int): (c: char)
    requires 0 <= d < 16
    ensures Unescaped(c)
  {
    if d < 10 then (48 + d) as char else (55 + d) as char
  }

  /** The value of a hexadecimal digit of either case. */
  function HexValue(c: char): Option<int> {
    if '0' <= c <= '9' then Some(c as int - 48)
    else if 'A' <= c <= 'F' then Some(c as int - 55)
    else if 'a' <= c <= 'f' then Some(c as int - 87)
    else None
  }

  /** "%XY" for every octet. */
  function PercentOctets(bs: seq<Byte>): (r: string)
    ensures |r| == 3 * |bs|
    ensures forall k :: 0 <= k < |r| ==> EncodedChar(r[k])
  {
    if bs == [] then [] else ['%', HexDigit(bs[0] / 16), HexDigit(bs[0] % 16)] + PercentOctets(bs[1..])
  }

  /** One code point: itself when unescaped, otherwise its UTF-8 octets as %XY escapes. */
  function EncodeChar(c: char): (r: string)
    ensures forall k :: 0 <= k < |r| ==> EncodedChar(r[k])
  {
    if Unescaped(c) then [c] else PercentOctets(Utf8Char(c))
  }

  /** encodeURIComponent. Its output holds only unescaped characters and '%'. */
  function Encode(s: string): (r: string)
    ensures forall k :: 0 <= k < |r| ==> EncodedChar(r[k])
  {
    if s == [] then [] else EncodeChar(s[0]) + Encode(s[1..])
  }

  /** So no '/', '?' or '#' of a component survives into its encoding. */
  lemma EncodeHasNoDelimiters(s: string)
    ensures '/' !in Encode(s) && '?' !in Encode(s) && '#' !in Encode(s)
  {
    var r := Encode(s);
    forall k | 0 <= k < |r| ensures r[k] != '/' && r[k] != '?' && r[k] != '#' {
      assert EncodedChar(r[k]);
    }
  }

  /**
   * Percent-decoding to octets: an escape gives its octet, an ASCII character
   * its own code. Unlike decodeURIComponent, a literal non-ASCII character is
   * refused; Encode never produces one.
   */
  function PercentDecode(t: string): Option<seq<Byte>>
    decreases |t|
  {
    if t == [] then Some([])
    else if t[0] == '%' then
      if |t| < 3 then None
      else match (HexValue(t[1]), HexValue(t[2]), PercentDecode(t[3..]))
        case (Some(hi), Some(lo), Some(rest)) => Some([hi * 16 + lo] + rest)
        case _ => None
    else if t[0] as int < 0x80 then
      match PercentDecode(t[1..])
      case Some(rest) => Some([t[0] as int] + rest)
      case None => None
    else None
  }

  /** The inverse of Encode: percent-decoding followed by UTF-8 decoding. */
  function Decode(t: string): Option<string> {
    match PercentDecode(t)
    case None => None
    case Some(bs) => Utf8Decode(bs)
  }

  lemma HeadAppend<T>(s: seq<T>, tail: seq<T>)
    requires s != []
    ensures [s[0]] + (s[1..] + tail) == s + tail
  {
    assert s == [s[0]] + s[1..];
  }

  /** An octet's two hexadecimal digits read back as that octet. */
  lemma HexDigitsDecode(b: Byte)
    ensures HexValue(HexDigit(b / 16)) == Some(b / 16) && HexValue(HexDigit(b % 16)) == Some(b % 16)
    ensures b / 16 * 16 + b % 16 == b
  {
  }

  lemma {:induction false} PercentOctetsDecode(bs: seq<Byte>, rest: string)
    ensures PercentDecode(PercentOctets(bs) + rest) ==
            match PercentDecode(rest) case None => None case Some(tail) => Some(bs + tail)
  {
    if bs == [] {
      assert PercentOctets(bs) + rest == rest;
      match PercentDecode(rest) {
        case None =>
        case Some(tail) => assert bs + tail == tail;
      }
    } else {
      var b := bs[0];
      var t := PercentOctets(bs) + rest;
      assert t == ['%', HexDigit(b / 16), HexDigit(b % 16)] + (PercentOctets(bs[1..]) + rest);
      assert t[0] == '%' && t[1] == HexDigit(b / 16) && t[2] == HexDigit(b % 16);
      assert t[3..] == PercentOctets(bs[1..]) + rest;
      HexDigitsDecode(b);
      PercentOctetsDecode(bs[1..], rest);
      match PercentDecode(rest) {
        case None =>
        case Some(tail) => HeadAppend(bs, tail);
      }
    }
  }

  /** Percent-decoding the encoding of a code point yields that code point's UTF-8 octets. */
  lemma EncodeCharDecode(c: char, rest: string)
    ensures PercentDecode(EncodeChar(c) + rest) ==
            match PercentDecode(rest) case None => None case Some(tail) => Some(Utf8Char(c) + tail)
  {
    if Unescaped(c) {
      var t := EncodeChar(c) + rest;
      assert t[0] == c && t[1..] == rest;
    } else {
      PercentOctetsDecode(Utf8Char(c), rest);
    }
  }

  lemma {:induction false} PercentDecodeEncode(s: string)
    ensures PercentDecode(Encode(s)) == Some(Utf8(s))
  {
    if s != [] {
      PercentDecodeEncode(s[1..]);
      EncodeCharDecode(s[0], Encode(s[1..]));
    }
  }

  /** Round trip: the component can always be recovered from its encoding. */
  lemma DecodeEncode(s: string)
    ensures Decode(Encode(s)) == Some(s)
  {
    PercentDecodeEncode(s);
    Utf8RoundTrip(s);
  }

  /** Distinct components get distinct encodings. */
  lemma EncodeInjective(s: string, t: string)
    requires Encode(s) == Encode(t)
    ensures s == t
  {
    DecodeEncode(s);
    DecodeEncode(t);
  }

  /** A component made only of unescaped characters is passed through unchanged. */
  lemma {:induction false} EncodeUnescapedIdentity(s: string)
    requires forall k :: 0 <= k < |s| ==> Unescaped(s[k])
    ensures Encode(s) == s
  {
    if s != [] {
      EncodeUnescapedIdentity(s[1..]);
      assert [s[0]] + s[1..] == s;
    }
  }

  /**
   * Any character outside the unescaped set is written as one three-character
   * escape per UTF-8 octet: one octet below U+0080, two below U+0800, three
   * below U+10000, four above.
   */
  lemma EncodeEscapes(c: char)
    requires !Unescaped(c)
    ensures |Encode([c])| == 3 * (if c as int < 0x80 then 1 else if c as int < 0x800 then 2 else if c as int < 0x10000 then 3 else 4)
    ensures Encode([c])[0] == '%'
  {
    assert [c][1..] == [];
    assert Encode([c]) == PercentOctets(Utf8Char(c)) + [];
  }
}

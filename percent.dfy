/**
 * Percent-encoding as `urllib.parse.quote(text)` does it with its defaults
 * (`safe='/'`, UTF-8): every byte of the UTF-8 encoding that is an unreserved
 * character of section 2.3 of RFC 3986, or `/`, is kept as that character;
 * every other byte becomes `%` and two upper-case hexadecimal digits
 * (section 2.1 of RFC 3986).
 */
module Percent {
  import opened Wrappers
  import opened Utf8

  /** ALPHA / DIGIT / "-" / "." / "_" / "~" */
  predicate IsUnreservedChar(c: char)
  {
    ('A' <= c <= 'Z') || ('a' <= c <= 'z') || ('0' <= c <= '9')
    || c == '-' || c == '.' || c == '_' || c == '~'
  }

  /** The characters `quote` leaves as they are: the unreserved ones and `/`. */
  predicate IsSafeChar(c: char) { IsUnreservedChar(c) || c == '/' }

  predicate IsSafeByte(b: byte) { IsSafeChar(b as char) }

  predicate IsUpperHex(c: char) { ('0' <= c <= '9') || ('A' <= c <= 'F') }

  predicate IsHex(c: char) { IsUpperHex(c) || ('a' <= c <= 'f') }

  function HexDigit(d: nat): (c: char)
    requires d < 16
    ensures IsUpperHex(c) && HexValue(c) == d
  {
    if d < 10 then ('0' as int + d) as char else ('A' as int + d - 10) as char
  }

  function HexValue(c: char): (d: nat)
    requires IsHex(c)
    ensures d < 16
  {
    if '0' <= c <= '9' then c as int - '0' as int
    else if 'A' <= c <= 'F' then c as int - 'A' as int + 10
    else c as int - 'a' as int + 10
  }

  /** An upper-case digit is the one HexDigit gives for its value. */
  lemma {:induction false} HexDigitOfValue(c: char)
    requires IsUpperHex(c)
    ensures HexDigit(HexValue(c)) == c
  {
  }

  /**
   * The shape of every `quote` result: safe characters, and `%XX` triplets
   * with upper-case hexadecimal digits that stand for a byte which is not
   * safe (a safe byte is never escaped).
   */
  predicate IsQuoted(s: string)
    decreases |s|
  {
    if s == [] then true
    else if IsSafeChar(s[0]) then IsQuoted(s[1..])
    else
      && |s| >= 3 && s[0] == '%' && IsUpperHex(s[1]) && IsUpperHex(s[2])
      && !IsSafeByte(HexValue(s[1]) * 16 + HexValue(s[2]))
      && IsQuoted(s[3..])
  }

  /** The text one byte turns into: itself when safe, else its `%XX` escape. */
  function QuoteByte(b: byte): (r: string)
    ensures |r| == (if IsSafeByte(b) then 1 else 3)
    ensures IsQuoted(r)
  {
    if IsSafeByte(b) then [b as char] else ['%', HexDigit(b / 16), HexDigit(b % 16)]
  }

  /** Percent-encodes a byte sequence, one byte at a time. */
  function QuoteBytes(bs: seq<byte>): (r: string)
    ensures IsQuoted(r)
    decreases |bs|
  {
    if bs == [] then ""
    else
      var head, tail := QuoteByte(bs[0]), QuoteBytes(bs[1..]);
      assert (head + tail)[|head|..] == tail;
      head + tail
  }

  /**
   * Reverses the encoding: safe characters stand for themselves and `%XX`
   * (either case of hexadecimal digit) for the byte XX; None for anything else.
   */
  function UnquoteBytes(s: string): Option<seq<byte>>
    decreases |s|
  {
    if s == [] then Some([])
    else if s[0] == '%' then
      if |s| >= 3 && IsHex(s[1]) && IsHex(s[2]) then
        match UnquoteBytes(s[3..])
        case None => None
        case Some(bs) => Some([HexValue(s[1]) * 16 + HexValue(s[2])] + bs)
      else None
    else if IsSafeChar(s[0]) then
      match UnquoteBytes(s[1..])
      case None => None
      case Some(bs) => Some([s[0] as int] + bs)
    else None
  }

  /** `urllib.parse.quote(text)`: the percent-encoding of the UTF-8 bytes of `text`. */
  function Quote(text: string): (r: string)
    ensures IsQuoted(r)
  {
    QuoteBytes(Encode(text))
  }

  /** The inverse of Quote: percent-decode, then decode UTF-8. */
  function Unquote(s: string): Option<string>
  {
    match UnquoteBytes(s)
    case None => None
    case Some(bs) => Decode(bs)
  }

  /** A byte's encoding is read back as that byte, whatever follows it. */
  lemma {:induction false} UnquoteQuoteByte(b: byte, rest: string)
    ensures UnquoteBytes(QuoteByte(b) + rest) ==
      match UnquoteBytes(rest)
      case None => None
      case Some(bs) => Some([b] + bs)
  {
    var q := QuoteByte(b);
    var s := q + rest;
    if IsSafeByte(b) {
      assert s[0] == b as char && s[1..] == rest;
    } else {
      assert s[0] == '%' && s[3..] == rest;
      assert HexValue(HexDigit(b / 16)) == b / 16;
      assert HexValue(HexDigit(b % 16)) == b % 16;
    }
  }

  /** Percent-decoding the encoding of a byte sequence gives the bytes back. */
  lemma {:induction false} UnquoteQuoteBytes(bs: seq<byte>)
    ensures UnquoteBytes(QuoteBytes(bs)) == Some(bs)
    decreases |bs|
  {
    if bs != [] {
      UnquoteQuoteByte(bs[0], QuoteBytes(bs[1..]));
      UnquoteQuoteBytes(bs[1..]);
      assert [bs[0]] + bs[1..] == bs;
    }
  }

  /** A safe character at the head of an encoding is the encoding of its own byte. */
  lemma {:induction false} QuoteSafeHead(s: string, bs: seq<byte>)
    requires s != [] && IsSafeChar(s[0])
    requires UnquoteBytes(s[1..]) == Some(bs) && QuoteBytes(bs) == s[1..]
    ensures UnquoteBytes(s) == Some([s[0] as int] + bs)
    ensures QuoteBytes([s[0] as int] + bs) == s
  {
    var b: byte := s[0] as int;
    assert ([b] + bs)[1..] == bs;
    assert QuoteByte(b) == [s[0]];
    assert s == [s[0]] + s[1..];
  }

  /** An escape at the head of an encoding is the encoding of the byte it names. */
  lemma {:induction false} QuoteEscapeHead(s: string, bs: seq<byte>)
    requires |s| >= 3 && s[0] == '%' && IsUpperHex(s[1]) && IsUpperHex(s[2])
    requires !IsSafeByte(HexValue(s[1]) * 16 + HexValue(s[2]))
    requires UnquoteBytes(s[3..]) == Some(bs) && QuoteBytes(bs) == s[3..]
    ensures UnquoteBytes(s) == Some([HexValue(s[1]) * 16 + HexValue(s[2])] + bs)
    ensures QuoteBytes([HexValue(s[1]) * 16 + HexValue(s[2])] + bs) == s
  {
    var hi, lo := HexValue(s[1]), HexValue(s[2]);
    var b: byte := hi * 16 + lo;
    assert b / 16 == hi && b % 16 == lo;
    HexDigitOfValue(s[1]);
    HexDigitOfValue(s[2]);
    assert ([b] + bs)[1..] == bs;
    assert QuoteByte(b) == s[..3];
    assert s == s[..3] + s[3..];
  }

  /**
   * A canonical encoding is determined by the bytes it stands for: it
   * decodes, and encoding the result gives it back.
   */
  lemma {:induction false} QuoteUnquoteBytes(s: string)
    requires IsQuoted(s)
    ensures UnquoteBytes(s).Some? && QuoteBytes(UnquoteBytes(s).value) == s
    decreases |s|
  {
    if s != [] {
      if IsSafeChar(s[0]) {
        QuoteUnquoteBytes(s[1..]);
        QuoteSafeHead(s, UnquoteBytes(s[1..]).value);
      } else {
        QuoteUnquoteBytes(s[3..]);
        QuoteEscapeHead(s, UnquoteBytes(s[3..]).value);
      }
    }
  }

  /** Unquote undoes Quote on every text. */
  lemma UnquoteQuote(text: string)
    ensures Unquote(Quote(text)) == Some(text)
  {
    UnquoteQuoteBytes(Encode(text));
    DecodeEncode(text);
  }

  /**
   * Quote undoes Unquote on canonical encodings: a text has exactly one
   * encoding of the `quote` shape, the one Quote gives.
   */
  lemma {:induction false} QuoteUnquote(s: string)
    requires IsQuoted(s) && Unquote(s).Some?
    ensures Quote(Unquote(s).value) == s
  {
    QuoteUnquoteBytes(s);
    EncodeDecode(UnquoteBytes(s).value);
  }
}

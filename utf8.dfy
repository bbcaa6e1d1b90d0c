/**
 * UTF-8, the byte encoding `urllib.parse.quote` applies to a text before it
 * percent-encodes it (its default `encoding='utf-8'`). A Dafny `char` is a
 * Unicode scalar value, so every text has exactly one encoding.
 */
module Utf8 {
  import opened Wrappers

  type byte = x: int | 0 <= x < 0x100

  /** A Unicode scalar value: a code point that is not a surrogate. */
  predicate IsScalar(cp: int) { 0 <= cp < 0xD800 || 0xE000 <= cp < 0x11_0000 }

  /** A continuation byte, 10xxxxxx. */
  predicate IsContinuation(b: byte) { 0x80 <= b < 0xC0 }

  /** The one- to four-byte UTF-8 form of a character. */
  function EncodeChar(c: char): (r: seq<byte>)
    ensures 1 <= |r| <= 4
    ensures |r| == 1 <==> c as int < 0x80
  {
    var cp := c as int;
    if cp < 0x80 then [cp]
    else if cp < 0x800 then [0xC0 + cp / 0x40, 0x80 + cp % 0x40]
    else if cp < 0x1_0000 then [0xE0 + cp / 0x1000, 0x80 + cp / 0x40 % 0x40, 0x80 + cp % 0x40]
    else [0xF0 + cp / 0x4_0000, 0x80 + cp / 0x1000 % 0x40, 0x80 + cp / 0x40 % 0x40, 0x80 + cp % 0x40]
  }

  /** The UTF-8 encoding of a text: the encodings of its characters, in order. */
  function Encode(s: string): (r: seq<byte>)
    ensures |s| <= |r| <= 4 * |s|
    decreases |s|
  {
    if s == [] then [] else EncodeChar(s[0]) + Encode(s[1..])
  }

  /**
   * Reads the character at the head of `bs`, with the number of bytes it
   * took; None for a malformed, overlong, truncated or surrogate sequence.
   */
  function DecodeChar(bs: seq<byte>): (r: Option<(char, nat)>)
    requires |bs| > 0
    ensures r.Some? ==> 1 <= r.value.1 <= |bs|
  {
    var b0: int := bs[0];
    if b0 < 0x80 then Some((b0 as char, 1))
    else if 0xC0 <= b0 < 0xE0 && |bs| >= 2 && IsContinuation(bs[1]) then
      var cp := (b0 - 0xC0) * 0x40 + (bs[1] as int - 0x80);
      if 0x80 <= cp then Some((cp as char, 2)) else None
    else if 0xE0 <= b0 < 0xF0 && |bs| >= 3 && IsContinuation(bs[1]) && IsContinuation(bs[2]) then
      var cp := (b0 - 0xE0) * 0x1000 + (bs[1] as int - 0x80) * 0x40 + (bs[2] as int - 0x80);
      if 0x800 <= cp && IsScalar(cp) then Some((cp as char, 3)) else None
    else if 0xF0 <= b0 < 0xF8 && |bs| >= 4
         && IsContinuation(bs[1]) && IsContinuation(bs[2]) && IsContinuation(bs[3]) then
      var cp := (b0 - 0xF0) * 0x4_0000 + (bs[1] as int - 0x80) * 0x1000 + (bs[2] as int - 0x80) * 0x40 + (bs[3] as int - 0x80);
      if 0x1_0000 <= cp < 0x11_0000 then Some((cp as char, 4)) else None
    else None
  }

  /** Decodes a whole byte sequence; None unless it is well-formed UTF-8. */
  function Decode(bs: seq<byte>): Option<string>
    decreases |bs|
  {
    if bs == [] then Some("")
    else match DecodeChar(bs)
      case None => None
      case Some((c, n)) =>
        match Decode(bs[n..])
        case None => None
        case Some(s) => Some([c] + s)
  }

  lemma {:induction false} TwoBytes(cp: int)
    requires 0x80 <= cp < 0x800
    ensures (cp / 0x40) * 0x40 + cp % 0x40 == cp
    ensures 0 <= cp / 0x40 < 0x20
  {
  }

  lemma {:induction false} ThreeBytes(cp: int)
    requires 0x800 <= cp < 0x1_0000
    ensures (cp / 0x1000) * 0x1000 + (cp / 0x40 % 0x40) * 0x40 + cp % 0x40 == cp
    ensures 0 <= cp / 0x1000 < 0x10
  {
    var q := cp / 0x40;
    assert cp == q * 0x40 + cp % 0x40;
    assert q == (q / 0x40) * 0x40 + q % 0x40;
    assert q / 0x40 == cp / 0x1000;
  }

  lemma {:induction false} FourBytes(cp: int)
    requires 0x1_0000 <= cp < 0x11_0000
    ensures (cp / 0x4_0000) * 0x4_0000 + (cp / 0x1000 % 0x40) * 0x1000 + (cp / 0x40 % 0x40) * 0x40 + cp % 0x40 == cp
    ensures 0 <= cp / 0x4_0000 < 0x5
  {
    var q := cp / 0x40;
    var p := q / 0x40;
    assert cp == q * 0x40 + cp % 0x40;
    assert q == p * 0x40 + q % 0x40;
    assert p == (p / 0x40) * 0x40 + p % 0x40;
    assert p == cp / 0x1000;
    assert p / 0x40 == cp / 0x4_0000;
  }

  /** The head character of an encoding is read back whole, whatever follows it. */
  lemma {:induction false} DecodeEncodeChar(c: char, rest: seq<byte>)
    ensures DecodeChar(EncodeChar(c) + rest) == Some((c, |EncodeChar(c)|))
  {
    var cp := c as int;
    var e := EncodeChar(c);
    var bs := e + rest;
    assert bs[..|e|] == e;
    if cp < 0x80 {
    } else if cp < 0x800 {
      TwoBytes(cp);
      assert bs[0] == 0xC0 + cp / 0x40 && bs[1] == 0x80 + cp % 0x40;
    } else if cp < 0x1_0000 {
      ThreeBytes(cp);
      assert bs[0] == 0xE0 + cp / 0x1000 && bs[1] == 0x80 + cp / 0x40 % 0x40 && bs[2] == 0x80 + cp % 0x40;
    } else {
      FourBytes(cp);
      assert bs[0] == 0xF0 + cp / 0x4_0000 && bs[1] == 0x80 + cp / 0x1000 % 0x40;
      assert bs[2] == 0x80 + cp / 0x40 % 0x40 && bs[3] == 0x80 + cp % 0x40;
    }
  }

  /** Decoding the encoding of a text gives the text back. */
  lemma {:induction false} DecodeEncode(s: string)
    ensures Decode(Encode(s)) == Some(s)
    decreases |s|
  {
    if s != [] {
      var e := EncodeChar(s[0]);
      DecodeEncodeChar(s[0], Encode(s[1..]));
      assert (e + Encode(s[1..]))[|e|..] == Encode(s[1..]);
      DecodeEncode(s[1..]);
      assert [s[0]] + s[1..] == s;
    }
  }

  /** Division by 0x40 undoes `q * 0x40 + r`. */
  lemma {:induction false} DivMod64(q: int, r: int)
    requires 0 <= q && 0 <= r < 0x40
    ensures (q * 0x40 + r) / 0x40 == q && (q * 0x40 + r) % 0x40 == r
  {
  }

  /** Division by 0x1000 undoes `q * 0x1000 + r`. */
  lemma {:induction false} DivMod4K(q: int, r: int)
    requires 0 <= q && 0 <= r < 0x1000
    ensures (q * 0x1000 + r) / 0x1000 == q
  {
  }

  /** Division by 0x4_0000 undoes `q * 0x4_0000 + r`. */
  lemma {:induction false} DivMod256K(q: int, r: int)
    requires 0 <= q && 0 <= r < 0x4_0000
    ensures (q * 0x4_0000 + r) / 0x4_0000 == q
  {
  }

  lemma {:induction false} EncodeDecodeTwo(b0: byte, b1: byte)
    requires 0xC0 <= b0 < 0xE0 && IsContinuation(b1)
    requires 0x80 <= (b0 - 0xC0) * 0x40 + (b1 - 0x80)
    ensures EncodeChar(((b0 - 0xC0) * 0x40 + (b1 - 0x80)) as char) == [b0, b1]
  {
    DivMod64(b0 - 0xC0, b1 - 0x80);
  }

  lemma {:induction false} EncodeDecodeThree(b0: byte, b1: byte, b2: byte)
    requires 0xE0 <= b0 < 0xF0 && IsContinuation(b1) && IsContinuation(b2)
    requires var cp := (b0 - 0xE0) * 0x1000 + (b1 - 0x80) * 0x40 + (b2 - 0x80); 0x800 <= cp && IsScalar(cp)
    ensures EncodeChar(((b0 - 0xE0) * 0x1000 + (b1 - 0x80) * 0x40 + (b2 - 0x80)) as char) == [b0, b1, b2]
  {
    var a, b, c := b0 - 0xE0, b1 - 0x80, b2 - 0x80;
    DivMod64(a * 0x40 + b, c);
    DivMod64(a, b);
    DivMod4K(a, b * 0x40 + c);
  }

  lemma {:induction false} EncodeDecodeFour(b0: byte, b1: byte, b2: byte, b3: byte)
    requires 0xF0 <= b0 < 0xF8 && IsContinuation(b1) && IsContinuation(b2) && IsContinuation(b3)
    requires var cp := (b0 - 0xF0) * 0x4_0000 + (b1 - 0x80) * 0x1000 + (b2 - 0x80) * 0x40 + (b3 - 0x80);
      0x1_0000 <= cp < 0x11_0000
    ensures EncodeChar(((b0 - 0xF0) * 0x4_0000 + (b1 - 0x80) * 0x1000 + (b2 - 0x80) * 0x40 + (b3 - 0x80)) as char)
      == [b0, b1, b2, b3]
  {
    var a, b, c, e := b0 - 0xF0, b1 - 0x80, b2 - 0x80, b3 - 0x80;
    DivMod64(a * 0x1000 + b * 0x40 + c, e);
    DivMod64(a * 0x40 + b, c);
    DivMod64(a, b);
    DivMod4K(a * 0x40 + b, c * 0x40 + e);
    DivMod256K(a, b * 0x1000 + c * 0x40 + e);
  }

  /** A character read from the head of a byte sequence is encoded as the bytes it took. */
  lemma {:induction false} EncodeDecodeChar(bs: seq<byte>)
    requires |bs| > 0 && DecodeChar(bs).Some?
    ensures DecodeChar(bs).value.1 <= |bs|
    ensures EncodeChar(DecodeChar(bs).value.0) == bs[..DecodeChar(bs).value.1]
    ensures bs == EncodeChar(DecodeChar(bs).value.0) + bs[DecodeChar(bs).value.1..]
  {
    var b0: int := bs[0];
    assert bs == bs[..DecodeChar(bs).value.1] + bs[DecodeChar(bs).value.1..];
    if b0 < 0x80 {
      assert bs[..1] == [bs[0]];
    } else if b0 < 0xE0 {
      EncodeDecodeTwo(bs[0], bs[1]);
      assert bs[..2] == [bs[0], bs[1]];
    } else if b0 < 0xF0 {
      EncodeDecodeThree(bs[0], bs[1], bs[2]);
      assert bs[..3] == [bs[0], bs[1], bs[2]];
    } else {
      EncodeDecodeFour(bs[0], bs[1], bs[2], bs[3]);
      assert bs[..4] == [bs[0], bs[1], bs[2], bs[3]];
    }
  }

  /** Decoding well-formed UTF-8 reads the head character, then the rest. */
  lemma {:induction false} DecodeStep(bs: seq<byte>)
    requires bs != [] && Decode(bs).Some?
    ensures DecodeChar(bs).Some? && Decode(bs[DecodeChar(bs).value.1..]).Some?
    ensures Decode(bs).value == [DecodeChar(bs).value.0] + Decode(bs[DecodeChar(bs).value.1..]).value
  {
  }

  lemma {:induction false} EncodeStep(c: char, t: string)
    ensures Encode([c] + t) == EncodeChar(c) + Encode(t)
  {
    assert ([c] + t)[0] == c && ([c] + t)[1..] == t;
  }

  /** Well-formed UTF-8 is the encoding of the text it decodes to. */
  lemma {:induction false} EncodeDecode(bs: seq<byte>)
    requires Decode(bs).Some?
    ensures Encode(Decode(bs).value) == bs
    decreases |bs|
  {
    if bs != [] {
      DecodeStep(bs);
      var c, n := DecodeChar(bs).value.0, DecodeChar(bs).value.1;
      var t := Decode(bs[n..]).value;
      EncodeDecodeChar(bs);
      EncodeDecode(bs[n..]);
      EncodeStep(c, t);
    }
  }
}

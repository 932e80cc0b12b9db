/** `encodeURIComponent`: every character outside the unreserved set
    `A-Z a-z 0-9 - _ . ! ~ * ' ( )` is replaced by the UTF-8 bytes of its code point,
    each written as '%' and two upper-case hexadecimal digits. Characters are Unicode
    scalar values. */
module UriEncoding {
  import opened Common
  import opened JsString

  predicate IsUnreserved(c: char) {
    ('A' <= c <= 'Z') || ('a' <= c <= 'z') || ('0' <= c <= '9')
    || c == '-' || c == '_' || c == '.' || c == '!' || c == '~' || c == '*'
    || c == '\'' || c == '(' || c == ')'
  }

  /** Upper-case hexadecimal digit. */
  function HexChar(d: nat): (c: char)
    requires d < 16
    ensures IsUnreserved(c)
  {
    if d < 10 then ('0' as int + d) as char else ('A' as int + d - 10) as char
  }

  /** The UTF-8 encoding of one code point: one byte below 0x80, otherwise a lead byte
      carrying the high bits and continuation bytes `10xxxxxx` carrying six bits each. */
  function Utf8(cp: nat): (bytes: seq<nat>)
    requires cp < 0x11_0000
    ensures 1 <= |bytes| <= 4
    ensures forall i :: 0 <= i < |bytes| ==> bytes[i] < 256
    ensures (|bytes| == 1) == (cp < 0x80)
  {
    var q1 := cp / 64;
    var q2 := q1 / 64;
    var q3 := q2 / 64;
    if cp < 0x80 then [cp]
    else if cp < 0x800 then [0xC0 + q1, 0x80 + cp % 64]
    else if cp < 0x1_0000 then [0xE0 + q2, 0x80 + q1 % 64, 0x80 + cp % 64]
    else [0xF0 + q3, 0x80 + q2 % 64, 0x80 + q1 % 64, 0x80 + cp % 64]
  }

  /** "%XY" for each byte. */
  function PercentBytes(bytes: seq<nat>): (r: string)
    requires forall i :: 0 <= i < |bytes| ==> bytes[i] < 256
    ensures |r| == 3 * |bytes|
    ensures forall i :: 0 <= i < |r| ==> r[i] == '%' || IsUnreserved(r[i])
  {
    if bytes == [] then ""
    else
      var b := bytes[0];
      var rest := PercentBytes(bytes[1..]);
      var r := ['%', HexChar(b / 16), HexChar(b % 16)] + rest;
      assert forall i :: 3 <= i < |r| ==> r[i] == rest[i - 3];
      r
  }

  function EncodeChar(c: char): (r: string)
    ensures IsUnreserved(c) ==> r == [c]
    ensures !IsUnreserved(c) ==> |r| >= 3 && r[0] == '%'
    ensures forall i :: 0 <= i < |r| ==> r[i] == '%' || IsUnreserved(r[i])
  {
    if IsUnreserved(c) then [c] else PercentBytes(Utf8(c as int))
  }

  /** `encodeURIComponent(s)`. */
  function EncodeURIComponent(s: string): (r: string)
    ensures |r| >= |s|
  {
    if s == [] then "" else EncodeChar(s[0]) + EncodeURIComponent(s[1..])
  }

  /** Every character is unreserved or '%'. */
  predicate Safe(r: string) {
    forall i :: 0 <= i < |r| ==> r[i] == '%' || IsUnreserved(r[i])
  }

  /** The output holds only unreserved characters and '%': in particular no '&', '=',
      '?', '#' or space, so it cannot break the structure of a query string. */
  lemma {:induction false} EncodedIsSafe(s: string)
    ensures Safe(EncodeURIComponent(s))
  {
    if s != [] {
      EncodedIsSafe(s[1..]);
      var a, b := EncodeChar(s[0]), EncodeURIComponent(s[1..]);
      assert EncodeURIComponent(s) == a + b;
      assert Safe(a) && Safe(b);
      assert forall i :: |a| <= i < |a + b| ==> (a + b)[i] == b[i - |a|];
    }
  }

  /** A string of unreserved characters is left as it is. */
  lemma {:induction false} UnreservedUnchanged(s: string)
    requires forall i :: 0 <= i < |s| ==> IsUnreserved(s[i])
    ensures EncodeURIComponent(s) == s
  {
    if s != [] {
      UnreservedUnchanged(s[1..]);
      assert [s[0]] + s[1..] == s;
    }
  }

  /** The output is as long as the input exactly when nothing needed escaping. */
  lemma {:induction false} EncodedLength(s: string)
    ensures |EncodeURIComponent(s)| == |s| <==> forall i :: 0 <= i < |s| ==> IsUnreserved(s[i])
  {
    if s != [] {
      EncodedLength(s[1..]);
      if forall i :: 0 <= i < |s[1..]| ==> IsUnreserved(s[1..][i]) {
        if IsUnreserved(s[0]) {
          forall i | 0 <= i < |s|
            ensures IsUnreserved(s[i])
          {
            if i > 0 {
              assert s[i] == s[1..][i - 1];
            }
          }
        }
      } else {
        var j :| 0 <= j < |s[1..]| && !IsUnreserved(s[1..][j]);
        assert !IsUnreserved(s[j + 1]);
      }
    }
  }

  /** No '?' and no '&' survive the encoding. */
  lemma NoQuerySeparators(s: string)
    ensures '?' !in EncodeURIComponent(s) && '&' !in EncodeURIComponent(s)
  {
    EncodedIsSafe(s);
  }

  // ------------------------------------------------------------ decoding

  /** The byte written as "%XY" at position `i`, hexadecimal digits in either case. */
  function ByteAt(s: string, i: nat): (b: Option<nat>)
    ensures b.Some? ==> i + 3 <= |s| && b.value < 256
  {
    if i + 3 <= |s| && s[i] == '%' && IsHexDigit(s[i + 1]) && IsHexDigit(s[i + 2]) then
      Some(HexDigitValue(s[i + 1]) * 16 + HexDigitValue(s[i + 2]))
    else None
  }

  /** The six payload bits of a continuation byte at position `i`. */
  function Continuation(s: string, i: nat): (x: Option<nat>)
    ensures x.Some? ==> i + 3 <= |s| && x.value < 64
  {
    match ByteAt(s, i)
    case Some(b) => if 0x80 <= b < 0xC0 then Some(b - 0x80) else None
    case None => None
  }

  /** A decoded code point, refused when it is a surrogate, beyond U+10FFFF or written
      with more bytes than it needs. */
  function Scalar(cp: nat, least: nat, used: nat): Option<(char, nat)> {
    if least <= cp && (cp < 0xD800 || 0xE000 <= cp < 0x11_0000) then Some((cp as char, used))
    else None
  }

  /** The first character of an encoded text and how many characters it took. */
  function DecodeChar(s: string): (r: Option<(char, nat)>)
    requires s != []
    ensures r.Some? ==> 1 <= r.value.1 <= |s|
  {
    if s[0] != '%' then Some((s[0], 1))
    else
      match ByteAt(s, 0)
      case None => None
      case Some(b0) =>
        if b0 < 0x80 then Scalar(b0, 0, 3)
        else if 0xC0 <= b0 < 0xE0 then
          match Continuation(s, 3)
          case None => None
          case Some(x1) => Scalar((b0 - 0xC0) * 64 + x1, 0x80, 6)
        else if 0xE0 <= b0 < 0xF0 then
          match (Continuation(s, 3), Continuation(s, 6))
          case (Some(x1), Some(x2)) => Scalar(((b0 - 0xE0) * 64 + x1) * 64 + x2, 0x800, 9)
          case _ => None
        else if 0xF0 <= b0 < 0xF8 then
          match (Continuation(s, 3), Continuation(s, 6), Continuation(s, 9))
          case (Some(x1), Some(x2), Some(x3)) =>
            Scalar((((b0 - 0xF0) * 64 + x1) * 64 + x2) * 64 + x3, 0x1_0000, 12)
          case _ => None
        else None
  }

  /** `decodeURIComponent`: every '%' escape sequence is read back as the UTF-8 encoding
      of one character; a malformed one (`URIError`) gives `None`. */
  function DecodeURIComponent(s: string): (r: Option<string>)
    ensures r.Some? ==> |r.value| <= |s|
    decreases |s|
  {
    if s == [] then Some("")
    else
      match DecodeChar(s)
      case None => None
      case Some((c, k)) =>
        match DecodeURIComponent(s[k..])
        case None => None
        case Some(t) => Some([c] + t)
  }

  lemma HexCharValue(d: nat)
    requires d < 16
    ensures IsHexDigit(HexChar(d)) && HexDigitValue(HexChar(d)) == d
  {
  }

  /** "%XY" with the digits of `b` reads back as `b`. */
  lemma ByteAtEscape(s: string, i: nat, b: nat)
    requires b < 256 && i + 3 <= |s|
    requires s[i] == '%' && s[i + 1] == HexChar(b / 16) && s[i + 2] == HexChar(b % 16)
    ensures ByteAt(s, i) == Some(b)
  {
    HexCharValue(b / 16);
    HexCharValue(b % 16);
  }

  /** The j-th escape of `PercentBytes` is '%' and the two digits of the j-th byte. */
  lemma {:induction false} EscapeAt(bytes: seq<nat>, j: nat)
    requires forall i :: 0 <= i < |bytes| ==> bytes[i] < 256
    requires j < |bytes|
    ensures var r := PercentBytes(bytes);
      r[3 * j] == '%' && r[3 * j + 1] == HexChar(bytes[j] / 16) && r[3 * j + 2] == HexChar(bytes[j] % 16)
  {
    if j > 0 {
      var b, rest := bytes[0], PercentBytes(bytes[1..]);
      EscapeAt(bytes[1..], j - 1);
      assert bytes[1..][j - 1] == bytes[j];
      var r := ['%', HexChar(b / 16), HexChar(b % 16)] + rest;
      assert PercentBytes(bytes) == r;
      var k := 3 * (j - 1);
      assert r[3 * j] == rest[k] && r[3 * j + 1] == rest[k + 1] && r[3 * j + 2] == rest[k + 2];
    }
  }

  /** The j-th byte of an escaped sequence reads back as that byte. */
  lemma PercentByteAt(bytes: seq<nat>, rest: string, j: nat)
    requires forall i :: 0 <= i < |bytes| ==> bytes[i] < 256
    requires j < |bytes|
    ensures ByteAt(PercentBytes(bytes) + rest, 3 * j) == Some(bytes[j])
  {
    var e := PercentBytes(bytes);
    var s := e + rest;
    var i, b := 3 * j, bytes[j];
    EscapeAt(bytes, j);
    assert e[i] == '%' && e[i + 1] == HexChar(b / 16) && e[i + 2] == HexChar(b % 16);
    assert s[i] == e[i] && s[i + 1] == e[i + 1] && s[i + 2] == e[i + 2];
    ByteAtEscape(s, i, b);
  }

  /** What a decoder needs to know about the bytes of one code point: their number, the
      range of the lead and continuation bytes, the value their payload bits spell and
      that no shorter form exists. */
  predicate DecodesTo(b: seq<nat>, cp: nat) {
    && 1 <= |b| <= 4
    && (forall i :: 0 <= i < |b| ==> b[i] < 256)
    && (|b| == 1 ==> b[0] < 0x80 && b[0] == cp)
    && (|b| == 2 ==> 0xC0 <= b[0] < 0xE0 && 0x80 <= b[1] < 0xC0
                     && (b[0] - 0xC0) * 64 + (b[1] - 0x80) == cp && cp >= 0x80)
    && (|b| == 3 ==> 0xE0 <= b[0] < 0xF0 && 0x80 <= b[1] < 0xC0 && 0x80 <= b[2] < 0xC0
                     && ((b[0] - 0xE0) * 64 + (b[1] - 0x80)) * 64 + (b[2] - 0x80) == cp
                     && cp >= 0x800)
    && (|b| == 4 ==> 0xF0 <= b[0] < 0xF8 && 0x80 <= b[1] < 0xC0 && 0x80 <= b[2] < 0xC0
                     && 0x80 <= b[3] < 0xC0
                     && (((b[0] - 0xF0) * 64 + (b[1] - 0x80)) * 64 + (b[2] - 0x80)) * 64 + (b[3] - 0x80) == cp
                     && cp >= 0x1_0000)
  }

  /** The bytes of `Utf8(cp)` decode back to `cp`. */
  lemma Utf8Decodes(cp: nat)
    requires cp < 0x11_0000
    ensures DecodesTo(Utf8(cp), cp)
  {
    var q1 := cp / 64;
    var q2 := q1 / 64;
    var q3 := q2 / 64;
    assert cp == q1 * 64 + cp % 64;
    assert q1 == q2 * 64 + q1 % 64;
    assert q2 == q3 * 64 + q2 % 64;
  }

  /** The escape of one character decodes to that character, taking exactly its length. */
  lemma DecodeEncodedChar(c: char, rest: string)
    ensures DecodeChar(EncodeChar(c) + rest) == Some((c, |EncodeChar(c)|))
  {
    if !IsUnreserved(c) {
      var b := Utf8(c as int);
      assert EncodeChar(c) == PercentBytes(b);
      Utf8Decodes(c as int);
      DecodeEscaped(c, b, rest);
    }
  }

  /** Percent-escaped bytes that encode a character decode to it. */
  lemma DecodeEscaped(c: char, b: seq<nat>, rest: string)
    requires DecodesTo(b, c as int)
    ensures DecodeChar(PercentBytes(b) + rest) == Some((c, 3 * |b|))
  {
    var s := PercentBytes(b) + rest;
    PercentByteAt(b, rest, 0);
    if |b| == 1 {
      DecodeOneByte(s, b[0], c);
    } else if |b| == 2 {
      PercentByteAt(b, rest, 1);
      DecodeTwoBytes(s, b[0], b[1], c);
    } else if |b| == 3 {
      PercentByteAt(b, rest, 1);
      PercentByteAt(b, rest, 2);
      DecodeThreeBytes(s, b[0], b[1], b[2], c);
    } else {
      PercentByteAt(b, rest, 1);
      PercentByteAt(b, rest, 2);
      PercentByteAt(b, rest, 3);
      DecodeFourBytes(s, b[0], b[1], b[2], b[3], c);
    }
  }

  lemma DecodeOneByte(s: string, b0: nat, c: char)
    requires s != [] && ByteAt(s, 0) == Some(b0) && b0 < 0x80 && b0 == c as int
    ensures DecodeChar(s) == Some((c, 3))
  {
  }

  lemma DecodeTwoBytes(s: string, b0: nat, b1: nat, c: char)
    requires s != [] && ByteAt(s, 0) == Some(b0) && ByteAt(s, 3) == Some(b1)
    requires 0xC0 <= b0 < 0xE0 && 0x80 <= b1 < 0xC0
    requires (b0 - 0xC0) * 64 + (b1 - 0x80) == c as int >= 0x80
    ensures DecodeChar(s) == Some((c, 6))
  {
  }

  lemma DecodeThreeBytes(s: string, b0: nat, b1: nat, b2: nat, c: char)
    requires s != [] && ByteAt(s, 0) == Some(b0) && ByteAt(s, 3) == Some(b1) && ByteAt(s, 6) == Some(b2)
    requires 0xE0 <= b0 < 0xF0 && 0x80 <= b1 < 0xC0 && 0x80 <= b2 < 0xC0
    requires ((b0 - 0xE0) * 64 + (b1 - 0x80)) * 64 + (b2 - 0x80) == c as int >= 0x800
    ensures DecodeChar(s) == Some((c, 9))
  {
  }

  lemma DecodeFourBytes(s: string, b0: nat, b1: nat, b2: nat, b3: nat, c: char)
    requires s != [] && ByteAt(s, 0) == Some(b0) && ByteAt(s, 3) == Some(b1) && ByteAt(s, 6) == Some(b2)
    requires ByteAt(s, 9) == Some(b3)
    requires 0xF0 <= b0 < 0xF8 && 0x80 <= b1 < 0xC0 && 0x80 <= b2 < 0xC0 && 0x80 <= b3 < 0xC0
    requires (((b0 - 0xF0) * 64 + (b1 - 0x80)) * 64 + (b2 - 0x80)) * 64 + (b3 - 0x80) == c as int >= 0x1_0000
    ensures DecodeChar(s) == Some((c, 12))
  {
  }

  /** `decodeURIComponent` undoes `encodeURIComponent`. */
  lemma {:induction false} DecodeEncode(s: string)
    ensures DecodeURIComponent(EncodeURIComponent(s)) == Some(s)
  {
    if s != [] {
      var e, rest := EncodeChar(s[0]), EncodeURIComponent(s[1..]);
      DecodeEncode(s[1..]);
      DecodeEncodedChar(s[0], rest);
      assert EncodeURIComponent(s) == e + rest;
      assert (e + rest)[|e|..] == rest;
      assert [s[0]] + s[1..] == s;
    }
  }

  /** Distinct texts have distinct encodings, so a search text is recovered exactly from
      the query string. */
  lemma EncodeInjective(a: string, b: string)
    requires EncodeURIComponent(a) == EncodeURIComponent(b)
    ensures a == b
  {
    DecodeEncode(a);
    DecodeEncode(b);
  }
}

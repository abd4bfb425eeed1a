/**
 * `encodeURIComponent`, as defined in ECMA-262 (section 19.2.6.5, the Encode operation): every
 * character outside the unescaped set is written as the UTF-8 bytes of its code point, each
 * as `%` and two upper-case hexadecimal digits (RFC 3986, section 2.1). Its partner is
 * `decodeURIComponent`, which reverses it. Strings here hold Unicode scalar values, so the
 * lone-surrogate error of the JavaScript function cannot arise.
 */
module UriComponent {
  import opened Wrappers

  /** The characters `encodeURIComponent` leaves alone: letters, digits and `-_.!~*'()`. */
  predicate Unreserved(c: char) {
    'a' <= c <= 'z' || 'A' <= c <= 'Z' || '0' <= c <= '9' ||
    c == '-' || c == '_' || c == '.' || c == '!' || c == '~' || c == '*' || c == '\'' || c == '(' || c == ')'
  }

  function HexDigit(d: nat): (c: char)
    requires d < 16
    ensures Unreserved(c)
  {
    if d < 10 then ('0' as int + d) as char else ('A' as int + d - 10) as char
  }

  /** The value of a hexadecimal digit of either case. */
  function HexValue(c: char): (r: Option<nat>)
    ensures r.Some? ==> r.value < 16
  {
    if '0' <= c <= '9' then Some(c as int - '0' as int)
    else if 'A' <= c <= 'F' then Some(c as int - 'A' as int + 10)
    else if 'a' <= c <= 'f' then Some(c as int - 'a' as int + 10)
    else None
  }

  lemma HexRoundTrip(d: nat)
    requires d < 16
    ensures HexValue(HexDigit(d)) == Some(d)
  {
  }

  predicate IsByte(b: nat) { b < 256 }

  /** The UTF-8 encoding of one code point (RFC 3629, section 3). */
  function Utf8(c: char): (bs: seq<nat>)
    ensures 1 <= |bs| <= 4
    ensures forall i :: 0 <= i < |bs| ==> IsByte(bs[i])
  {
    var cp := c as int;
    var q1 := cp / 64;
    var q2 := q1 / 64;
    var q3 := q2 / 64;
    if cp < 0x80 then [cp]
    else if cp < 0x800 then [0xC0 + q1, 0x80 + cp % 64]
    else if cp < 0x1_0000 then [0xE0 + q2, 0x80 + q1 % 64, 0x80 + cp % 64]
    else [0xF0 + q3, 0x80 + q2 % 64, 0x80 + q1 % 64, 0x80 + cp % 64]
  }

  /** Only unescaped characters and `%`: in particular no `&`, `=`, `?` or `#`. */
  predicate QuerySafe(t: string) {
    forall i :: 0 <= i < |t| ==> Unreserved(t[i]) || t[i] == '%'
  }

  function Escape(b: nat): (t: string)
    requires IsByte(b)
    ensures QuerySafe(t)
  {
    ['%', HexDigit(b / 16), HexDigit(b % 16)]
  }

  function EscapeAll(bs: seq<nat>): (t: string)
    requires forall i :: 0 <= i < |bs| ==> IsByte(bs[i])
    ensures |t| == 3 * |bs| && QuerySafe(t)
  {
    if bs == [] then [] else Escape(bs[0]) + EscapeAll(bs[1..])
  }

  function EncodeChar(c: char): (t: string)
    ensures QuerySafe(t)
  {
    if Unreserved(c) then [c] else EscapeAll(Utf8(c))
  }

  /** `encodeURIComponent(s)`. */
  function Encode(s: string): (r: string)
    ensures |r| >= |s|
    ensures QuerySafe(r)
  {
    if s == [] then [] else EncodeChar(s[0]) + Encode(s[1..])
  }

  /** The byte written as `%XY` at position i of s, if there is one. */
  function ByteAt(s: string, i: nat): (r: Option<nat>)
    ensures r.Some? ==> IsByte(r.value) && i + 3 <= |s|
  {
    if i + 3 <= |s| && s[i] == '%' then
      match (HexValue(s[i + 1]), HexValue(s[i + 2]))
      case (Some(h), Some(l)) => Some(h * 16 + l)
      case _ => None
    else None
  }

  /** The payload of a UTF-8 continuation byte (`10xxxxxx`) escaped at position i. */
  function ContAt(s: string, i: nat): (r: Option<nat>)
    ensures r.Some? ==> r.value < 64 && i + 3 <= |s|
  {
    match ByteAt(s, i)
    case Some(b) => if 0x80 <= b < 0xC0 then Some(b - 0x80) else None
    case None => None
  }

  /**
   * Decodes the escapes of one character at the start of s: the character and how many
   * characters of s they take. Fails on a bad escape, a bad lead or continuation byte,
   * an overlong form, a surrogate or a code point past U+10FFFF.
   */
  function DecodeEscape(s: string): (r: Option<(char, nat)>)
    ensures r.Some? ==> 3 <= r.value.1 <= |s|
  {
    match ByteAt(s, 0)
    case None => None
    case Some(b0) =>
      if b0 < 0x80 then Some((b0 as char, 3))
      else if b0 < 0xC0 then None
      else if b0 < 0xE0 then
        match ContAt(s, 3)
        case None => None
        case Some(x1) =>
          var cp := (b0 - 0xC0) * 64 + x1;
          if cp < 0x80 then None else Some((cp as char, 6))
      else if b0 < 0xF0 then
        match (ContAt(s, 3), ContAt(s, 6))
        case (Some(x1), Some(x2)) =>
          var cp := ((b0 - 0xE0) * 64 + x1) * 64 + x2;
          if cp < 0x800 || 0xD800 <= cp < 0xE000 then None else Some((cp as char, 9))
        case _ => None
      else if b0 < 0xF8 then
        match (ContAt(s, 3), ContAt(s, 6), ContAt(s, 9))
        case (Some(x1), Some(x2), Some(x3)) =>
          var cp := (((b0 - 0xF0) * 64 + x1) * 64 + x2) * 64 + x3;
          if cp < 0x1_0000 || cp >= 0x11_0000 then None else Some((cp as char, 12))
        case _ => None
      else None
  }

  /** `decodeURIComponent(s)`, with `None` where the JavaScript function throws a URIError. */
  function Decode(s: string): (r: Option<string>)
    decreases |s|
  {
    if s == [] then Some([])
    else if s[0] != '%' then
      match Decode(s[1..])
      case Some(t) => Some([s[0]] + t)
      case None => None
    else
      match DecodeEscape(s)
      case None => None
      case Some((c, k)) =>
        match Decode(s[k..])
        case Some(t) => Some([c] + t)
        case None => None
  }

  lemma ByteAtEscape(pre: string, b: nat, post: string)
    requires IsByte(b)
    ensures ByteAt(pre + Escape(b) + post, |pre|) == Some(b)
  {
    var s := pre + Escape(b) + post;
    var i := |pre|;
    assert s[i] == '%' && s[i + 1] == HexDigit(b / 16) && s[i + 2] == HexDigit(b % 16);
    HexRoundTrip(b / 16);
    HexRoundTrip(b % 16);
  }

  lemma ContAtEscape(pre: string, x: nat, post: string)
    requires x < 64
    ensures ContAt(pre + Escape(0x80 + x) + post, |pre|) == Some(x)
  {
    ByteAtEscape(pre, 0x80 + x, post);
  }

  lemma EscapeAllCons(b: nat, bs: seq<nat>)
    requires IsByte(b) && forall i :: 0 <= i < |bs| ==> IsByte(bs[i])
    ensures EscapeAll([b] + bs) == Escape(b) + EscapeAll(bs)
  {
  }

  lemma DecodeEscape1(c: char, rest: string)
    requires c as int < 0x80
    ensures DecodeEscape(EscapeAll(Utf8(c)) + rest) == Some((c, 3))
  {
    EscapeAllCons(c as int, []);
    assert EscapeAll(Utf8(c)) + rest == [] + Escape(c as int) + rest;
    ByteAtEscape([], c as int, rest);
  }

  lemma ByteAtShift(p: string, t: string, j: nat)
    ensures ByteAt(p + t, |p| + j) == ByteAt(t, j)
  {
  }

  /** The i-th escape of the bytes bs, followed by anything, reads back as the i-th byte. */
  lemma {:induction false} ByteAtEscaped(bs: seq<nat>, rest: string, i: nat)
    requires i < |bs| && forall k :: 0 <= k < |bs| ==> IsByte(bs[k])
    ensures ByteAt(EscapeAll(bs) + rest, 3 * i) == Some(bs[i])
    decreases i
  {
    var e, t := Escape(bs[0]), EscapeAll(bs[1..]) + rest;
    EscapeAllCons(bs[0], bs[1..]);
    assert [bs[0]] + bs[1..] == bs;
    if i == 0 {
      assert EscapeAll(bs) + rest == [] + e + t;
      ByteAtEscape([], bs[0], t);
    } else {
      assert EscapeAll(bs) + rest == e + t;
      ByteAtEscaped(bs[1..], rest, i - 1);
      ByteAtShift(e, t, 3 * (i - 1));
    }
  }

  lemma DecodeEscape2(c: char, rest: string)
    requires 0x80 <= c as int < 0x800
    ensures DecodeEscape(EscapeAll(Utf8(c)) + rest) == Some((c, 6))
  {
    var cp := c as int;
    var bs := Utf8(c);
    ByteAtEscaped(bs, rest, 0);
    ByteAtEscaped(bs, rest, 1);
    assert (bs[0] - 0xC0) * 64 + (bs[1] - 0x80) == cp;
  }

  lemma Split3(cp: int)
    requires 0x800 <= cp < 0x1_0000
    ensures var q1 := cp / 64; var q2 := q1 / 64;
      q2 < 16 && (q2 * 64 + q1 % 64) * 64 + cp % 64 == cp
  {
    var q1 := cp / 64;
    var q2 := q1 / 64;
    assert cp == q1 * 64 + cp % 64;
    assert q1 < 1024;
    assert q1 == q2 * 64 + q1 % 64;
  }

  /** A three-byte escape with lead byte b0 and continuation payloads x1, x2 decodes to their code point. */
  lemma DecodeThreeBytes(s: string, b0: nat, x1: nat, x2: nat)
    requires 0xE0 <= b0 < 0xF0
    requires ByteAt(s, 0) == Some(b0) && ContAt(s, 3) == Some(x1) && ContAt(s, 6) == Some(x2)
    requires var cp := ((b0 - 0xE0) * 64 + x1) * 64 + x2; 0x800 <= cp && !(0xD800 <= cp < 0xE000)
    ensures DecodeEscape(s) == Some(((((b0 - 0xE0) * 64 + x1) * 64 + x2) as char, 9))
  {
  }

  lemma DecodeEscape3(c: char, rest: string)
    requires 0x800 <= c as int < 0x1_0000
    ensures DecodeEscape(EscapeAll(Utf8(c)) + rest) == Some((c, 9))
  {
    var cp := c as int;
    var q1 := cp / 64;
    var q2 := q1 / 64;
    Split3(cp);
    var bs := Utf8(c);
    assert bs == [0xE0 + q2, 0x80 + q1 % 64, 0x80 + cp % 64];
    ByteAtEscaped(bs, rest, 0);
    ByteAtEscaped(bs, rest, 1);
    ByteAtEscaped(bs, rest, 2);
    DecodeThreeBytes(EscapeAll(bs) + rest, 0xE0 + q2, q1 % 64, cp % 64);
  }

  lemma Split4(cp: int)
    requires 0x1_0000 <= cp < 0x11_0000
    ensures var q1 := cp / 64; var q2 := q1 / 64; var q3 := q2 / 64;
      q3 < 8 && ((q3 * 64 + q2 % 64) * 64 + q1 % 64) * 64 + cp % 64 == cp
  {
    var q1 := cp / 64;
    var q2 := q1 / 64;
    var q3 := q2 / 64;
    assert cp == q1 * 64 + cp % 64;
    assert q1 == q2 * 64 + q1 % 64;
    assert q2 < 0x110;
    assert q2 == q3 * 64 + q2 % 64;
  }

  /** A four-byte escape with lead byte b0 and continuation payloads x1, x2, x3 decodes to their code point. */
  lemma DecodeFourBytes(s: string, b0: nat, x1: nat, x2: nat, x3: nat)
    requires 0xF0 <= b0 < 0xF8
    requires ByteAt(s, 0) == Some(b0) && ContAt(s, 3) == Some(x1) && ContAt(s, 6) == Some(x2) && ContAt(s, 9) == Some(x3)
    requires var cp := (((b0 - 0xF0) * 64 + x1) * 64 + x2) * 64 + x3; 0x1_0000 <= cp < 0x11_0000
    ensures DecodeEscape(s) == Some((((((b0 - 0xF0) * 64 + x1) * 64 + x2) * 64 + x3) as char, 12))
  {
  }

  lemma DecodeEscape4(c: char, rest: string)
    requires 0x1_0000 <= c as int
    ensures DecodeEscape(EscapeAll(Utf8(c)) + rest) == Some((c, 12))
  {
    var cp := c as int;
    var q1 := cp / 64;
    var q2 := q1 / 64;
    var q3 := q2 / 64;
    Split4(cp);
    var bs := Utf8(c);
    assert bs == [0xF0 + q3, 0x80 + q2 % 64, 0x80 + q1 % 64, 0x80 + cp % 64];
    ByteAtEscaped(bs, rest, 0);
    ByteAtEscaped(bs, rest, 1);
    ByteAtEscaped(bs, rest, 2);
    ByteAtEscaped(bs, rest, 3);
    DecodeFourBytes(EscapeAll(bs) + rest, 0xF0 + q3, q2 % 64, q1 % 64, cp % 64);
  }

  /** The escapes of one character decode to that character, whatever follows them. */
  lemma DecodeEscapeChar(c: char, rest: string)
    requires !Unreserved(c)
    ensures DecodeEscape(EscapeAll(Utf8(c)) + rest) == Some((c, |EscapeAll(Utf8(c))|))
  {
    var cp := c as int;
    if cp < 0x80 {
      DecodeEscape1(c, rest);
    } else if cp < 0x800 {
      DecodeEscape2(c, rest);
    } else if cp < 0x1_0000 {
      DecodeEscape3(c, rest);
    } else {
      DecodeEscape4(c, rest);
    }
  }

  /** Decoding an encoded string gives the string back. */
  lemma {:induction false} DecodeEncode(s: string)
    ensures Decode(Encode(s)) == Some(s)
    decreases |s|
  {
    if s != [] {
      var head, tail := EncodeChar(s[0]), Encode(s[1..]);
      var e := head + tail;
      assert Encode(s) == e;
      DecodeEncode(s[1..]);
      if Unreserved(s[0]) {
        assert e[0] == s[0] && e[1..] == tail;
      } else {
        var bs := Utf8(s[0]);
        assert e[0] == '%';
        DecodeEscapeChar(s[0], tail);
        assert e[|head|..] == tail;
      }
      assert [s[0]] + s[1..] == s;
    }
  }

  /** A string of unescaped characters only is left as it is. */
  lemma {:induction false} EncodeUnreserved(s: string)
    requires forall i :: 0 <= i < |s| ==> Unreserved(s[i])
    ensures Encode(s) == s
    decreases |s|
  {
    if s != [] {
      EncodeUnreserved(s[1..]);
    }
  }

  /** A path is escaped at its slash only. */
  lemma EncodePathExample()
    ensures Encode("/dash") == "%2Fdash"
  {
    assert Utf8('/') == [47];
    EscapeAllCons(47, []);
    assert EscapeAll([47]) == ['%', '2', 'F'];
    assert "/dash"[1..] == "dash";
    EncodeUnreserved("dash");
  }
}

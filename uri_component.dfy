/** ECMAScript `encodeURIComponent`: every character outside the unreserved
    set is written as the percent-encoded octets of its UTF-8 form (section
    2.1 of RFC 3986, UTF-8 as in RFC 3629), with upper-case hexadecimal
    digits. `DecodeComponent` is its inverse (`decodeURIComponent`), used
    here to state that the encoding loses nothing. */
module UriComponent {
  import opened Common

  type Byte = b: int | 0 <= b < 256

  /** The characters `encodeURIComponent` leaves as they are. */
  predicate IsUnreserved(c: char) {
    || ('A' <= c <= 'Z') || ('a' <= c <= 'z') || ('0' <= c <= '9')
    || c == '-' || c == '_' || c == '.' || c == '!' || c == '~'
    || c == '*' || c == '\'' || c == '(' || c == ')'
  }

  /** A character that may appear in the output of `encodeURIComponent`. */
  predicate IsEncodedChar(c: char) {
    IsUnreserved(c) || c == '%'
  }

  /** UTF-8 encoding of one Unicode scalar value. */
  function Utf8(cp: nat): (bytes: seq<Byte>)
    requires cp < 0x11_0000
    ensures 1 <= |bytes| <= 4
  {
    if cp < 0x80 then [cp]
    else if cp < 0x800 then [0xC0 + cp / 64, 0x80 + cp % 64]
    else if cp < 0x1_0000 then [0xE0 + cp / 64 / 64, 0x80 + cp / 64 % 64, 0x80 + cp % 64]
    else [0xF0 + cp / 64 / 64 / 64, 0x80 + cp / 64 / 64 % 64, 0x80 + cp / 64 % 64, 0x80 + cp % 64]
  }

  function HexDigit(d: nat): char
    requires d < 16
  {
    "0123456789ABCDEF"[d]
  }

  /** The value of a hexadecimal digit of either case. */
  function HexValue(c: char): Option<nat> {
    if '0' <= c <= '9' then Some((c as int) - ('0' as int))
    else if 'A' <= c <= 'F' then Some((c as int) - ('A' as int) + 10)
    else if 'a' <= c <= 'f' then Some((c as int) - ('a' as int) + 10)
    else None
  }

  lemma HexRoundTrip(d: nat)
    requires d < 16
    ensures HexValue(HexDigit(d)) == Some(d)
  {
  }

  /** `%XY` for one octet. */
  function Percent(b: Byte): (r: string)
    ensures |r| == 3 && r[0] == '%'
  {
    ['%', HexDigit(b / 16), HexDigit(b % 16)]
  }

  function PercentAll(bytes: seq<Byte>): (r: string)
    ensures |r| == 3 * |bytes|
  {
    if bytes == [] then [] else Percent(bytes[0]) + PercentAll(bytes[1..])
  }

  /** The encoding of one character. */
  function EncodeChar(c: char): string {
    if IsUnreserved(c) then [c] else PercentAll(Utf8(c as nat))
  }

  /** `encodeURIComponent(s)`: only unreserved characters and `%` remain. */
  function EncodeComponent(s: string): (r: string)
    ensures forall i :: 0 <= i < |r| ==> IsEncodedChar(r[i])
  {
    if s == [] then []
    else
      var head := EncodeChar(s[0]);
      assert forall i :: 0 <= i < |head| ==> IsEncodedChar(head[i]) by {
        if !IsUnreserved(s[0]) { PercentAllChars(Utf8(s[0] as nat)); }
      }
      head + EncodeComponent(s[1..])
  }

  lemma {:induction false} PercentAllChars(bytes: seq<Byte>)
    ensures forall i :: 0 <= i < |PercentAll(bytes)| ==> IsEncodedChar(PercentAll(bytes)[i])
  {
    if bytes != [] {
      PercentAllChars(bytes[1..]);
      var p := Percent(bytes[0]);
      assert IsEncodedChar(p[1]) && IsEncodedChar(p[2]);
    }
  }

  // ---------------------------------------------------------------------------
  // Decoding
  // ---------------------------------------------------------------------------

  /** The octet a three-character `%XY` stands for, if it is one. */
  function OctetOf(t: string): Option<Byte>
    requires |t| == 3
  {
    if t[0] != '%' then None
    else
      match (HexValue(t[1]), HexValue(t[2]))
      case (Some(hi), Some(lo)) => if hi < 16 && lo < 16 then Some(hi * 16 + lo) else None
      case _ => None
  }

  /** The octet written as `%XY` at position `i` of `s`, if any. */
  function ByteAt(s: string, i: nat): Option<Byte> {
    if i + 3 <= |s| then OctetOf(s[i..i + 3]) else None
  }

  /** The six payload bits of the continuation octet at position `i`. */
  function ContinuationAt(s: string, i: nat): Option<nat> {
    match ByteAt(s, i)
    case Some(b) => if 0x80 <= b < 0xC0 then Some(b - 0x80) else None
    case None => None
  }

  predicate IsScalar(cp: int) {
    0 <= cp < 0xD800 || 0xE000 <= cp < 0x11_0000
  }

  /** One character read from a run of percent-encoded UTF-8 octets at the
      start of `s`, with the number of characters of `s` it took. Overlong
      forms, surrogates and values past U+10FFFF are refused. */
  function DecodeSequence(s: string): (r: Option<(char, nat)>)
    ensures r.Some? ==> 3 <= r.value.1 <= |s|
  {
    match ByteAt(s, 0)
    case None => None
    case Some(b0) =>
      if b0 < 0x80 then Some((b0 as char, 3))
      else if 0xC0 <= b0 < 0xE0 then
        match ContinuationAt(s, 3)
        case None => None
        case Some(x1) =>
          var cp := (b0 - 0xC0) * 64 + x1;
          if 0x80 <= cp then Some((cp as char, 6)) else None
      else if 0xE0 <= b0 < 0xF0 then
        match (ContinuationAt(s, 3), ContinuationAt(s, 6))
        case (Some(x1), Some(x2)) =>
          var cp := ((b0 - 0xE0) * 64 + x1) * 64 + x2;
          if 0x800 <= cp && IsScalar(cp) then Some((cp as char, 9)) else None
        case _ => None
      else if 0xF0 <= b0 < 0xF8 then
        match (ContinuationAt(s, 3), ContinuationAt(s, 6), ContinuationAt(s, 9))
        case (Some(x1), Some(x2), Some(x3)) =>
          var cp := (((b0 - 0xF0) * 64 + x1) * 64 + x2) * 64 + x3;
          if 0x1_0000 <= cp < 0x11_0000 then Some((cp as char, 12)) else None
        case _ => None
      else None
  }

  function Prepend(c: char, rest: Option<string>): Option<string> {
    match rest
    case Some(t) => Some([c] + t)
    case None => None
  }

  /** `decodeURIComponent(s)`; `None` where it would throw `URIError`. */
  function DecodeComponent(s: string): Option<string>
    decreases |s|
  {
    if s == [] then Some([])
    else if s[0] != '%' then Prepend(s[0], DecodeComponent(s[1..]))
    else
      match DecodeSequence(s)
      case None => None
      case Some((c, n)) => Prepend(c, DecodeComponent(s[n..]))
  }

  // ---------------------------------------------------------------------------
  // Round trip
  // ---------------------------------------------------------------------------

  lemma OctetOfPercent(b: Byte)
    ensures OctetOf(Percent(b)) == Some(b)
  {
    HexRoundTrip(b / 16);
    HexRoundTrip(b % 16);
  }

  /** The `k`-th octet of a percent-encoded run is read back at `3 * k`. */
  lemma {:induction false} PercentAtOffset(bytes: seq<Byte>, rest: string, k: nat)
    requires k < |bytes|
    ensures ByteAt(PercentAll(bytes) + rest, 3 * k) == Some(bytes[k])
    decreases k
  {
    var head := Percent(bytes[0]);
    var tail := PercentAll(bytes[1..]) + rest;
    assert PercentAll(bytes) + rest == head + tail;
    if k == 0 {
      ByteAtFront(bytes[0], tail);
    } else {
      PercentAtOffset(bytes[1..], rest, k - 1);
      ByteAtShift(head, tail, 3 * (k - 1));
    }
  }

  lemma ByteAtFront(b: Byte, tail: string)
    ensures ByteAt(Percent(b) + tail, 0) == Some(b)
  {
    assert (Percent(b) + tail)[0..3] == Percent(b);
    OctetOfPercent(b);
  }

  lemma ByteAtShift(head: string, tail: string, i: nat)
    requires |head| == 3
    ensures ByteAt(head + tail, i + 3) == ByteAt(tail, i)
  {
    if i + 3 <= |tail| {
      assert (head + tail)[i + 3..i + 6] == tail[i..i + 3];
    }
  }

  /** Reading back the percent-encoded UTF-8 of one character yields it. */
  lemma DecodeEncodedChar(c: char, rest: string)
    requires !IsUnreserved(c)
    ensures DecodeSequence(EncodeChar(c) + rest) == Some((c, |EncodeChar(c)|))
  {
    var cp := c as nat;
    assert EncodeChar(c) == PercentAll(Utf8(cp));
    if cp < 0x80 {
      EncodedOne(cp, rest);
    } else if cp < 0x800 {
      EncodedTwo(cp, rest);
    } else if cp < 0x1_0000 {
      EncodedThree(cp, rest);
    } else {
      EncodedFour(cp, rest);
    }
  }

  lemma EncodedOne(cp: nat, rest: string)
    requires cp < 0x80
    ensures DecodeSequence(PercentAll(Utf8(cp)) + rest) == Some((cp as char, 3))
  {
    var bytes := Utf8(cp);
    assert bytes == [cp];
    PercentAtOffset(bytes, rest, 0);
    DecodeOne(PercentAll(bytes) + rest, cp);
  }

  lemma EncodedTwo(cp: nat, rest: string)
    requires 0x80 <= cp < 0x800
    ensures DecodeSequence(PercentAll(Utf8(cp)) + rest) == Some((cp as char, 6))
  {
    var bytes := Utf8(cp);
    assert bytes == [0xC0 + cp / 64, 0x80 + cp % 64];
    PercentAtOffset(bytes, rest, 0);
    PercentAtOffset(bytes, rest, 1);
    DecodeTwo(PercentAll(bytes) + rest, cp);
  }

  lemma EncodedThree(cp: nat, rest: string)
    requires 0x800 <= cp < 0x1_0000 && IsScalar(cp)
    ensures DecodeSequence(PercentAll(Utf8(cp)) + rest) == Some((cp as char, 9))
  {
    var bytes := Utf8(cp);
    assert bytes == [0xE0 + cp / 64 / 64, 0x80 + cp / 64 % 64, 0x80 + cp % 64];
    PercentAtOffset(bytes, rest, 0);
    PercentAtOffset(bytes, rest, 1);
    PercentAtOffset(bytes, rest, 2);
    DecodeThree(PercentAll(bytes) + rest, cp);
  }

  lemma EncodedFour(cp: nat, rest: string)
    requires 0x1_0000 <= cp < 0x11_0000
    ensures DecodeSequence(PercentAll(Utf8(cp)) + rest) == Some((cp as char, 12))
  {
    var bytes := Utf8(cp);
    assert bytes == [0xF0 + cp / 64 / 64 / 64, 0x80 + cp / 64 / 64 % 64, 0x80 + cp / 64 % 64, 0x80 + cp % 64];
    PercentAtOffset(bytes, rest, 0);
    PercentAtOffset(bytes, rest, 1);
    PercentAtOffset(bytes, rest, 2);
    PercentAtOffset(bytes, rest, 3);
    DecodeFour(PercentAll(bytes) + rest, cp);
  }

  lemma DecodeOne(s: string, cp: nat)
    requires cp < 0x80
    requires ByteAt(s, 0) == Some(cp)
    ensures DecodeSequence(s) == Some((cp as char, 3))
  {
  }

  lemma DecodeTwo(s: string, cp: nat)
    requires 0x80 <= cp < 0x800
    requires ByteAt(s, 0) == Some(0xC0 + cp / 64)
    requires ByteAt(s, 3) == Some(0x80 + cp % 64)
    ensures DecodeSequence(s) == Some((cp as char, 6))
  {
    assert ContinuationAt(s, 3) == Some(cp % 64);
    assert (cp / 64) * 64 + cp % 64 == cp;
  }

  lemma DecodeThree(s: string, cp: nat)
    requires 0x800 <= cp < 0x1_0000 && IsScalar(cp)
    requires ByteAt(s, 0) == Some(0xE0 + cp / 64 / 64)
    requires ByteAt(s, 3) == Some(0x80 + cp / 64 % 64)
    requires ByteAt(s, 6) == Some(0x80 + cp % 64)
    ensures DecodeSequence(s) == Some((cp as char, 9))
  {
    var q := cp / 64;
    assert ContinuationAt(s, 3) == Some(q % 64);
    assert ContinuationAt(s, 6) == Some(cp % 64);
    assert (q / 64) * 64 + q % 64 == q;
    assert q * 64 + cp % 64 == cp;
  }

  lemma DecodeFour(s: string, cp: nat)
    requires 0x1_0000 <= cp < 0x11_0000
    requires ByteAt(s, 0) == Some(0xF0 + cp / 64 / 64 / 64)
    requires ByteAt(s, 3) == Some(0x80 + cp / 64 / 64 % 64)
    requires ByteAt(s, 6) == Some(0x80 + cp / 64 % 64)
    requires ByteAt(s, 9) == Some(0x80 + cp % 64)
    ensures DecodeSequence(s) == Some((cp as char, 12))
  {
    var q := cp / 64;
    var q2 := q / 64;
    assert ContinuationAt(s, 3) == Some(q2 % 64);
    assert ContinuationAt(s, 6) == Some(q % 64);
    assert ContinuationAt(s, 9) == Some(cp % 64);
    assert (q2 / 64) * 64 + q2 % 64 == q2;
    assert q2 * 64 + q % 64 == q;
    assert q * 64 + cp % 64 == cp;
  }

  /** `decodeURIComponent(encodeURIComponent(s)) == s`. */
  lemma {:induction false} DecodeEncode(s: string)
    ensures DecodeComponent(EncodeComponent(s)) == Some(s)
  {
    if s != [] {
      var head := EncodeChar(s[0]);
      var tail := EncodeComponent(s[1..]);
      var e := EncodeComponent(s);
      assert e == head + tail;
      DecodeEncode(s[1..]);
      if IsUnreserved(s[0]) {
        assert e[0] == s[0] && e[1..] == tail;
      } else {
        DecodeEncodedChar(s[0], tail);
        assert e[0] == '%' by {
          var bytes := Utf8(s[0] as nat);
          assert head == Percent(bytes[0]) + PercentAll(bytes[1..]);
        }
        assert e[|head|..] == tail;
        assert DecodeSequence(e) == Some((s[0], |head| as nat));
      }
      assert [s[0]] + s[1..] == s;
    }
  }
}

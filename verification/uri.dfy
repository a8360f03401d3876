/**
 * `encodeURIComponent` and its inverse `decodeURIComponent` (sections
 * 19.2.6.4, 19.2.6.5 and the Encode/Decode operations of ECMA-262): every
 * character outside the unreserved set is written as the `%XX` escapes of
 * its UTF-8 bytes, upper-case hex.
 */
module Uri {
  import opened Maybe

  /** The characters `encodeURIComponent` leaves as they are. */
  predicate Unreserved(c: char) {
    ('A' <= c <= 'Z') || ('a' <= c <= 'z') || ('0' <= c <= '9') || c in "-_.!~*'()"
  }

  /** A Unicode scalar value: what a `char` can hold. */
  predicate IsScalar(cp: int) {
    (0 <= cp < 0xD800) || (0xE000 <= cp < 0x11_0000)
  }

  predicate IsByte(b: int) {
    0 <= b < 256
  }

  /** The UTF-8 encoding of one character. */
  function Utf8(c: char): (bs: seq<int>)
    ensures 1 <= |bs| <= 4
    ensures forall i :: 0 <= i < |bs| ==> IsByte(bs[i])
    ensures |bs| == 1 <==> c as int < 0x80
  {
    var cp := c as int;
    if cp < 0x80 then [cp]
    else if cp < 0x800 then [0xC0 + cp / 64, 0x80 + cp % 64]
    else if cp < 0x1_0000 then [0xE0 + cp / 4096, 0x80 + cp / 64 % 64, 0x80 + cp % 64]
    else [0xF0 + cp / 262144, 0x80 + cp / 4096 % 64, 0x80 + cp / 64 % 64, 0x80 + cp % 64]
  }

  /** How many bytes a sequence starting with byte `b` has; 0 when `b` cannot start one. */
  function LeadLength(b: int): (n: nat)
    ensures n <= 4
  {
    if 0 <= b < 0x80 then 1
    else if 0xC0 <= b < 0xE0 then 2
    else if 0xE0 <= b < 0xF0 then 3
    else if 0xF0 <= b < 0xF8 then 4
    else 0
  }

  /** The code point the payload bits of `bs` spell. */
  function Combine(bs: seq<int>): int
    requires 1 <= |bs| <= 4
  {
    if |bs| == 1 then bs[0]
    else if |bs| == 2 then (bs[0] % 32) * 64 + bs[1] % 64
    else if |bs| == 3 then (bs[0] % 16) * 4096 + (bs[1] % 64) * 64 + bs[2] % 64
    else (bs[0] % 8) * 262144 + (bs[1] % 64) * 4096 + (bs[2] % 64) * 64 + bs[3] % 64
  }

  /** Reading the bytes of a character back gives its code point and length. */
  lemma Utf8Decodes(c: char)
    ensures LeadLength(Utf8(c)[0]) == |Utf8(c)|
    ensures Combine(Utf8(c)) == c as int
  {
    var cp := c as int;
    if cp < 0x80 {
    } else if cp < 0x800 {
      TwoBytes(cp);
    } else if cp < 0x1_0000 {
      ThreeBytes(cp);
    } else {
      FourBytes(cp);
    }
  }

  lemma TwoBytes(cp: int)
    requires 0x80 <= cp < 0x800
    ensures LeadLength(0xC0 + cp / 64) == 2
    ensures Combine([0xC0 + cp / 64, 0x80 + cp % 64]) == cp
  {
    var q, r := cp / 64, cp % 64;
    assert 2 <= q < 32;
    assert (0xC0 + q) % 32 == q;
    assert (0x80 + r) % 64 == r;
  }

  lemma ThreeBytes(cp: int)
    requires 0x800 <= cp < 0x1_0000
    ensures LeadLength(0xE0 + cp / 4096) == 3
    ensures Combine([0xE0 + cp / 4096, 0x80 + cp / 64 % 64, 0x80 + cp % 64]) == cp
  {
    var a, m := cp / 4096, cp % 4096;
    var b, d := m / 64, m % 64;
    assert cp == a * 4096 + m;
    assert m == b * 64 + d;
    assert cp / 64 == a * 64 + b;
    assert cp / 64 % 64 == b;
    assert cp % 64 == d;
    assert a < 16;
    assert (0xE0 + a) % 16 == a;
    assert (0x80 + b) % 64 == b;
    assert (0x80 + d) % 64 == d;
  }

  lemma FourBytes(cp: int)
    requires 0x1_0000 <= cp < 0x11_0000
    ensures LeadLength(0xF0 + cp / 262144) == 4
    ensures Combine([0xF0 + cp / 262144, 0x80 + cp / 4096 % 64, 0x80 + cp / 64 % 64, 0x80 + cp % 64]) == cp
  {
    var a, m := cp / 262144, cp % 262144;
    var b, n := m / 4096, m % 4096;
    var d, e := n / 64, n % 64;
    assert cp == a * 262144 + m;
    assert m == b * 4096 + n;
    assert n == d * 64 + e;
    assert cp / 4096 == a * 64 + b;
    assert cp / 4096 % 64 == b;
    assert cp / 64 == a * 4096 + b * 64 + d;
    assert cp / 64 % 64 == d;
    assert cp % 64 == e;
    assert a < 8;
    assert (0xF0 + a) % 8 == a;
    assert (0x80 + b) % 64 == b;
    assert (0x80 + d) % 64 == d;
    assert (0x80 + e) % 64 == e;
  }

  predicate IsHex(c: char) {
    ('0' <= c <= '9') || ('A' <= c <= 'F') || ('a' <= c <= 'f')
  }

  function HexValue(c: char): (v: nat)
    requires IsHex(c)
    ensures v < 16
  {
    if '0' <= c <= '9' then c as int - '0' as int
    else if 'A' <= c <= 'F' then c as int - 'A' as int + 10
    else c as int - 'a' as int + 10
  }

  /** The upper-case hex digit of `d`. */
  function HexDigit(d: nat): (c: char)
    requires d < 16
    ensures IsHex(c) && HexValue(c) == d
    ensures Unreserved(c)
  {
    if d < 10 then ('0' as int + d) as char else ('A' as int + d - 10) as char
  }

  /** `%XX` for one byte. */
  function Escape(b: int): (r: string)
    requires IsByte(b)
    ensures |r| == 3 && r[0] == '%' && IsHex(r[1]) && IsHex(r[2])
    ensures HexValue(r[1]) * 16 + HexValue(r[2]) == b
  {
    ['%', HexDigit(b / 16), HexDigit(b % 16)]
  }

  /** The escapes of a byte sequence, one after the other. */
  function Escapes(bs: seq<int>): (r: string)
    requires forall i :: 0 <= i < |bs| ==> IsByte(bs[i])
    ensures |r| == 3 * |bs|
    ensures forall i :: 0 <= i < |r| ==> r[i] == '%' || Unreserved(r[i])
  {
    if bs == [] then [] else Escape(bs[0]) + Escapes(bs[1..])
  }

  function EncodeChar(c: char): (r: string)
    ensures forall i :: 0 <= i < |r| ==> r[i] == '%' || Unreserved(r[i])
  {
    if Unreserved(c) then [c] else Escapes(Utf8(c))
  }

  /**
   * `encodeURIComponent(s)`. A `char` is always a scalar value, so the
   * lone-surrogate error case cannot arise.
   */
  function EncodeComponent(s: string): (r: string)
    ensures forall i :: 0 <= i < |r| ==> r[i] == '%' || Unreserved(r[i])
    ensures '/' !in r && '?' !in r && '#' !in r && '&' !in r
  {
    if s == [] then []
    else
      var head, tail := EncodeChar(s[0]), EncodeComponent(s[1..]);
      EncodedJoin(head, tail);
      head + tail
  }

  /** Only `%` and unreserved characters, and so none of the URL delimiters. */
  predicate Encoded(r: string) {
    forall i :: 0 <= i < |r| ==> r[i] == '%' || Unreserved(r[i])
  }

  lemma EncodedJoin(x: string, y: string)
    requires Encoded(x) && Encoded(y)
    ensures forall i :: 0 <= i < |x + y| ==> (x + y)[i] == '%' || Unreserved((x + y)[i])
    ensures '/' !in x + y && '?' !in x + y && '#' !in x + y && '&' !in x + y
  {
    forall i | 0 <= i < |x + y| ensures (x + y)[i] == '%' || Unreserved((x + y)[i]) {
      if i < |x| { assert (x + y)[i] == x[i]; } else { assert (x + y)[i] == y[i - |x|]; }
    }
  }

  /** A text made of unreserved characters only is its own encoding. */
  lemma {:induction false} EncodeUnreserved(s: string)
    requires forall i :: 0 <= i < |s| ==> Unreserved(s[i])
    ensures EncodeComponent(s) == s
  {
    if s != [] {
      EncodeUnreserved(s[1..]);
      assert [s[0]] + s[1..] == s;
    }
  }

  // ---------------------------------------------------------------------
  // decodeURIComponent

  /** The byte a `%XX` escape at the front of `t` stands for. */
  function EscapedByte(t: string): (r: Option<int>)
    ensures r.Some? ==> |t| >= 3 && IsByte(r.value)
  {
    if |t| >= 3 && t[0] == '%' && IsHex(t[1]) && IsHex(t[2]) then Some(HexValue(t[1]) * 16 + HexValue(t[2]))
    else None
  }

  /** `n` escaped bytes at the front of `t`. */
  function EscapedBytes(t: string, n: nat): (r: Option<seq<int>>)
    ensures r.Some? ==> |r.value| == n && |t| >= 3 * n
    decreases n
  {
    if n == 0 then Some([])
    else
      match EscapedByte(t)
      case None => None
      case Some(b) =>
        match EscapedBytes(t[3..], n - 1)
        case None => None
        case Some(rest) => Some([b] + rest)
  }

  function Prepend(c: char, r: Option<string>): Option<string> {
    if r.Some? then Some([c] + r.value) else None
  }

  /**
   * `decodeURIComponent(t)`; `None` is the `URIError`. Every escape
   * sequence must spell exactly the UTF-8 encoding of one scalar value.
   */
  function DecodeComponent(t: string): (r: Option<string>)
    decreases |t|
  {
    if t == [] then Some([])
    else if t[0] != '%' then Prepend(t[0], DecodeComponent(t[1..]))
    else
      match EscapedByte(t)
      case None => None
      case Some(b) =>
        var n := LeadLength(b);
        if n == 0 then None
        else
          match EscapedBytes(t, n)
          case None => None
          case Some(bs) =>
            var cp := Combine(bs);
            if IsScalar(cp) && Utf8(cp as char) == bs then Prepend(cp as char, DecodeComponent(t[3 * n..]))
            else None
  }

  lemma {:induction false} EscapesRead(bs: seq<int>, tail: string)
    requires forall i :: 0 <= i < |bs| ==> IsByte(bs[i])
    ensures EscapedBytes(Escapes(bs) + tail, |bs|) == Some(bs)
    decreases |bs|
  {
    if bs != [] {
      var rest := Escapes(bs[1..]) + tail;
      EscapesSplit(bs, tail);
      EscapeRead(bs[0], rest);
      EscapesRead(bs[1..], tail);
      assert [bs[0]] + bs[1..] == bs;
    }
  }

  lemma EscapesSplit(bs: seq<int>, tail: string)
    requires bs != [] && forall i :: 0 <= i < |bs| ==> IsByte(bs[i])
    ensures Escapes(bs) + tail == Escape(bs[0]) + (Escapes(bs[1..]) + tail)
  {
  }

  /** One escape at the front reads back as its byte, and the text after it is untouched. */
  lemma EscapeRead(b: int, rest: string)
    requires IsByte(b)
    ensures EscapedByte(Escape(b) + rest) == Some(b)
    ensures (Escape(b) + rest)[3..] == rest
  {
    var t := Escape(b) + rest;
    assert t[0] == '%' && t[1] == Escape(b)[1] && t[2] == Escape(b)[2];
  }

  /** The escapes of one character decode to that character. */
  lemma DecodeEscapedChar(c: char, tail: string)
    ensures DecodeComponent(Escapes(Utf8(c)) + tail) == Prepend(c, DecodeComponent(tail))
  {
    var bs := Utf8(c);
    var t := Escapes(bs) + tail;
    assert t[..3] == Escape(bs[0]);
    assert EscapedByte(t) == Some(bs[0]);
    Utf8Decodes(c);
    EscapesRead(bs, tail);
    assert t[3 * |bs|..] == tail;
  }

  /** Decoding an encoded component gives back the original text. */
  lemma {:induction false} DecodeEncode(s: string)
    ensures DecodeComponent(EncodeComponent(s)) == Some(s)
  {
    if s != [] {
      DecodeEncode(s[1..]);
      var t := EncodeComponent(s);
      assert t == EncodeChar(s[0]) + EncodeComponent(s[1..]);
      if Unreserved(s[0]) {
        assert t[1..] == EncodeComponent(s[1..]);
      } else {
        DecodeEscapedChar(s[0], EncodeComponent(s[1..]));
      }
      assert [s[0]] + s[1..] == s;
    }
  }

  /** Encoding loses nothing: different texts have different encodings. */
  lemma EncodeInjective(s: string, u: string)
    requires EncodeComponent(s) == EncodeComponent(u)
    ensures s == u
  {
    DecodeEncode(s);
    DecodeEncode(u);
  }
}

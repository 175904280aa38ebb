/**
 * The byte encodings a composed message goes through: UTF-8, and the base64 of section 6.8
 * of RFC 2045. Each comes with the decoder a recipient would run.
 */
module Encoding {
  import opened Basics

  type byte = b: int | 0 <= b < 0x100

  // ---- UTF-8 ----

  function Utf8Char(c: char): (r: seq<byte>)
    ensures 1 <= |r| <= 4
  {
    var n := c as int;
    if n < 0x80 then [n]
    else if n < 0x800 then [0xC0 + n / 0x40, 0x80 + n % 0x40]
    else if n < 0x1_0000 then [0xE0 + n / 0x1000, 0x80 + n / 0x40 % 0x40, 0x80 + n % 0x40]
    else [0xF0 + n / 0x4_0000, 0x80 + n / 0x1000 % 0x40, 0x80 + n / 0x40 % 0x40, 0x80 + n % 0x40]
  }

  function Utf8(s: string): (r: seq<byte>)
    ensures |s| <= |r|
  {
    if s == "" then [] else Utf8Char(s[0]) + Utf8(s[1..])
  }

  predicate IsTail(b: byte) {
    0x80 <= b < 0xC0
  }

  /** The bits a byte adds above its marker. */
  function Bits(b: byte, marker: int): int {
    b - marker
  }

  predicate IsScalar(n: int) {
    0 <= n < 0xD800 || 0xE000 <= n < 0x11_0000
  }

  datatype Read = Read(scalar: char, size: nat)

  /** One character from the front: shortest form only, no surrogates. */
  function ReadChar(b: seq<byte>): (r: Option<Read>)
    ensures r.Some? ==> 1 <= r.value.size <= |b|
  {
    if b == [] then None
    else if b[0] < 0x80 then Some(Read(b[0] as char, 1))
    else if 0xC2 <= b[0] < 0xE0 && |b| >= 2 && IsTail(b[1]) then
      Some(Read((Bits(b[0], 0xC0) * 0x40 + Bits(b[1], 0x80)) as char, 2))
    else if 0xE0 <= b[0] < 0xF0 && |b| >= 3 && IsTail(b[1]) && IsTail(b[2]) then
      var n := Bits(b[0], 0xE0) * 0x1000 + Bits(b[1], 0x80) * 0x40 + Bits(b[2], 0x80);
      if n >= 0x800 && IsScalar(n) then Some(Read(n as char, 3)) else None
    else if 0xF0 <= b[0] < 0xF5 && |b| >= 4 && IsTail(b[1]) && IsTail(b[2]) && IsTail(b[3]) then
      var n := Bits(b[0], 0xF0) * 0x4_0000 + Bits(b[1], 0x80) * 0x1000 + Bits(b[2], 0x80) * 0x40 + Bits(b[3], 0x80);
      if n >= 0x1_0000 && IsScalar(n) then Some(Read(n as char, 4)) else None
    else None
  }

  function FromUtf8(b: seq<byte>): (r: Option<string>)
    ensures r.Some? ==> |r.value| <= |b|
    decreases |b|
  {
    if b == [] then Some("")
    else
      match ReadChar(b)
      case None => None
      case Some(read) =>
        match FromUtf8(b[read.size..])
        case None => None
        case Some(rest) => Some([read.scalar] + rest)
  }

  lemma {:induction false} ThreeBytesRead(c: char, rest: seq<byte>)
    requires 0x800 <= c as int < 0x1_0000
    ensures ReadChar(Utf8Char(c) + rest) == Some(Read(c, |Utf8Char(c)|))
  {
    var n := c as int;
    assert n == n / 0x1000 * 0x1000 + n / 0x40 % 0x40 * 0x40 + n % 0x40;
  }

  lemma {:induction false} FourBytesRead(c: char, rest: seq<byte>)
    requires 0x1_0000 <= c as int
    ensures ReadChar(Utf8Char(c) + rest) == Some(Read(c, |Utf8Char(c)|))
  {
    var n := c as int;
    assert n == n / 0x4_0000 * 0x4_0000 + n / 0x1000 % 0x40 * 0x1000 + n / 0x40 % 0x40 * 0x40 + n % 0x40;
  }

  lemma {:induction false} ReadsBack(c: char, rest: seq<byte>)
    ensures ReadChar(Utf8Char(c) + rest) == Some(Read(c, |Utf8Char(c)|))
  {
    var n := c as int;
    if n < 0x800 {
    } else if n < 0x1_0000 {
      ThreeBytesRead(c, rest);
    } else {
      FourBytesRead(c, rest);
    }
  }

  lemma {:induction false} Utf8RoundTrip(s: string)
    ensures FromUtf8(Utf8(s)) == Some(s)
  {
    if s != "" {
      var first, rest := Utf8Char(s[0]), Utf8(s[1..]);
      ReadsBack(s[0], rest);
      assert (first + rest)[|first|..] == rest;
      Utf8RoundTrip(s[1..]);
      assert s == [s[0]] + s[1..];
    }
  }

  // ---- Base64 ----

  function Digit(n: int): (c: char)
    requires 0 <= n < 64
  {
    if n < 26 then ('A' as int + n) as char
    else if n < 52 then ('a' as int + n - 26) as char
    else if n < 62 then ('0' as int + n - 52) as char
    else if n == 62 then '+' else '/'
  }

  function DigitValue(c: char): (r: Option<int>)
    ensures r.Some? ==> 0 <= r.value < 64
  {
    if 'A' <= c <= 'Z' then Some(c as int - 'A' as int)
    else if 'a' <= c <= 'z' then Some(c as int - 'a' as int + 26)
    else if '0' <= c <= '9' then Some(c as int - '0' as int + 52)
    else if c == '+' then Some(62)
    else if c == '/' then Some(63)
    else None
  }

  predicate IsBase64Char(c: char) {
    DigitValue(c).Some? || c == '='
  }

  lemma {:induction false} DigitReads(n: int)
    requires 0 <= n < 64
    ensures DigitValue(Digit(n)) == Some(n)
  {
  }

  function Quad(x: byte, y: byte, z: byte): (r: string)
    ensures |r| == 4
  {
    [Digit(x / 4), Digit(x % 4 * 16 + y / 16), Digit(y % 16 * 4 + z / 64), Digit(z % 64)]
  }

  function Base64(b: seq<byte>): (r: string)
    ensures |r| == (|b| + 2) / 3 * 4
    decreases |b|
  {
    if b == [] then ""
    else if |b| == 1 then Quad(b[0], 0, 0)[..2] + "=="
    else if |b| == 2 then Quad(b[0], b[1], 0)[..3] + "="
    else Quad(b[0], b[1], b[2]) + Base64(b[3..])
  }

  /** Four characters; the padding is allowed only where the caller says. */
  function FromQuad(a: char, b: char, c: char, d: char): (r: Option<seq<byte>>)
    ensures r.Some? ==> 1 <= |r.value| <= 3
  {
    match (DigitValue(a), DigitValue(b), DigitValue(c), DigitValue(d))
    case (Some(i), Some(j), Some(k), Some(l)) => Some([i * 4 + j / 16, j % 16 * 16 + k / 4, k % 4 * 64 + l])
    case (Some(i), Some(j), Some(k), None) =>
      if d == '=' then Some([i * 4 + j / 16, j % 16 * 16 + k / 4]) else None
    case (Some(i), Some(j), None, None) =>
      if c == '=' && d == '=' then Some([i * 4 + j / 16]) else None
    case _ => None
  }

  function FromBase64(s: string): (r: Option<seq<byte>>)
    ensures r.Some? ==> |r.value| <= |s|
    decreases |s|
  {
    if s == "" then Some([])
    else if |s| < 4 then None
    else
      match FromQuad(s[0], s[1], s[2], s[3])
      case None => None
      case Some(bytes) =>
        if |s| == 4 then Some(bytes)
        else if |bytes| < 3 then None
        else
          match FromBase64(s[4..])
          case None => None
          case Some(rest) => Some(bytes + rest)
  }

  lemma {:induction false} PaddingIsNoDigit()
    ensures DigitValue('=').None?
  {
  }

  lemma {:induction false} QuadDigits(x: byte, y: byte, z: byte)
    ensures var i, j, k, l := x / 4, x % 4 * 16 + y / 16, y % 16 * 4 + z / 64, z % 64;
            && i < 64 && j < 64 && k < 64 && l < 64
            && i * 4 + j / 16 == x && j % 16 * 16 + k / 4 == y && k % 4 * 64 + l == z
            && (y == 0 ==> j % 16 == 0 && i * 4 + j / 16 == x)
  {
    var j, k := x % 4 * 16 + y / 16, y % 16 * 4 + z / 64;
    assert j / 16 == x % 4 && j % 16 == y / 16 && k / 4 == y % 16 && k % 4 == z / 64;
  }

  lemma {:induction false} QuadReads(x: byte, y: byte, z: byte)
    ensures var q := Quad(x, y, z);
            && FromQuad(q[0], q[1], q[2], q[3]) == Some([x, y, z])
            && FromQuad(q[0], q[1], q[2], '=') == Some([x, y])
            && (y == 0 ==> FromQuad(q[0], q[1], '=', '=') == Some([x]))
  {
    hide Digit, DigitValue;
    QuadDigits(x, y, z);
    DigitReads(x / 4);
    DigitReads(x % 4 * 16 + y / 16);
    DigitReads(y % 16 * 4 + z / 64);
    DigitReads(z % 64);
    PaddingIsNoDigit();
  }

  lemma {:induction false} Base64RoundTrip(b: seq<byte>)
    ensures FromBase64(Base64(b)) == Some(b)
    decreases |b|
  {
    hide Quad, FromQuad, Digit, DigitValue;
    if b == [] {
    } else if |b| == 1 {
      QuadReads(b[0], 0, 0);
      assert b == [b[0]];
    } else if |b| == 2 {
      QuadReads(b[0], b[1], 0);
      assert b == [b[0], b[1]];
    } else {
      QuadReads(b[0], b[1], b[2]);
      Base64RoundTrip(b[3..]);
      var q, rest := Quad(b[0], b[1], b[2]), Base64(b[3..]);
      assert Base64(b) == q + rest && (q + rest)[4..] == rest;
      assert b == [b[0], b[1], b[2]] + b[3..];
      assert |b| == 3 ==> b == [b[0], b[1], b[2]];
    }
  }

  lemma {:induction false} Base64Alphabet(b: seq<byte>)
    ensures forall c <- Base64(b) :: IsBase64Char(c)
    decreases |b|
  {
    if |b| >= 3 {
      Base64Alphabet(b[3..]);
    }
  }

  /** Text carried as base64 of UTF-8 comes back. */
  lemma {:induction false} TextRoundTrip(s: string)
    ensures FromBase64(Base64(Utf8(s))) == Some(Utf8(s))
    ensures FromUtf8(FromBase64(Base64(Utf8(s))).value) == Some(s)
  {
    Base64RoundTrip(Utf8(s));
    Utf8RoundTrip(s);
  }
}

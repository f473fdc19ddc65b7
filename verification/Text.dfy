/**
 * Text is a sequence of Unicode scalar values. UTF-16 is as sections 2.1 and 2.2 of RFC 2781
 * write it, UTF-8 as section 3 of RFC 3629 does; a strict reading refuses what is not the
 * encoding, a lossy one puts U+FFFD in its place.
 */
module Text {
  import opened Bytes
  import opened Wrappers

  const REPLACEMENT: char := 0xFFFD as char

  /** What the front of an encoding holds: a character or none, and how much of it that took. */
  datatype Front = Front(symbol: Option<char>, used: nat)

  // ----- UTF-16 in code units

  predicate IsHigh(u: u16) {
    0xD800 <= u < 0xDC00
  }

  predicate IsLow(u: u16) {
    0xDC00 <= u < 0xE000
  }

  function CharUnits(c: char): (u: seq<u16>)
    ensures 1 <= |u| <= 2
  {
    var n := c as int;
    if n < 0x1_0000 then [n] else [0xD800 + (n - 0x1_0000) / 0x400, 0xDC00 + (n - 0x1_0000) % 0x400]
  }

  function Units(text: string): seq<u16> {
    if |text| == 0 then [] else CharUnits(text[0]) + Units(text[1..])
  }

  /** The number a surrogate pair stands for. */
  function Pair(high: int, low: int): int {
    0x1_0000 + (high - 0xD800) * 0x400 + (low - 0xDC00)
  }

  function UnitsFront(u: seq<u16>): (f: Front)
    requires |u| > 0
    ensures 1 <= f.used <= |u|
  {
    if !IsHigh(u[0]) && !IsLow(u[0]) then Front(Some(u[0] as char), 1)
    else if IsHigh(u[0]) && |u| > 1 && IsLow(u[1]) then
      Front(Some(Pair(u[0], u[1]) as char), 2)
    else Front(None, 1)
  }

  function OfUnits(u: seq<u16>): Option<string> {
    if |u| == 0 then Some("")
    else
      var f := UnitsFront(u);
      match (f.symbol, OfUnits(u[f.used..]))
      case (Some(c), Some(text)) => Some([c] + text)
      case _ => None
  }

  function OfUnitsLossy(u: seq<u16>): string {
    if |u| == 0 then ""
    else
      var f := UnitsFront(u);
      [match f.symbol case Some(c) => c case None => REPLACEMENT] + OfUnitsLossy(u[f.used..])
  }

  lemma CharUnitsFront(c: char, t: seq<u16>)
    ensures UnitsFront(CharUnits(c) + t) == Front(Some(c), |CharUnits(c)|)
  {
    var n := c as int;
    if n >= 0x1_0000 {
      var m := n - 0x1_0000;
      assert m / 0x400 < 0x400;
      assert 0x400 * (m / 0x400) + m % 0x400 == m;
    }
  }

  lemma {:induction false} UnitsBack(text: string)
    ensures OfUnits(Units(text)) == Some(text)
    ensures OfUnitsLossy(Units(text)) == text
  {
    hide CharUnits, UnitsFront;
    if |text| > 0 {
      var first := CharUnits(text[0]);
      CharUnitsFront(text[0], Units(text[1..]));
      assert Units(text)[|first|..] == Units(text[1..]);
      UnitsBack(text[1..]);
      assert text == [text[0]] + text[1..];
    }
  }

  lemma FrontUnits(u: seq<u16>)
    requires |u| > 0 && UnitsFront(u).symbol.Some?
    ensures CharUnits(UnitsFront(u).symbol.value) == u[..UnitsFront(u).used]
  {
    if IsHigh(u[0]) {
      var high: int, low: int := u[0] - 0xD800, u[1] - 0xDC00;
      var c := UnitsFront(u).symbol.value;
      assert c as int - 0x1_0000 == high * 0x400 + low;
    }
  }

  /** The strict reading accepts a text's own encoding and nothing else. */
  lemma {:induction false} OfUnitsExactly(u: seq<u16>, text: string)
    ensures OfUnits(u) == Some(text) <==> u == Units(text)
  {
    UnitsBack(text);
    if |u| > 0 && OfUnits(u) == Some(text) {
      var f := UnitsFront(u);
      FrontUnits(u);
      assert text[0] == f.symbol.value && OfUnits(u[f.used..]) == Some(text[1..]);
      OfUnitsExactly(u[f.used..], text[1..]);
      assert u == u[..f.used] + u[f.used..];
    }
  }

  lemma {:induction false} UnitsConcat(a: string, b: string)
    ensures Units(a + b) == Units(a) + Units(b)
  {
    hide CharUnits;
    if |a| == 0 {
      assert a + b == b;
    } else {
      UnitsConcat(a[1..], b);
      assert (a + b)[1..] == a[1..] + b;
      assert Units(a + b) == CharUnits(a[0]) + (Units(a[1..]) + Units(b));
    }
  }

  // ----- UTF-16 in bytes, little-endian

  /** Numbers of two bytes each, one behind the other. */
  function UnitBytes(u: seq<u16>): (s: bytes)
    ensures |s| == 2 * |u|
  {
    if |u| == 0 then [] else Le(u[0], 2) + UnitBytes(u[1..])
  }

  function BytesUnits(s: bytes): (u: seq<u16>)
    requires |s| % 2 == 0
    ensures 2 * |u| == |s|
  {
    PowValues();
    if |s| == 0 then [] else [OfLe(s[..2])] + BytesUnits(s[2..])
  }

  lemma {:induction false} UnitBytesBack(u: seq<u16>)
    ensures BytesUnits(UnitBytes(u)) == u
  {
    if |u| > 0 {
      var s := UnitBytes(u);
      PowValues();
      LeRoundTrip(u[0], 2);
      assert s[..2] == Le(u[0], 2) && s[2..] == UnitBytes(u[1..]);
      UnitBytesBack(u[1..]);
    }
  }

  lemma {:induction false} UnitBytesCut(u: seq<u16>, n: nat)
    requires n <= |u|
    ensures UnitBytes(u)[..2 * n] == UnitBytes(u[..n])
  {
    if n > 0 {
      UnitBytesCut(u[1..], n - 1);
      assert u[..n][1..] == u[1..][..n - 1];
      assert UnitBytes(u)[..2 * n] == Le(u[0], 2) + UnitBytes(u[1..])[..2 * (n - 1)];
    }
  }

  function Utf16(text: string): (s: bytes)
    ensures |s| == 2 * |Units(text)|
  {
    UnitBytes(Units(text))
  }

  function OfUtf16(s: bytes): Option<string> {
    if |s| % 2 == 0 then OfUnits(BytesUnits(s)) else None
  }

  function OfUtf16Lossy(s: bytes): string
    requires |s| % 2 == 0
  {
    OfUnitsLossy(BytesUnits(s))
  }

  lemma Utf16Back(text: string)
    ensures OfUtf16(Utf16(text)) == Some(text)
    ensures OfUtf16Lossy(Utf16(text)) == text
  {
    UnitsBack(text);
    UnitBytesBack(Units(text));
  }

  lemma {:induction false} BytesUnitsBack(s: bytes)
    requires |s| % 2 == 0
    ensures UnitBytes(BytesUnits(s)) == s
  {
    if |s| > 0 {
      PowValues();
      BytesUnitsBack(s[2..]);
      assert s[..2][1..][1..] == [];
      assert OfLe(s[..2][1..]) == s[1];
      var n: nat := OfLe(s[..2]);
      assert n % 256 == s[0] && n / 256 == s[1];
      assert Le(n, 2) == [s[0]] + Le(s[1], 1) == [s[0]] + ([s[1] % 256] + Le(s[1] / 256, 0));
      assert s == Le(n, 2) + s[2..];
    }
  }

  /** Strict reading of UTF-16 succeeds on the image of `Utf16` alone. */
  lemma OfUtf16Exactly(s: bytes, text: string)
    ensures OfUtf16(s) == Some(text) <==> s == Utf16(text)
  {
    Utf16Back(text);
    if |s| % 2 == 0 {
      BytesUnitsBack(s);
      OfUnitsExactly(BytesUnits(s), text);
    }
  }

  // ----- UTF-8

  /** A tail byte: the lowest six bits of `n`. */
  function Tail(n: nat): byte {
    0x80 + n % 0x40
  }

  function CharUtf8(c: char): (s: bytes)
    ensures 1 <= |s| <= 4
  {
    var n := c as int;
    var n1 := n / 0x40;
    var n2 := n1 / 0x40;
    var n3 := n2 / 0x40;
    if n < 0x80 then [n]
    else if n < 0x800 then [0xC0 + n1, Tail(n)]
    else if n < 0x1_0000 then [0xE0 + n2, Tail(n1), Tail(n)]
    else [0xF0 + n3, Tail(n2), Tail(n1), Tail(n)]
  }

  function Utf8(text: string): bytes {
    if |text| == 0 then [] else CharUtf8(text[0]) + Utf8(text[1..])
  }

  predicate IsContinuation(b: byte) {
    0x80 <= b < 0xC0
  }

  /** The second byte a three- or four-byte form may carry after `lead`. */
  predicate IsSecond(lead: byte, b: byte) {
    if lead == 0xE0 then 0xA0 <= b < 0xC0
    else if lead == 0xED then 0x80 <= b < 0xA0
    else if lead == 0xF0 then 0x90 <= b < 0xC0
    else if lead == 0xF4 then 0x80 <= b < 0x90
    else IsContinuation(b)
  }

  /** `high` with the six bits of a tail byte below it. */
  function Join(high: int, tail: int): int {
    high * 0x40 + (tail - 0x80)
  }

  function Utf8Front(s: bytes): (f: Front)
    requires |s| > 0
    ensures 1 <= f.used <= |s|
  {
    var lead := s[0];
    if lead < 0x80 then Front(Some(lead as char), 1)
    else if lead < 0xC2 || 0xF5 <= lead then Front(None, 1)
    else if lead < 0xE0 then
      if |s| < 2 || !IsContinuation(s[1]) then Front(None, 1)
      else Front(Some(Join(lead - 0xC0, s[1]) as char), 2)
    else if |s| < 2 || !IsSecond(lead, s[1]) then Front(None, 1)
    else if |s| < 3 || !IsContinuation(s[2]) then Front(None, 2)
    else if lead < 0xF0 then
      Front(Some(Join(Join(lead - 0xE0, s[1]), s[2]) as char), 3)
    else if |s| < 4 || !IsContinuation(s[3]) then Front(None, 3)
    else
      Front(Some(Join(Join(Join(lead - 0xF0, s[1]), s[2]), s[3]) as char), 4)
  }

  function OfUtf8(s: bytes): Option<string> {
    if |s| == 0 then Some("")
    else
      var f := Utf8Front(s);
      match (f.symbol, OfUtf8(s[f.used..]))
      case (Some(c), Some(text)) => Some([c] + text)
      case _ => None
  }

  function OfUtf8Lossy(s: bytes): string {
    if |s| == 0 then ""
    else
      var f := Utf8Front(s);
      [match f.symbol case Some(c) => c case None => REPLACEMENT] + OfUtf8Lossy(s[f.used..])
  }

  lemma JoinTail(n: nat)
    ensures Join(n / 0x40, Tail(n)) == n
  {
  }

  lemma CharUtf8Front(c: char, t: bytes)
    ensures Utf8Front(CharUtf8(c) + t) == Front(Some(c), |CharUtf8(c)|)
  {
    var n := c as int;
    var n1 := n / 0x40;
    var n2 := n1 / 0x40;
    JoinTail(n);
    JoinTail(n1);
    JoinTail(n2);
    var s := CharUtf8(c) + t;
    if n < 0x80 {
    } else if n < 0x800 {
      assert s[0] == 0xC0 + n1 && s[1] == Tail(n);
    } else if n < 0x1_0000 {
      assert s[0] == 0xE0 + n2 && s[1] == Tail(n1) && s[2] == Tail(n);
      assert IsSecond(s[0], s[1]);
    } else {
      assert s[0] == 0xF0 + n2 / 0x40 && s[1] == Tail(n2) && s[2] == Tail(n1) && s[3] == Tail(n);
      assert IsSecond(s[0], s[1]);
    }
  }

  lemma {:induction false} Utf8Back(text: string)
    ensures OfUtf8(Utf8(text)) == Some(text)
    ensures OfUtf8Lossy(Utf8(text)) == text
  {
    hide CharUtf8, Utf8Front;
    if |text| > 0 {
      var first := CharUtf8(text[0]);
      CharUtf8Front(text[0], Utf8(text[1..]));
      assert Utf8(text)[|first|..] == Utf8(text[1..]);
      Utf8Back(text[1..]);
      assert text == [text[0]] + text[1..];
    }
  }

  lemma TailOf(high: nat, b: byte)
    requires IsContinuation(b)
    ensures Join(high, b) / 0x40 == high && Tail(Join(high, b)) == b
  {
  }

  lemma FrontUtf8(s: bytes)
    requires |s| > 0 && Utf8Front(s).symbol.Some?
    ensures CharUtf8(Utf8Front(s).symbol.value) == s[..Utf8Front(s).used]
  {
    var lead := s[0];
    if 0xC2 <= lead < 0xE0 {
      TailOf(lead - 0xC0, s[1]);
    } else if 0xE0 <= lead < 0xF0 {
      TailOf(lead - 0xE0, s[1]);
      TailOf(Join(lead - 0xE0, s[1]), s[2]);
    } else if 0xF0 <= lead {
      TailOf(lead - 0xF0, s[1]);
      TailOf(Join(lead - 0xF0, s[1]), s[2]);
      TailOf(Join(Join(lead - 0xF0, s[1]), s[2]), s[3]);
    }
  }

  /** Strict reading of UTF-8 succeeds on the image of `Utf8` alone. */
  lemma {:induction false} OfUtf8Exactly(s: bytes, text: string)
    ensures OfUtf8(s) == Some(text) <==> s == Utf8(text)
  {
    Utf8Back(text);
    if |s| > 0 && OfUtf8(s) == Some(text) {
      var f := Utf8Front(s);
      FrontUtf8(s);
      assert text[0] == f.symbol.value && OfUtf8(s[f.used..]) == Some(text[1..]);
      OfUtf8Exactly(s[f.used..], text[1..]);
      assert s == s[..f.used] + s[f.used..];
    }
  }

  // ----- Decimal

  function DigitChar(n: nat): (c: char)
    requires n < 10
    ensures IsDigit(c) && DigitValue(c) == n
  {
    ('0' as int + n) as char
  }

  predicate IsDigit(c: char) {
    '0' <= c <= '9'
  }

  function DigitValue(c: char): nat
    requires IsDigit(c)
  {
    c as int - '0' as int
  }

  function Digits(n: nat): (s: string)
    ensures |s| > 0
    ensures forall i :: 0 <= i < |s| ==> IsDigit(s[i])
  {
    if n < 10 then [DigitChar(n)] else Digits(n / 10) + [DigitChar(n % 10)]
  }

  /** `v` in decimal, the way an integer prints. */
  function Decimal(v: int): string {
    if v < 0 then "-" + Digits(-v) else Digits(v)
  }

  /** The number a run of digits spells; a character that is not a digit, or no digit, spells none. */
  function OfDigits(s: string): Option<nat> {
    if |s| == 0 || !IsDigit(s[|s| - 1]) then None
    else
      var last := DigitValue(s[|s| - 1]);
      if |s| == 1 then Some(last)
      else match OfDigits(s[..|s| - 1])
        case Some(n) => Some(10 * n + last)
        case None => None
  }

  /** A signed integer of text: an optional sign and at least one digit. */
  function OfDecimal(s: string): Option<int> {
    if |s| > 0 && s[0] == '-' then
      match OfDigits(s[1..])
      case Some(n) => Some(0 - n)
      case None => None
    else OfUnsigned(s)
  }

  /** An unsigned integer of text: a plus or nothing, then at least one digit. */
  function OfUnsigned(s: string): Option<nat> {
    if |s| > 0 && s[0] == '+' then OfDigits(s[1..]) else OfDigits(s)
  }

  lemma {:induction false} DigitsBack(n: nat)
    ensures OfDigits(Digits(n)) == Some(n)
  {
    if n >= 10 {
      DigitsBack(n / 10);
      assert Digits(n)[..|Digits(n)| - 1] == Digits(n / 10);
    }
  }

  lemma DecimalBack(v: int)
    ensures OfDecimal(Decimal(v)) == Some(v)
  {
    if v < 0 {
      DigitsBack(-v);
      assert Decimal(v)[1..] == Digits(-v);
    } else {
      DigitsBack(v);
      assert IsDigit(Decimal(v)[0]);
    }
  }

  lemma UnsignedBack(n: nat)
    ensures OfUnsigned(Decimal(n)) == Some(n)
  {
    DigitsBack(n);
    assert IsDigit(Decimal(n)[0]);
  }

  // ----- White space

  /** The scalar values Unicode's White_Space property names. */
  predicate IsWhite(c: char) {
    var n := c as int;
    || 0x09 <= n <= 0x0D
    || n in {0x20, 0x85, 0xA0, 0x1680, 0x2028, 0x2029, 0x202F, 0x205F, 0x3000}
    || 0x2000 <= n <= 0x200A
  }

  function TrimStart(s: string): string {
    if |s| > 0 && IsWhite(s[0]) then TrimStart(s[1..]) else s
  }

  function TrimEnd(s: string): string {
    if |s| > 0 && IsWhite(s[|s| - 1]) then TrimEnd(s[..|s| - 1]) else s
  }

  function Trim(s: string): string {
    TrimEnd(TrimStart(s))
  }

  lemma DecimalTrimmed(v: int)
    ensures Trim(Decimal(v)) == Decimal(v)
  {
    var s := Decimal(v);
    assert !IsWhite(s[0]) && !IsWhite(s[|s| - 1]) by {
      assert IsDigit(s[|s| - 1]);
      assert IsDigit(s[0]) || s[0] == '-';
    }
  }
}

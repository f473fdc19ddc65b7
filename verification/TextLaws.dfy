/** What a cell's text spells, and what a lossy reading makes of what is not text. */
module TextLaws {
  import opened Bytes
  import opened Column
  import opened Dialect
  import opened Parsing
  import opened Text
  import opened Values
  import opened Wrappers

  // ----- Numbers

  /** A number's digits: the last is its rest by ten, and those ahead of it are the digits of its tenth. */
  lemma DigitsAre(n: nat)
    ensures var s := Digits(n);
            && s[|s| - 1] as int == 48 + n % 10
            && (n < 10 ==> |s| == 1) && (n >= 10 ==> s[..|s| - 1] == Digits(n / 10))
  {
  }

  /** A negative number prints as its digits behind a minus, any other as its digits. */
  lemma DecimalIs(v: int)
    ensures v >= 0 ==> Decimal(v) == Digits(v)
    ensures v < 0 ==> Decimal(v) == ['-'] + Digits(-v)
  {
  }

  ghost predicate AllZeros(s: string) {
    forall i :: 0 <= i < |s| ==> s[i] == '0'
  }

  ghost predicate AllWhite(s: string) {
    forall i :: 0 <= i < |s| ==> IsWhite(s[i])
  }

  /** `s` spells `n` with any number of zeros ahead of its digits. */
  ghost predicate Spells(s: string, n: nat) {
    exists zeros :: AllZeros(zeros) && s == zeros + Digits(n)
  }

  lemma {:induction false} ZerosAhead(zeros: string, n: nat)
    requires AllZeros(zeros)
    ensures OfDigits(zeros + Digits(n)) == Some(n)
  {
    if n < 10 {
      var s := zeros + Digits(n);
      assert s[..|s| - 1] == zeros && s[|s| - 1] == DigitChar(n);
      if |zeros| > 0 {
        ZerosAhead(zeros[..|zeros| - 1], 0);
        assert zeros == zeros[..|zeros| - 1] + Digits(0);
      }
    } else {
      ZerosAhead(zeros, n / 10);
      var s := zeros + Digits(n);
      assert s[..|s| - 1] == zeros + Digits(n / 10) && s[|s| - 1] == DigitChar(n % 10);
    }
  }

  /** One digit more. */
  lemma SpellsMore(front: string, n: nat, last: char)
    requires Spells(front, n) && IsDigit(last)
    ensures Spells(front + [last], 10 * n + DigitValue(last))
  {
    var zeros :| AllZeros(zeros) && front == zeros + Digits(n);
    var m := 10 * n + DigitValue(last);
    OneDigit(last);
    if n == 0 {
      hide Digits;
      OneDigit('0');
      assert front + [last] == (zeros + "0") + Digits(m);
    } else {
      LastDigit(n, last);
      hide Digits;
      assert front + [last] == zeros + Digits(m);
    }
  }

  lemma LastDigit(n: nat, last: char)
    requires n > 0 && IsDigit(last)
    ensures Digits(10 * n + DigitValue(last)) == Digits(n) + [last]
  {
    var m := 10 * n + DigitValue(last);
    assert m / 10 == n && m % 10 == DigitValue(last);
    OneDigit(last);
  }

  lemma {:induction false} SpellsBack(s: string)
    requires OfDigits(s).Some?
    ensures Spells(s, OfDigits(s).value)
  {
    var last := s[|s| - 1];
    if |s| == 1 {
      hide Spells;
      OneSpells(last);
      assert s == [last];
    } else {
      var front := s[..|s| - 1];
      assert s == front + [last];
      assert OfDigits(s) == Some(10 * OfDigits(front).value + DigitValue(last));
      hide OfDigits, Spells;
      SpellsBack(front);
      SpellsMore(front, OfDigits(front).value, last);
    }
  }

  lemma OneSpells(c: char)
    requires IsDigit(c)
    ensures Spells([c], DigitValue(c))
  {
    OneDigit(c);
    hide Digits;
    assert [c] == "" + Digits(DigitValue(c));
    assert AllZeros("");
  }

  lemma OneDigit(c: char)
    requires IsDigit(c)
    ensures DigitChar(DigitValue(c)) == c && Digits(DigitValue(c)) == [c]
  {
  }

  /** A run of characters is a number exactly where it spells one. */
  lemma DigitsExactly(s: string, n: nat)
    ensures OfDigits(s) == Some(n) <==> Spells(s, n)
  {
    if OfDigits(s).Some? {
      SpellsBack(s);
    }
    forall zeros | AllZeros(zeros) && s == zeros + Digits(n) ensures OfDigits(s) == Some(n) {
      ZerosAhead(zeros, n);
    }
  }

  /** The text is a number: digits with any zeros ahead, and ahead of those a sign or, for a plus, none. */
  ghost predicate IsNumber(s: string, v: int) {
    || (v >= 0 && Spells(s, v))
    || (|s| > 0 && s[0] == '+' && v >= 0 && Spells(s[1..], v))
    || (|s| > 0 && s[0] == '-' && v <= 0 && Spells(s[1..], -v))
  }

  lemma NoSign(s: string, n: nat)
    requires Spells(s, n)
    ensures |s| > 0 && IsDigit(s[0])
  {
    var zeros :| AllZeros(zeros) && s == zeros + Digits(n);
  }

  lemma NumberExactly(s: string, v: int)
    ensures OfDecimal(s) == Some(v) <==> IsNumber(s, v)
  {
    hide OfDigits, Spells;
    if |s| > 0 {
      if v <= 0 {
        DigitsExactly(s[1..], -v);
      }
      if v >= 0 {
        DigitsExactly(s[1..], v);
      }
    }
    if v >= 0 {
      DigitsExactly(s, v);
      if Spells(s, v) {
        NoSign(s, v);
      }
    }
    if OfDecimal(s) == Some(v) && |s| > 0 && s[0] == '-' {
      DigitsExactly(s[1..], OfDigits(s[1..]).value);
    }
  }

  // ----- White space

  /** `inner` is `s` less the white space around it. */
  ghost predicate IsTrimmed(s: string, inner: string) {
    && (exists lead, tail :: AllWhite(lead) && AllWhite(tail) && s == lead + inner + tail)
    && (inner == "" || (!IsWhite(inner[0]) && !IsWhite(inner[|inner| - 1])))
  }

  lemma {:induction false} StartTrimmed(s: string) returns (lead: string)
    ensures AllWhite(lead) && s == lead + TrimStart(s)
    ensures TrimStart(s) == "" || !IsWhite(TrimStart(s)[0])
  {
    if |s| > 0 && IsWhite(s[0]) {
      var more := StartTrimmed(s[1..]);
      lead := [s[0]] + more;
      assert s == [s[0]] + s[1..];
    } else {
      lead := "";
    }
  }

  lemma {:induction false} EndTrimmed(s: string) returns (tail: string)
    ensures AllWhite(tail) && s == TrimEnd(s) + tail
    ensures TrimEnd(s) == "" || !IsWhite(TrimEnd(s)[|TrimEnd(s)| - 1])
  {
    if |s| > 0 && IsWhite(s[|s| - 1]) {
      var more := EndTrimmed(s[..|s| - 1]);
      tail := more + [s[|s| - 1]];
      assert s == s[..|s| - 1] + [s[|s| - 1]];
    } else {
      tail := "";
    }
  }

  /** Trimming takes the white space off both ends and nothing else. */
  lemma TrimExactly(s: string)
    ensures IsTrimmed(s, Trim(s))
  {
    var lead := StartTrimmed(s);
    var tail := EndTrimmed(TrimStart(s));
    assert s == lead + Trim(s) + tail;
    if Trim(s) != "" {
      assert TrimStart(s)[0] == Trim(s)[0];
    }
  }

  /** The characters that count as white space: those Unicode says. */
  lemma WhiteIs(c: char)
    ensures IsWhite(c) <==>
            var n := c as int;
            || n == 32 || 9 <= n <= 13 || n == 133 || n == 160 || n == 5760 || 8192 <= n <= 8202
            || n == 8232 || n == 8233 || n == 8239 || n == 8287 || n == 12288
  {
  }

  /** A cell's text counts for the number it is, less the white space around it, within an i64; else for zero. */
  lemma IntegerExactly(text: string)
    ensures forall v :: IsNumber(Trim(text), v) && IsI64(v) ==> Integer(text) == v
    ensures (forall v :: !(IsNumber(Trim(text), v) && IsI64(v))) ==> Integer(text) == 0
  {
    hide IsNumber, Trim, OfDecimal;
    var s := Trim(text);
    forall v ensures OfDecimal(s) == Some(v) <==> IsNumber(s, v) {
      NumberExactly(s, v);
    }
  }

  /** A bit cell is set exactly by four texts, white space around them apart. */
  lemma TruthyExactly(text: string)
    ensures var s := Trim(text);
            Flag(Some(text)) == if s == "1" || s == "true" || s == "True" || s == "TRUE" then 1 else 0
    ensures Flag(None) == 0
  {
    hide Trim;
  }

  /** A binary cell is written as the bytes of its literal, or of its text where it is none. */
  lemma BinaryCell(d: Dialect, max: u16, text: string, t: bytes)
    requires |match d.bytesOf(text) case Some(b) => b case None => Utf8(text)| < 65535
    ensures var b := match d.bytesOf(text) case Some(b) => b case None => Utf8(text);
            Value(d, VarBinary(max), ValueBytes(d, VarBinary(max), Some(text)) + t) == Got(Some(d.quote(b)), t)
  {
    hide Utf8, Value, ValueBytes;
    ValueBack(d, VarBinary(max), Some(text), t);
  }

  // ----- What is not text

  lemma LossyAhead(u: seq<u16>)
    requires |u| > 0
    ensures var f := UnitsFront(u);
            OfUnitsLossy(u)
            == [if f.symbol.Some? then f.symbol.value else 0xFFFD as char] + OfUnitsLossy(u[f.used..])
  {
    hide UnitsFront;
  }

  /** A high surrogate with a low one behind it: the character the two stand for. */
  function Both(high: int, low: int): char
    requires 0xD800 <= high <= 0xDBFF && 0xDC00 <= low <= 0xDFFF
  {
    (0x1_0000 + (high - 0xD800) * 0x400 + (low - 0xDC00)) as char
  }

  predicate IsPair(u: seq<u16>) {
    |u| > 1 && 0xD800 <= u[0] <= 0xDBFF && 0xDC00 <= u[1] <= 0xDFFF
  }

  lemma UnitsFrontIs(u: seq<u16>)
    requires |u| > 0
    ensures !(0xD800 <= u[0] <= 0xDFFF) ==> UnitsFront(u) == Front(Some(u[0] as char), 1)
    ensures IsPair(u) ==> UnitsFront(u) == Front(Some(Both(u[0], u[1])), 2)
    ensures 0xD800 <= u[0] <= 0xDFFF && !IsPair(u) ==> UnitsFront(u) == Front(None, 1)
  {
  }

  /** A code unit that is no surrogate is a character; a high and a low one are; any other is U+FFFD. */
  lemma LossyUnits(u: seq<u16>)
    requires |u| > 0
    ensures !(0xD800 <= u[0] <= 0xDFFF) ==> OfUnitsLossy(u) == [u[0] as char] + OfUnitsLossy(u[1..])
    ensures IsPair(u) ==> OfUnitsLossy(u) == [Both(u[0], u[1])] + OfUnitsLossy(u[2..])
    ensures 0xD800 <= u[0] <= 0xDFFF && !IsPair(u) ==> OfUnitsLossy(u) == [0xFFFD as char] + OfUnitsLossy(u[1..])
  {
    hide OfUnitsLossy, UnitsFront;
    UnitsFrontIs(u);
    LossyAhead(u);
  }

  /** `used` bytes at the front are one U+FFFD, and reading goes on behind them. */
  lemma LossyFront(s: bytes, t: bytes)
    requires |s| > 0 && Utf8Front(s + t) == Front(None, |s|)
    ensures OfUtf8Lossy(s + t) == [0xFFFD as char] + OfUtf8Lossy(t)
  {
    hide Utf8Front;
    assert (s + t)[|s|..] == t;
  }

  /** A byte that can begin no character is one U+FFFD. */
  lemma NoLead(b: byte, t: bytes)
    requires 0x80 <= b < 0xC2 || 0xF5 <= b
    ensures OfUtf8Lossy([b] + t) == [0xFFFD as char] + OfUtf8Lossy(t)
  {
    LossyFront([b], t);
  }

  /** As much of a character as is there, where its rest is not, is one too. */
  lemma BrokenOff(t: bytes)
    requires t == [] || t[0] < 0x80
    ensures OfUtf8Lossy([0xC3] + t) == [0xFFFD as char] + OfUtf8Lossy(t)
    ensures OfUtf8Lossy([0xE2, 0x82] + t) == [0xFFFD as char] + OfUtf8Lossy(t)
    ensures OfUtf8Lossy([0xF0, 0x9F, 0x98] + t) == [0xFFFD as char] + OfUtf8Lossy(t)
  {
    hide OfUtf8Lossy;
    LossyFront([0xC3], t);
    LossyFront([0xE2, 0x82], t);
    LossyFront([0xF0, 0x9F, 0x98], t);
  }

  /** A second byte that would make a character overlong, a surrogate or too great does not belong to the first. */
  lemma BadSecond(t: bytes)
    ensures OfUtf8Lossy([0xE0] + ([0x9F] + t)) == [0xFFFD as char] + OfUtf8Lossy([0x9F] + t)
    ensures OfUtf8Lossy([0xED] + ([0xA0] + t)) == [0xFFFD as char] + OfUtf8Lossy([0xA0] + t)
    ensures OfUtf8Lossy([0xF0] + ([0x8F] + t)) == [0xFFFD as char] + OfUtf8Lossy([0x8F] + t)
    ensures OfUtf8Lossy([0xF4] + ([0x90] + t)) == [0xFFFD as char] + OfUtf8Lossy([0x90] + t)
  {
    hide OfUtf8Lossy;
    LossyFront([0xE0], [0x9F] + t);
    LossyFront([0xED], [0xA0] + t);
    LossyFront([0xF0], [0x8F] + t);
    LossyFront([0xF4], [0x90] + t);
  }
}

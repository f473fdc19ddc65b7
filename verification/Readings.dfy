/** What bytes read as, told from the bytes alone: every code, width and length as a number. */
module Readings {
  import opened Bits
  import opened Bytes
  import opened Column
  import opened Dialect
  import opened Parsing
  import opened Text
  import opened Token
  import opened Values
  import opened Wire
  import opened Wrappers

  // ----- Numbers off the front

  lemma NumbersRead(s: bytes, t: bytes)
    ensures |s| == 2 ==> U16Le(s + t) == Got(Two(s), t)
    ensures |s| == 4 ==> U32Le(s + t) == Got(Four(s), t)
    ensures |s| == 8 ==> U64Le(s + t) == Got(Eight(s), t)
  {
    hide OfLe;
    Halved(s, t);
    if |s| == 2 {
      TwoIs(s);
    } else if |s| == 4 {
      FourIs(s);
    } else if |s| == 8 {
      EightIs(s);
    }
  }

  /** `v` is the number four bytes mean, those above the half standing for negative ones. */
  function SignedFour(s: bytes): i32
    requires |s| == 4
  {
    if Four(s) >= 0x8000_0000 then Four(s) - 0x1_0000_0000 else Four(s)
  }

  lemma SignedRead(s: bytes, t: bytes)
    requires |s| == 4
    ensures I32Le(s + t) == Got(SignedFour(s), t)
  {
    hide OfLe;
    PowValues();
    Halved(s, t);
    FourIs(s);
  }

  /** A count of code units, then the code units. */
  function Counted8(s: bytes): bytes
    requires |s| <= 510 && |s| % 2 == 0
  {
    [|s| / 2] + s
  }

  lemma Counted8Read(s: bytes, t: bytes)
    requires |s| <= 510 && |s| % 2 == 0
    ensures BVarchar(Counted8(s) + t) == Got(OfUtf16Lossy(s), t)
  {
    hide OfUtf16Lossy;
    assert (Counted8(s) + t)[1..] == s + t;
    Halved(s, t);
  }

  lemma Counted16Read(count: bytes, s: bytes, t: bytes)
    requires |count| == 2 && |s| == 2 * Two(count)
    ensures UsVarchar(count + s + t) == Got(OfUtf16Lossy(s), t)
  {
    hide OfUtf16Lossy, U16Le;
    Assoc(count, s, t);
    NumbersRead(count, s + t);
    Halved(s, t);
  }

  // ----- Types

  /** The nine declarations a column may have. */
  lemma TypesRead(w: byte, length: bytes, skipped: bytes, t: bytes)
    requires |length| == 2 && |skipped| == 5
    ensures TypeInfo([0x26, w] + t) == Got(IntN(w), t)
    ensures TypeInfo([0x38] + t) == Got(Int, t) && TypeInfo([0x7F] + t) == Got(BigInt, t)
    ensures TypeInfo([0x32] + t) == Got(BitType, t) && TypeInfo([0x68, w] + t) == Got(BitN, t)
    ensures TypeInfo([0xE7] + length + skipped + t) == Got(NVarChar(Two(length)), t)
    ensures TypeInfo([0xA7] + length + skipped + t) == Got(VarChar(Two(length)), t)
    ensures TypeInfo([0xA5] + length + t) == Got(VarBinary(Two(length)), t)
  {
    hide U16Le;
    assert ([0x26, w] + t)[1..][1..] == t && ([0x68, w] + t)[1..][1..] == t;
    assert ([0x26, w] + t)[1..][0] == w;
    NumbersRead(length, skipped + t);
    NumbersRead(length, t);
    Regroup([0xE7], length, skipped, t);
    Regroup([0xA7], length, skipped, t);
    Assoc(length, skipped, t);
    Assoc([0xA5], length, t);
    Halved([0xE7], length + (skipped + t));
    Halved([0xA7], length + (skipped + t));
    Halved([0xA5], length + t);
    Halved(skipped, t);
  }

  /** Any other declaration is refused. */
  lemma OtherTypesRefused(s: bytes)
    requires |s| > 0 && s[0] !in {0x26, 0x38, 0x7F, 0x32, 0x68, 0xE7, 0xA7, 0xA5}
    ensures TypeInfo(s).Bad?
  {
  }

  // ----- Cells

  /** Bytes with or without text in them: none for null, else the text they are an encoding of, or nothing. */
  predicate Is16(carried: Option<bytes>, value: Option<string>) {
    match value
    case None => carried == None
    case Some(text) => carried == Some(Utf16(text))
  }

  predicate Is8(carried: Option<bytes>, value: Option<string>) {
    match value
    case None => carried == None
    case Some(text) => carried == Some(Utf8(text))
  }

  /** The bytes are some text's UTF-16, and some text's UTF-8. */
  ghost predicate IsText16(b: bytes) {
    exists text :: b == Utf16(text)
  }

  ghost predicate IsText8(b: bytes) {
    exists text :: b == Utf8(text)
  }

  lemma Text16Exactly(b: bytes)
    ensures OfUtf16(b).Some? <==> IsText16(b)
  {
    hide OfUtf16, Utf16;
    if OfUtf16(b).Some? {
      OfUtf16Exactly(b, OfUtf16(b).value);
    }
    forall text | b == Utf16(text) ensures OfUtf16(b).Some? {
      OfUtf16Exactly(b, text);
    }
  }

  lemma Text8Exactly(b: bytes)
    ensures OfUtf8(b).Some? <==> IsText8(b)
  {
    hide OfUtf8, Utf8;
    if OfUtf8(b).Some? {
      OfUtf8Exactly(b, OfUtf8(b).value);
    }
    forall text | b == Utf8(text) ensures OfUtf8(b).Some? {
      OfUtf8Exactly(b, text);
    }
  }

  /**
   * An NVARCHAR cell reads as a text exactly where the bytes it carries are that text's UTF-16, as
   * null exactly where it carries none, and is refused where they are no text's: never repaired.
   */
  lemma WideCellExactly(d: Dialect, max: u16, s: bytes, value: Option<string>, rest: bytes)
    ensures Value(d, NVarChar(max), s) == Got(value, rest)
       <==> exists carried :: Variable(max, s) == Got(carried, rest) && Is16(carried, value)
    ensures Value(d, NVarChar(max), s).Bad?
       <==> Variable(max, s).Bad? || (Variable(max, s).value.Some? && !IsText16(Variable(max, s).value.value))
  {
    hide Variable, OfUtf16, Utf16;
    if Variable(max, s).Got? && Variable(max, s).value.Some? {
      Text16Exactly(Variable(max, s).value.value);
      if value.Some? {
        OfUtf16Exactly(Variable(max, s).value.value, value.value);
      }
    }
  }

  /** A VARCHAR cell, the same of UTF-8. */
  lemma NarrowCellExactly(d: Dialect, max: u16, s: bytes, value: Option<string>, rest: bytes)
    ensures Value(d, VarChar(max), s) == Got(value, rest)
       <==> exists carried :: Variable(max, s) == Got(carried, rest) && Is8(carried, value)
    ensures Value(d, VarChar(max), s).Bad?
       <==> Variable(max, s).Bad? || (Variable(max, s).value.Some? && !IsText8(Variable(max, s).value.value))
  {
    hide Variable, OfUtf8, Utf8;
    if Variable(max, s).Got? && Variable(max, s).value.Some? {
      Text8Exactly(Variable(max, s).value.value);
      if value.Some? {
        OfUtf8Exactly(Variable(max, s).value.value, value.value);
      }
    }
  }

  /** A VARBINARY cell reads as the binary literal of the bytes it carries, whatever they are. */
  lemma BinaryCellExactly(d: Dialect, max: u16, s: bytes)
    ensures Variable(max, s).Bad? ==> Value(d, VarBinary(max), s).Bad?
    ensures Variable(max, s).Got? ==>
              Value(d, VarBinary(max), s)
              == Got(if Variable(max, s).value.None? then None else Some(d.quote(Variable(max, s).value.value)),
                     Variable(max, s).rest)
  {
    hide Variable;
  }

  /** A short value behind two bytes of length: 65535 is null, and anything else must be there whole. */
  lemma ShortRead(max: u16, length: bytes, s: bytes)
    requires max != 65535 && |length| == 2
    ensures Variable(max, length + s) ==
            if Two(length) == 65535 then Got(None, s)
            else if |s| < Two(length) then Bad
            else Got(Some(s[..Two(length)]), s[Two(length)..])
  {
    hide U16Le;
    NumbersRead(length, s);
  }

  /** The number `n` with its sign: itself, or less by what its bytes count where it is in the upper half. */
  ghost predicate IsSigned(v: int, n: nat, count: nat) {
    v == if 2 * n >= count then n - count else n
  }

  lemma SignedIs(b: bytes, count: nat)
    requires count == Pow256(|b|)
    ensures IsSigned(SignedLe(b), OfLe(b), count)
  {
  }

  /** An integer cell of any declared width: the width it says itself, then as many bytes. */
  lemma IntegerRead(d: Dialect, declared: byte, w: byte, b: bytes, t: bytes)
    requires |b| == w as int
    ensures w == 0 ==> Value(d, IntN(declared), [w] + b + t) == Got(None, t)
    ensures w !in {0, 1, 2, 4, 8} ==> Value(d, IntN(declared), [w] + b + t).Bad?
    ensures w in {1, 2, 4, 8} ==>
              exists v: int :: IsSigned(v, OfLe(b), Pow256(w))
                               && Value(d, IntN(declared), [w] + b + t) == Got(Some(Decimal(v)), t)
  {
    hide OfLe, Decimal, SignedLe;
    var s := [w] + b + t;
    assert s[1..] == b + t;
    Halved(b, t);
    SignedIs(b, Pow256(w));
  }

  /** The fixed-width cells: four bytes, eight bytes, one bit, and one that may be missing. */
  lemma FixedRead(d: Dialect, four: bytes, eight: bytes, b: byte, present: byte, t: bytes)
    requires |four| == 4 && |eight| == 8
    ensures Value(d, Int, four + t) == Got(Some(Decimal(SignedFour(four))), t)
    ensures exists v: int :: IsSigned(v, OfLe(eight), 0x1_0000_0000_0000_0000)
                             && Value(d, BigInt, eight + t) == Got(Some(Decimal(v)), t)
    ensures Value(d, BitType, [b] + t) == Got(Some(if b == 0 then "0" else "1"), t)
    ensures Value(d, BitN, [0] + t) == Got(None, t)
    ensures present != 0 ==> Value(d, BitN, [present, b] + t) == Got(Some(if b == 0 then "0" else "1"), t)
  {
    hide OfLe, Decimal, SignedLe;
    PowValues();
    SignedRead(four, t);
    Halved(eight, t);
    SignedIs(eight, 0x1_0000_0000_0000_0000);
    assert ([present, b] + t)[1..] == [b] + t && ([b] + t)[1..] == t;
  }

  // ----- Partially length-prefixed values

  /** What `b`, behind a total, is on the wire: chunks of it, none empty, then an empty one. */
  ghost predicate IsPlp(s: bytes, total: bytes, chunks: seq<bytes>, b: bytes, rest: bytes) {
    && |total| == 8 && AreChunks(chunks)
    && s == total + (ChunkBytes(chunks) + ([0, 0, 0, 0] + rest))
    && b == Concat(chunks)
  }

  lemma NoLength()
    ensures Le(0, 4) == [0, 0, 0, 0]
  {
    assert Le(0, 1) == [0] && Le(0, 2) == [0, 0] && Le(0, 3) == [0, 0, 0];
  }

  lemma LengthAhead(s: bytes)
    requires U32Le(s).Got?
    ensures s == Le(U32Le(s).value, 4) + U32Le(s).rest
  {
    hide OfLe, Le;
    LeOfLe(s[..4]);
  }

  lemma {:induction false} ChunksFound(s: bytes) returns (chunks: seq<bytes>)
    requires PlpChunks(s).Got?
    ensures AreChunks(chunks) && PlpChunks(s).value == Concat(chunks)
    ensures s == ChunkBytes(chunks) + ([0, 0, 0, 0] + PlpChunks(s).rest)
    decreases |s|
  {
    hide U32Le, Le;
    LengthAhead(s);
    U32Takes(s);
    NoLength();
    var length, s1 := U32Le(s).value, U32Le(s).rest;
    if length == 0 {
      chunks := [];
      assert ChunkBytes([]) + ([0, 0, 0, 0] + s1) == [0, 0, 0, 0] + s1;
    } else {
      var first, s2 := s1[..length], s1[length..];
      var more := ChunksFound(s2);
      var end := [0, 0, 0, 0] + PlpChunks(s2).rest;
      chunks := [first] + more;
      ChunksCons(first, more);
      hide PlpChunks, ChunkBytes, Concat;
      assert s1 == first + s2;
      Assoc(Le(length, 4), first, ChunkBytes(more) + end);
      Assoc(Le(length, 4) + first, ChunkBytes(more), end);
    }
  }

  lemma ChunksCons(first: bytes, more: seq<bytes>)
    requires 0 < |first| < 0x1_0000_0000 && AreChunks(more)
    ensures AreChunks([first] + more) && Concat([first] + more) == first + Concat(more)
    ensures ChunkBytes([first] + more) == Le(|first|, 4) + first + ChunkBytes(more)
  {
    assert ([first] + more)[1..] == more;
  }

  /** Bytes read as null exactly behind the total that says so, and as `b` exactly where chunks of it stand. */
  lemma PlpExactly(s: bytes, b: bytes, rest: bytes)
    ensures Plp(s) == Got(None, rest)
       <==> |s| >= 8 && Eight(s[..8]) == 0xFFFF_FFFF_FFFF_FFFF && rest == s[8..]
    ensures Plp(s) == Got(Some(b), rest)
       <==> exists total, chunks :: IsPlp(s, total, chunks, b, rest) && Eight(total) != 0xFFFF_FFFF_FFFF_FFFF
                                    && (Eight(total) == 0xFFFF_FFFF_FFFF_FFFE || Eight(total) == |b|)
  {
    hide U64Le, PlpChunks, Eight, Concat, ChunkBytes;
    if |s| >= 8 {
      NumbersRead(s[..8], s[8..]);
      assert s == s[..8] + s[8..];
    } else {
      ShortOfEight(s);
    }
    if Plp(s) == Got(Some(b), rest) {
      var chunks := ChunksFound(s[8..]);
      assert IsPlp(s, s[..8], chunks, b, rest);
    }
    forall total, chunks | IsPlp(s, total, chunks, b, rest) && Eight(total) != 0xFFFF_FFFF_FFFF_FFFF
                           && (Eight(total) == 0xFFFF_FFFF_FFFF_FFFE || Eight(total) == |b|)
      ensures Plp(s) == Got(Some(b), rest)
    {
      NoLength();
      var more := ChunkBytes(chunks) + ([0, 0, 0, 0] + rest);
      NumbersRead(total, more);
      PlpChunksBack(chunks, rest);
    }
  }

  lemma ShortOfEight(s: bytes)
    requires |s| < 8
    ensures U64Le(s).Bad?
  {
  }
}

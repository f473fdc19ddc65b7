/** What reading a written cell gives back, for every column type, and on which bytes it depends. */
module Values {
  import opened Bytes
  import opened Column
  import opened Dialect
  import opened Parsing
  import opened Text
  import opened Wrappers

  // ----- Types

  lemma SizedTypeBack(code: byte, max: u16, more: bytes, t: bytes)
    ensures ([code] + Le(max, 2) + more + t)[0] == code
    ensures U16Le(([code] + Le(max, 2) + more + t)[1..]) == Got(max, more + t)
  {
    U16LeBack(max, more + t);
    assert ([code] + Le(max, 2) + more + t)[1..] == Le(max, 2) + (more + t);
  }

  /** A type is read back as it was declared. */
  lemma TypeInfoBack(kind: ColumnType, t: bytes)
    ensures TypeInfo(TypeInfoBytes(kind) + t) == Got(kind, t)
  {
    hide Le, U16Le;
    match kind
    case NVarChar(max) => SizedTypeBack(NVARCHAR, max, [0, 0, 0, 0, 0], t);
    case VarChar(max) => SizedTypeBack(BIGVARCHAR, max, [0, 0, 0, 0, 0], t);
    case VarBinary(max) =>
      SizedTypeBack(BIGVARBINARY, max, [], t);
      assert TypeInfoBytes(kind) + t == [BIGVARBINARY] + Le(max, 2) + [] + t;
    case _ =>
  }

  // ----- Partially length-prefixed values

  /** Chunks a sender may cut a value into: none empty, each as long as its length field can say. */
  ghost predicate AreChunks(chunks: seq<bytes>) {
    forall i :: 0 <= i < |chunks| ==> 0 < |chunks[i]| < 0x1_0000_0000
  }

  lemma {:induction false} PlpChunksBack(chunks: seq<bytes>, t: bytes)
    requires AreChunks(chunks)
    ensures PlpChunks(ChunkBytes(chunks) + (Le(0, 4) + t)) == Got(Concat(chunks), t)
  {
    hide U32Le, Le;
    if |chunks| == 0 {
      U32LeBack(0, t);
      assert ChunkBytes(chunks) + (Le(0, 4) + t) == Le(0, 4) + t;
    } else {
      var c := chunks[0];
      var s2 := ChunkBytes(chunks[1..]) + (Le(0, 4) + t);
      U32LeBack(|c|, c + s2);
      assert ChunkBytes(chunks) + (Le(0, 4) + t) == Le(|c|, 4) + (c + s2);
      assert (c + s2)[..|c|] == c && (c + s2)[|c|..] == s2;
      PlpChunksBack(chunks[1..], t);
    }
  }

  /**
   * However a value is cut into chunks it reads as their concatenation where its total is
   * exact or unknown; the null marker reads as null, and any other total is refused.
   */
  lemma PlpAnyChunks(chunks: seq<bytes>, total: u64, t: bytes)
    requires AreChunks(chunks)
    ensures var body := ChunkBytes(chunks) + (Le(0, 4) + t);
            Plp(Le(total, 8) + body) ==
            if total == PLP_NULL then Got(None, body)
            else if total == PLP_UNKNOWN || total == |Concat(chunks)| then Got(Some(Concat(chunks)), t)
            else Bad
  {
    U64LeBack(total, ChunkBytes(chunks) + (Le(0, 4) + t));
    PlpChunksBack(chunks, t);
  }

  /** What was written partially length-prefixed is read back; empty stays apart from null. */
  lemma PlpBack(value: Option<bytes>, t: bytes)
    requires value.Some? ==> |value.value| < PLP_UNKNOWN
    ensures Plp(PlpBytes(value) + t) == Got(value, t)
  {
    hide Chunks, ChunkBytes, Concat, Le;
    match value
    case None => U64LeBack(PLP_NULL, t);
    case Some(b) =>
      var chunks := Chunks(b, U16_MAX);
      ChunksConcat(b, U16_MAX);
      PlpAnyChunks(chunks, |b|, t);
      assert PlpBytes(value) + t == Le(|b|, 8) + (ChunkBytes(chunks) + (Le(0, 4) + t));
  }

  lemma ShortBack(max: u16, value: Option<bytes>, t: bytes)
    requires max != MAX
    requires value.Some? ==> |value.value| < MAX
    ensures Variable(max, VarBytes(max, value) + t) == Got(value, t)
  {
    match value
    case None => U16LeBack(MAX, t);
    case Some(b) =>
      U16LeBack(|b|, b + t);
      assert VarBytes(max, value) + t == Le(|b|, 2) + (b + t);
      assert (b + t)[..|b|] == b && (b + t)[|b|..] == t;
  }

  // ----- Cells

  /** What a cell comes back as. */
  function Normal(d: Dialect, kind: ColumnType, value: Option<string>): Option<string> {
    match kind
    case IntN(width) =>
      if value.None? || width == 0 then None else Some(Decimal(Wrap(Integer(value.value), width)))
    case Int => Some(Decimal(Narrow(IntegerOr0(value))))
    case BigInt => Some(Decimal(IntegerOr0(value)))
    case BitType => Some(BitText(Flag(value)))
    case BitN => if value.None? then None else Some(BitText(Flag(value)))
    case NVarChar(_) => value
    case VarChar(_) => value
    case VarBinary(_) => if value.None? then None else Some(d.quote(BinaryOf(d, value.value)))
  }

  predicate IsVariable(kind: ColumnType) {
    kind.NVarChar? || kind.VarChar? || kind.VarBinary?
  }

  /** The cells the format can carry: an integer of a width there is, text its length field can count. */
  predicate Encodable(d: Dialect, kind: ColumnType, value: Option<string>) {
    && (kind.IntN? && value.Some? ==> kind.width == 0 || IsIntWidth(kind.width))
    && (IsVariable(kind) && value.Some? ==>
         |Carried(d, kind, value.value)| < if kind.max == MAX then PLP_UNKNOWN else MAX)
  }

  /** An integer narrower than an i64 is the low bytes of its two's complement. */
  lemma IntBytes(v: i64, width: nat)
    requires IsIntWidth(width)
    ensures Le(Twos(v, 8), 8)[..width] == Le(Twos(v, width), width)
    ensures SignedLe(Le(Twos(v, width), width)) == Wrap(v, width)
  {
    LePrefix(Twos(v, 8), 8, width);
    LeRoundTrip(Twos(v, width), width);
    TwosWithin(v, width);
    LeMod(Twos(v, 8), width);
    ModUnique(Twos(v, width), Pow256(width), 0, Twos(v, width));
  }

  /** A remainder of a remainder, where the wider modulus is a multiple of the narrower. */
  lemma ModMod(v: int, m: nat, p: nat, k: nat)
    requires p > 0 && k > 0 && m == p * k
    ensures m > 0 && (v % m) % p == v % p
  {
    MulAway(p, k);
    var r := v % m;
    assert v == (v / m) * m + r;
    assert r == (r / p) * p + r % p;
    assert v == ((v / m) * k + r / p) * p + r % p by {
      assert (v / m) * (p * k) == ((v / m) * k) * p;
    }
    ModUnique(v, p, (v / m) * k + r / p, r % p);
  }

  lemma TwosWithin(v: i64, width: nat)
    requires IsIntWidth(width)
    ensures Twos(v, 8) % Pow256(width) == Twos(v, width)
  {
    PowValues();
    var k: nat := if width == 1 then 0x100_0000_0000_0000 else if width == 2 then 0x1_0000_0000_0000
      else if width == 4 then 0x1_0000_0000 else 1;
    ModMod(v, Pow256(8), Pow256(width), k);
  }

  lemma {:induction false} LeMod(n: nat, w: nat)
    ensures Le(n % Pow256(w), w) == Le(n, w)
  {
    if w > 0 {
      var p := Pow256(w - 1);
      var high, low := (n / 256) % p, n % 256;
      ModOfDigits(n, p);
      assert (256 * high + low) / 256 == high && (256 * high + low) % 256 == low;
      LeMod(n / 256, w - 1);
    }
  }

  lemma IntCellBack(width: byte, text: string, t: bytes)
    requires IsIntWidth(width)
    ensures IntCell([width] + Le(Twos(Integer(text), 8), 8)[..Min(width, 8)] + t)
         == Got(Some(Decimal(Wrap(Integer(text), width))), t)
  {
    hide Le, Integer, Wrap, OfLe, Twos;
    IntBytes(Integer(text), width);
    var b := Le(Twos(Integer(text), width), width);
    var s := [width] + b + t;
    assert s[1..] == b + t;
    assert (b + t)[..width] == b && (b + t)[width..] == t;
  }

  lemma WholeIntBack(v: i64, t: bytes)
    ensures SignedLe((Le(Twos(v, 8), 8) + t)[..8]) == v
  {
    PowValues();
    IntBytes(v, 8);
    WrapInRange(v, 8);
    assert (Le(Twos(v, 8), 8) + t)[..8] == Le(Twos(v, 8), 8);
  }

  lemma VariableBack(d: Dialect, kind: ColumnType, value: Option<string>, t: bytes)
    requires IsVariable(kind) && Encodable(d, kind, value)
    ensures VariableCell(d, kind, kind.max, VarBytes(kind.max, Carry(d, kind, value)) + t)
         == Got(Normal(d, kind, value), t)
  {
    hide VarBytes, Variable, Utf16, OfUtf16, Utf8, OfUtf8;
    if kind.max == MAX {
      PlpVariable(Carry(d, kind, value), t);
    } else {
      ShortBack(kind.max, Carry(d, kind, value), t);
    }
    if value.Some? {
      Utf16Back(value.value);
      Utf8Back(value.value);
    }
  }

  lemma PlpVariable(value: Option<bytes>, t: bytes)
    requires value.Some? ==> |value.value| < PLP_UNKNOWN
    ensures Variable(MAX, VarBytes(MAX, value) + t) == Got(value, t)
  {
    PlpBack(value, t);
  }

  /** A written cell is read back as its normal form, off its own bytes, before whatever follows. */
  lemma ValueBack(d: Dialect, kind: ColumnType, value: Option<string>, t: bytes)
    requires Encodable(d, kind, value)
    ensures Value(d, kind, ValueBytes(d, kind, value) + t) == Got(Normal(d, kind, value), t)
  {
    match kind
    case IntN(width) =>
      if value.Some? && width != 0 {
        IntCellBack(width, value.value, t);
      } else {
        assert ValueBytes(d, kind, value) == [0];
      }
    case Int => I32LeBack(Narrow(IntegerOr0(value)), t);
    case BigInt =>
      WholeIntBack(IntegerOr0(value), t);
    case BitType =>
    case BitN =>
    case NVarChar(_) => VariableBack(d, kind, value, t);
    case VarChar(_) => VariableBack(d, kind, value, t);
    case VarBinary(_) => VariableBack(d, kind, value, t);
  }

  // ----- Canonical cells

  predicate IsI64(v: int) {
    -0x8000_0000_0000_0000 <= v < 0x8000_0000_0000_0000
  }

  predicate IsBitText(text: string) {
    text == "0" || text == "1"
  }

  /** The cells that already are what their column gives back. */
  ghost predicate Canonical(d: Dialect, kind: ColumnType, value: Option<string>) {
    match kind
    case IntN(width) => value.Some? ==> width > 0 && exists v: int :: InWidth(v, width) && value.value == Decimal(v)
    case Int => value.Some? && exists v: i32 :: value.value == Decimal(v)
    case BigInt => value.Some? && exists v: i64 :: value.value == Decimal(v)
    case BitType => value.Some? && IsBitText(value.value)
    case BitN => value.Some? ==> IsBitText(value.value)
    case NVarChar(_) => true
    case VarChar(_) => true
    case VarBinary(_) => value.Some? ==> exists b :: value.value == d.quote(b)
  }

  /** Where a binary column is among them, the binary literal is read back as its bytes. */
  ghost predicate Invertible(d: Dialect, columns: seq<Column>) {
    forall i :: 0 <= i < |columns| && columns[i].kind.VarBinary? ==> d.Inverse()
  }

  /** A decimal is read as the number it prints. */
  lemma IntegerOfDecimal(v: i64)
    ensures Integer(Decimal(v)) == v
  {
    DecimalTrimmed(v);
    DecimalBack(v);
  }

  lemma BitTexts(value: Option<string>)
    requires value.Some? && IsBitText(value.value)
    ensures value.value == BitText(Flag(value))
  {
    assert Trim("0") == "0" && Trim("1") == "1";
  }

  lemma WidthInI64(v: int, width: nat)
    requires IsIntWidth(width) && InWidth(v, width)
    ensures IsI64(v)
  {
    PowValues();
  }

  /** A cell keeps its text exactly when it is canonical; reading normalises in one step. */
  lemma NormalExactly(d: Dialect, kind: ColumnType, value: Option<string>)
    requires kind.VarBinary? ==> d.Inverse()
    requires kind.IntN? ==> kind.width == 0 || IsIntWidth(kind.width)
    ensures Normal(d, kind, value) == value <==> Canonical(d, kind, value)
    ensures Canonical(d, kind, Normal(d, kind, value))
  {
    match kind
    case IntN(width) =>
      if value.Some? && width > 0 {
        WrapInRange(Integer(value.value), width);
        forall v: int | InWidth(v, width) && value.value == Decimal(v) ensures Normal(d, kind, value) == value {
          WidthInI64(v, width);
          IntegerOfDecimal(v);
          WrapInRange(v, width);
        }
      }
    case Int =>
      forall v: i32 | value.Some? && value.value == Decimal(v) ensures Normal(d, kind, value) == value {
        IntegerOfDecimal(v);
      }
    case BigInt =>
      forall v: i64 | value.Some? && value.value == Decimal(v) ensures Normal(d, kind, value) == value {
        IntegerOfDecimal(v);
      }
    case BitType =>
      if value.Some? && IsBitText(value.value) {
        BitTexts(value);
      }
    case BitN =>
      if value.Some? && IsBitText(value.value) {
        BitTexts(value);
      }
    case VarBinary(_) =>
      forall b | value.Some? && value.value == d.quote(b) ensures Normal(d, kind, value) == value {
        assert d.bytesOf(d.quote(b)) == Some(b);
      }
    case _ =>
  }

  /** Normalising twice is normalising once. */
  lemma NormalIdempotent(d: Dialect, kind: ColumnType, value: Option<string>)
    requires kind.VarBinary? ==> d.Inverse()
    requires kind.IntN? ==> kind.width == 0 || IsIntWidth(kind.width)
    ensures Normal(d, kind, Normal(d, kind, value)) == Normal(d, kind, value)
  {
    NormalExactly(d, kind, value);
    NormalExactly(d, kind, Normal(d, kind, value));
  }

  /** The text is the decimal of a number a cell this wide holds. */
  ghost predicate IsDecimalOf(text: string, width: nat) {
    exists v: int :: InWidth(v, width) && text == Decimal(v)
  }

  /**
   * An integer cell of any text reads as the one number its width holds that differs from the
   * text's by a multiple of what the width counts; that is the text itself exactly when the
   * text is the decimal of such a number.
   */
  lemma IntegerCell(d: Dialect, width: byte, text: string, t: bytes)
    requires IsIntWidth(width)
    ensures var v := Wrap(Integer(text), width);
            && Value(d, IntN(width), ValueBytes(d, IntN(width), Some(text)) + t) == Got(Some(Decimal(v)), t)
            && InWidth(v, width)
            && (exists k: int :: v == Integer(text) + k * Pow256(width))
            && (Decimal(v) == text <==> IsDecimalOf(text, width))
  {
    hide Value, ValueBytes, Integer, Wrap, Decimal;
    ValueBack(d, IntN(width), Some(text), t);
    WrapInRange(Integer(text), width);
    NormalExactly(d, IntN(width), Some(text));
  }

  /** A four-byte cell that is never null reads as the text's number where its range has it, else as zero. */
  lemma IntCellNarrows(d: Dialect, text: string, t: bytes)
    ensures Value(d, Int, ValueBytes(d, Int, Some(text)) + t)
         == Got(Some(if InWidth(Integer(text), 4) then Decimal(Integer(text)) else "0"), t)
  {
    hide Decimal, Integer;
    PowValues();
    ValueBack(d, Int, Some(text), t);
    ZeroInDecimal();
  }

  lemma ZeroInDecimal()
    ensures Decimal(0) == "0"
  {
  }

  // ----- Exactly when a cell survives

  /** An integer of a width there is not is refused, whatever follows it. */
  lemma WidthRefused(d: Dialect, width: byte, text: string, t: bytes)
    requires width != 0 && !IsIntWidth(width)
    ensures Value(d, IntN(width), ValueBytes(d, IntN(width), Some(text)) + t).Bad?
  {
  }

  /** A short value one byte too long reads as null; a longer one reads as its first 65534 bytes. */
  lemma LongCut(max: u16, b: bytes, t: bytes)
    requires max != MAX && |b| >= MAX
    ensures Variable(max, VarBytes(max, Some(b)) + t)
         == if |b| == MAX then Got(None, b + t) else Got(Some(b[..MAX - 1]), t)
  {
    var length: u16 := if |b| == MAX then MAX else MAX - 1;
    U16LeBack(length, b[..length] + t);
    assert VarBytes(max, Some(b)) + t == Le(length, 2) + (b[..length] + t);
    assert b[..length] == b || |b| > MAX;
    assert (b[..length] + t)[..length] == b[..length] && (b[..length] + t)[length..] == t;
  }

  /** A text whose bytes were cut is not read back as that text. */
  lemma CutIsNot(d: Dialect, kind: ColumnType, text: string, t: bytes)
    requires IsVariable(kind) && kind.max != MAX
    requires kind.VarBinary? ==> d.Inverse()
    requires |Carried(d, kind, text)| >= MAX
    ensures VariableCell(d, kind, kind.max, VarBytes(kind.max, Some(Carried(d, kind, text))) + t)
         != Got(Normal(d, kind, Some(text)), t)
  {
    hide VarBytes, Variable, Utf16, OfUtf16, Utf8, OfUtf8;
    var b := Carried(d, kind, text);
    LongCut(kind.max, b, t);
    if |b| > MAX {
      var cut := b[..MAX - 1];
      OfUtf16Exactly(cut, text);
      OfUtf8Exactly(cut, text);
      if kind.VarBinary? {
        assert d.bytesOf(d.quote(cut)) == Some(cut) && d.bytesOf(d.quote(b)) == Some(b);
      }
    }
  }

  /** A cell comes back as its normal form, wherever it stands, exactly when the format can carry it. */
  lemma ValueBackExactly(d: Dialect, kind: ColumnType, value: Option<string>, t: bytes)
    requires kind.VarBinary? ==> d.Inverse()
    requires IsVariable(kind) && value.Some? ==> |Carried(d, kind, value.value)| < PLP_UNKNOWN
    ensures Value(d, kind, ValueBytes(d, kind, value) + t) == Got(Normal(d, kind, value), t)
       <==> Encodable(d, kind, value)
  {
    hide VarBytes, Variable, Utf16, OfUtf16, Utf8, OfUtf8;
    if Encodable(d, kind, value) {
      ValueBack(d, kind, value, t);
    } else if kind.IntN? {
      WidthRefused(d, kind.width, value.value, t);
    } else {
      CutIsNot(d, kind, value.value, t);
    }
  }

  // ----- Locality: a reading depends on the bytes it consumes alone

  /** A type with a size: its size is read off the two bytes behind its code. */
  lemma SizedTypeLocal(s: bytes, n: nat, t: bytes)
    requires 3 <= n <= |s|
    ensures (s[..n] + t)[0] == s[0]
    ensures U16Le((s[..n] + t)[1..]) == Got(U16Le(s[1..]).value, (s[..n] + t)[3..])
    ensures (s[..n] + t)[n..] == t
  {
    hide OfLe;
    assert (s[..n] + t)[1..][..2] == s[1..][..2];
    assert (s[..n] + t)[1..][2..] == (s[..n] + t)[3..];
  }

  lemma ShortTypeLocal(s: bytes, n: nat, t: bytes)
    requires 1 <= n <= 2 && n <= |s|
    ensures (s[..n] + t)[0] == s[0] && (s[..n] + t)[n..] == t
    ensures n == 2 ==> (s[..n] + t)[1] == s[1]
  {
  }

  lemma SkipAgain(u: bytes, n: nat)
    requires 3 <= n <= |u|
    ensures u[3..][n - 3..] == u[n..]
  {
  }

  lemma TypeInfoLocal(s: bytes) returns (used: bytes)
    requires TypeInfo(s).Got?
    ensures s == used + TypeInfo(s).rest && |used| > 0
    ensures forall t :: TypeInfo(used + t) == Got(TypeInfo(s).value, t)
  {
    hide U16Le;
    var code := s[0];
    var n := if code == NVARCHAR || code == BIGVARCHAR then 8 else if code == BIGVARBINARY then 3
             else if code == INTN || code == BITN then 2 else 1;
    SizedLength(s);
    used := s[..n];
    forall t ensures TypeInfo(used + t) == Got(TypeInfo(s).value, t) {
      if n >= 3 {
        SizedTypeLocal(s, n, t);
        SkipAgain(used + t, n);
      } else {
        ShortTypeLocal(s, n, t);
      }
    }
  }

  /** A sized type is there only where its bytes are. */
  lemma SizedLength(s: bytes)
    ensures U16Le(s).Got? <==> |s| >= 2
    ensures U16Le(s).Got? ==> U16Le(s).rest == s[2..]
    ensures |s| >= 1 ==> (U16Le(s[1..]).Got? <==> |s| >= 3)
    ensures |s| >= 3 ==> U16Le(s[1..]).rest == s[3..]
  {
    hide OfLe;
  }

  lemma LastChunkLocal(s: bytes)
    requires U32Le(s).Got? && U32Le(s).value == 0
    ensures forall t :: PlpChunks(s[..4] + t) == Got([], t)
  {
    hide OfLe;
    forall t ensures PlpChunks(s[..4] + t) == Got([], t) {
      assert (s[..4] + t)[..4] == s[..4];
    }
  }

  lemma ChunkJoin(head: bytes, chunk: bytes, tail: bytes, more: bytes, t: bytes)
    requires |head| == 4 && OfLe(head) == |chunk| > 0
    requires PlpChunks(tail + t) == Got(more, t)
    ensures PlpChunks(head + chunk + tail + t) == Got(chunk + more, t)
  {
    hide OfLe;
    Regroup(head, chunk, tail, t);
    Assoc(chunk, tail, t);
    Halved(head, chunk + (tail + t));
    Halved(chunk, tail + t);
  }

  lemma Halved(a: bytes, b: bytes)
    ensures (a + b)[..|a|] == a && (a + b)[|a|..] == b
  {
  }

  lemma Rejoined(s: bytes, n: nat)
    requires 4 + n <= |s|
    ensures s == s[..4] + (s[4..][..n] + s[4..][n..])
  {
    assert s[4..] == s[4..][..n] + s[4..][n..];
  }

  lemma {:induction false} PlpChunksLocal(s: bytes) returns (used: bytes)
    requires PlpChunks(s).Got?
    ensures s == used + PlpChunks(s).rest
    ensures forall t :: PlpChunks(used + t) == Got(PlpChunks(s).value, t)
    decreases |s|
  {
    hide OfLe;
    var length := U32Le(s).value;
    if length == 0 {
      used := s[..4];
      LastChunkLocal(s);
    } else {
      var head, chunk, s2 := s[..4], s[4..][..length], s[4..][length..];
      var more := PlpChunks(s2).value;
      assert PlpChunks(s) == Got(chunk + more, PlpChunks(s2).rest);
      hide PlpChunks;
      var tail := PlpChunksLocal(s2);
      used := head + chunk + tail;
      Rejoined(s, length);
      Assoc(head, chunk, s2);
      forall t ensures PlpChunks(used + t) == Got(chunk + more, t) {
        ChunkJoin(head, chunk, tail, more, t);
      }
    }
  }

  lemma PlpLocal(s: bytes) returns (used: bytes)
    requires Plp(s).Got?
    ensures s == used + Plp(s).rest
    ensures forall t :: Plp(used + t) == Got(Plp(s).value, t)
  {
    hide OfLe, PlpChunks;
    var tail: bytes := [];
    if U64Le(s).value != PLP_NULL {
      tail := PlpChunksLocal(s[8..]);
    }
    used := s[..8] + tail;
    forall t ensures Plp(used + t) == Got(Plp(s).value, t) {
      assert (used + t)[..8] == s[..8];
      assert (used + t)[8..] == tail + t;
    }
  }

  lemma ShortLocal(max: u16, s: bytes) returns (used: bytes)
    requires max != MAX && Variable(max, s).Got?
    ensures s == used + Variable(max, s).rest
    ensures forall t :: Variable(max, used + t) == Got(Variable(max, s).value, t)
  {
    hide OfLe, Plp;
    used := s[..|s| - |Variable(max, s).rest|];
    forall t ensures Variable(max, used + t) == Got(Variable(max, s).value, t) {
      var u := used + t;
      assert u[..2] == s[..2];
      var length := U16Le(s).value;
      if length != MAX {
        assert u[2..][..length] == s[2..][..length];
        assert u[2..][length..] == t;
      }
    }
  }

  lemma VariableLocal(max: u16, s: bytes) returns (used: bytes)
    requires Variable(max, s).Got?
    ensures s == used + Variable(max, s).rest
    ensures forall t :: Variable(max, used + t) == Got(Variable(max, s).value, t)
  {
    hide Plp, U16Le;
    if max == MAX {
      used := PlpLocal(s);
    } else {
      used := ShortLocal(max, s);
    }
  }

  /** The bytes `used` begins with are those of anything it begins. */
  lemma SameFront(s: bytes, n: nat, m: nat, t: bytes)
    requires m <= n <= |s|
    ensures (s[..n] + t)[..m] == s[..m]
    ensures (s[..n] + t)[m..] == s[m..n] + t
  {
  }

  lemma IntCellLocal(s: bytes) returns (used: bytes)
    requires IntCell(s).Got?
    ensures s == used + IntCell(s).rest
    ensures forall t :: IntCell(used + t) == Got(IntCell(s).value, t)
  {
    hide SignedLe, Decimal;
    var n := 1 + s[0];
    used := s[..n];
    forall t ensures IntCell(used + t) == Got(IntCell(s).value, t) {
      SameFront(s, n, 1, t);
      assert (used + t)[0] == s[0];
      assert (s[1..n] + t)[..s[0]] == s[1..][..s[0]];
      assert (s[1..n] + t)[s[0]..] == t;
    }
  }

  /** How many bytes a cell of a fixed-width type, or a bit, takes of `s`. */
  function FixedWidth(kind: ColumnType, s: bytes): nat
    requires !IsVariable(kind) && !kind.IntN?
  {
    match kind
    case Int => 4
    case BigInt => 8
    case BitN => if |s| > 0 && s[0] == 0 then 1 else 2
    case _ => 1
  }

  lemma FixedCellLocal(d: Dialect, kind: ColumnType, s: bytes, t: bytes)
    requires !IsVariable(kind) && !kind.IntN? && Value(d, kind, s).Got?
    ensures FixedWidth(kind, s) <= |s|
    ensures Value(d, kind, s).rest == s[FixedWidth(kind, s)..]
    ensures Value(d, kind, s[..FixedWidth(kind, s)] + t) == Got(Value(d, kind, s).value, t)
  {
    hide SignedLe, Decimal, OfLe, Signed, BitText;
    match kind
    case Int => SameFront(s, 4, 4, t);
    case BigInt => SameFront(s, 8, 8, t);
    case BitType => SameFront(s, 1, 1, t);
    case BitN =>
      if s[0] == 0 {
        SameFront(s, 1, 1, t);
      } else {
        assert (s[..2] + t)[0] == s[0] && (s[..2] + t)[1..] == [s[1]] + t;
      }
  }

  lemma FixedLocal(d: Dialect, kind: ColumnType, s: bytes) returns (used: bytes)
    requires !IsVariable(kind) && Value(d, kind, s).Got?
    ensures s == used + Value(d, kind, s).rest
    ensures forall t :: Value(d, kind, used + t) == Got(Value(d, kind, s).value, t)
  {
    if kind.IntN? {
      used := IntCellLocal(s);
    } else {
      FixedCellLocal(d, kind, s, []);
      hide Value;
      used := s[..FixedWidth(kind, s)];
      forall t ensures Value(d, kind, used + t) == Got(Value(d, kind, s).value, t) {
        FixedCellLocal(d, kind, s, t);
      }
    }
  }

  /** A cell is read off the bytes it consumes alone. */
  lemma ValueLocal(d: Dialect, kind: ColumnType, s: bytes) returns (used: bytes)
    requires Value(d, kind, s).Got?
    ensures s == used + Value(d, kind, s).rest
    ensures forall t :: Value(d, kind, used + t) == Got(Value(d, kind, s).value, t)
  {
    if IsVariable(kind) {
      used := VariableLocal(kind.max, s);
      forall t ensures Value(d, kind, used + t) == Got(Value(d, kind, s).value, t) {
        assert Variable(kind.max, used + t) == Got(Variable(kind.max, s).value, t);
      }
    } else {
      used := FixedLocal(d, kind, s);
    }
  }
}

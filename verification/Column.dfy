/** Column types and cells: what they are written as and how they are read (section 2.2.5 of [MS-TDS]). */
module Column {
  import opened Bytes
  import opened Cursors
  import opened Dialect
  import opened Parsing
  import opened Text
  import opened Wrappers

  const INTN: byte := 0x26
  const INT4: byte := 0x38
  const INT8: byte := 0x7F
  const BIT: byte := 0x32
  const BITN: byte := 0x68
  const NVARCHAR: byte := 0xE7
  const BIGVARCHAR: byte := 0xA7
  const BIGVARBINARY: byte := 0xA5
  /** As a declared length it stands for (MAX); as a value's length it stands for null. */
  const MAX: u16 := 0xFFFF
  const PLP_NULL: u64 := 0xFFFF_FFFF_FFFF_FFFF
  const PLP_UNKNOWN: u64 := 0xFFFF_FFFF_FFFF_FFFE

  datatype ColumnType =
    | IntN(width: byte)
    | Int
    | BigInt
    | BitType
    | BitN
    | NVarChar(max: u16)
    | VarChar(max: u16)
    | VarBinary(max: u16)

  datatype Column = Column(name: string, kind: ColumnType)

  /** A column whose every cell is its own normal form. */
  function TextColumn(name: string): Column {
    Column(name, NVarChar(MAX))
  }

  // ----- The type

  function TypeInfoBytes(kind: ColumnType): (s: bytes)
    ensures |s| >= 1
  {
    match kind
    case IntN(width) => [INTN, width]
    case Int => [INT4]
    case BigInt => [INT8]
    case BitType => [BIT]
    case BitN => [BITN, 1]
    case NVarChar(max) => [NVARCHAR] + Le(max, 2) + [0, 0, 0, 0, 0]
    case VarChar(max) => [BIGVARCHAR] + Le(max, 2) + [0, 0, 0, 0, 0]
    case VarBinary(max) => [BIGVARBINARY] + Le(max, 2)
  }

  function TypeInfo(s: bytes): (p: Parse<ColumnType>)
    ensures p.Got? ==> |p.rest| <= |s|
  {
    var (t, s1) :- Byte(s);
    if t == INTN then
      var (width, s2) :- Byte(s1);
      Got(IntN(width), s2)
    else if t == INT4 then Got(Int, s1)
    else if t == INT8 then Got(BigInt, s1)
    else if t == BIT then Got(BitType, s1)
    else if t == BITN then
      var (_, s2) :- Skip(1, s1);
      Got(BitN, s2)
    else if t == NVARCHAR || t == BIGVARCHAR then
      var (max, s2) :- U16Le(s1);
      var (_, s3) :- Skip(5, s2);
      Got(if t == NVARCHAR then NVarChar(max) else VarChar(max), s3)
    else if t == BIGVARBINARY then
      var (max, s2) :- U16Le(s1);
      Got(VarBinary(max), s2)
    else Bad
  }

  method WriteTypeInfo(writer: ByteWriter, kind: ColumnType)
    modifies writer
    ensures writer.out == old(writer.out) + TypeInfoBytes(kind)
  {
    hide Le;
    ghost var before := writer.out;
    match kind {
      case IntN(width) => writer.Append([INTN, width]);
      case Int => writer.Append([INT4]);
      case BigInt => writer.Append([INT8]);
      case BitType => writer.Append([BIT]);
      case BitN => writer.Append([BITN, 1]);
      case NVarChar(max) => {
        writer.Append([NVARCHAR]);
        writer.Append(Le(max, 2));
        writer.Append([0, 0, 0, 0, 0]);
        Regroup(before, [NVARCHAR], Le(max, 2), [0, 0, 0, 0, 0]);
      }
      case VarChar(max) => {
        writer.Append([BIGVARCHAR]);
        writer.Append(Le(max, 2));
        writer.Append([0, 0, 0, 0, 0]);
        Regroup(before, [BIGVARCHAR], Le(max, 2), [0, 0, 0, 0, 0]);
      }
      case VarBinary(max) => {
        writer.Append([BIGVARBINARY]);
        writer.Append(Le(max, 2));
        Assoc(before, [BIGVARBINARY], Le(max, 2));
      }
    }
  }

  method ReadTypeInfo(cursor: Cursor) returns (r: Result<ColumnType>)
    requires cursor.Valid()
    modifies cursor
    ensures cursor.Valid()
    ensures Follows(r, cursor.Rest(), TypeInfo(old(cursor.Rest())))
  {
    hide Cursor.Rest;
    var t :- cursor.Byte();
    if t == INTN {
      var width :- cursor.Byte();
      r := Ok(IntN(width));
    } else if t == INT4 {
      r := Ok(Int);
    } else if t == INT8 {
      r := Ok(BigInt);
    } else if t == BIT {
      r := Ok(BitType);
    } else if t == BITN {
      var _ :- cursor.Skip(1);
      r := Ok(BitN);
    } else if t == NVARCHAR {
      var max :- cursor.U16Le();
      var _ :- cursor.Skip(5);
      r := Ok(NVarChar(max));
    } else if t == BIGVARCHAR {
      var max :- cursor.U16Le();
      var _ :- cursor.Skip(5);
      r := Ok(VarChar(max));
    } else if t == BIGVARBINARY {
      var max :- cursor.U16Le();
      r := Ok(VarBinary(max));
    } else {
      r := Err;
    }
  }

  // ----- Cells as text

  /** The number a cell's text spells, as an i64; text that spells none is zero. */
  function Integer(text: string): (v: i64) {
    match OfDecimal(Trim(text))
    case Some(v) => if -0x8000_0000_0000_0000 <= v < 0x8000_0000_0000_0000 then v else 0
    case None => 0
  }

  predicate Truthy(text: Option<string>) {
    text.Some? && Trim(text.value) in {"1", "true", "True", "TRUE"}
  }

  function IntegerOr0(value: Option<string>): i64 {
    if value.Some? then Integer(value.value) else 0
  }

  /** An i64 as an i32, zero where it does not fit. */
  function Narrow(v: i64): i32 {
    if -0x8000_0000 <= v < 0x8000_0000 then v else 0
  }

  function Flag(value: Option<string>): byte {
    if Truthy(value) then 1 else 0
  }

  /** The bytes a VARBINARY cell's text stands for: a binary literal's, or the text's own. */
  function BinaryOf(d: Dialect, text: string): bytes {
    match d.bytesOf(text)
    case Some(b) => b
    case None => Utf8(text)
  }

  /** The bytes a cell of a variable-length type carries; the other types carry none. */
  function Carried(d: Dialect, kind: ColumnType, text: string): bytes {
    match kind
    case NVarChar(_) => Utf16(text)
    case VarChar(_) => Utf8(text)
    case VarBinary(_) => BinaryOf(d, text)
    case _ => []
  }

  // ----- Partially length-prefixed values (section 2.2.5.2.3 of [MS-TDS])

  function ChunkBytes(chunks: seq<bytes>): bytes {
    if |chunks| == 0 then [] else Le(Min(|chunks[0]|, 0xFFFF_FFFF), 4) + chunks[0] + ChunkBytes(chunks[1..])
  }

  function PlpBytes(value: Option<bytes>): bytes {
    match value
    case None => Le(PLP_NULL, 8)
    case Some(b) => Le(|b|, 8) + ChunkBytes(Chunks(b, U16_MAX)) + Le(0, 4)
  }

  /** Chunks up to the empty one, joined. */
  function PlpChunks(s: bytes): (p: Parse<bytes>)
    ensures p.Got? ==> |p.rest| <= |s|
    decreases |s|
  {
    var (length, s1) :- U32Le(s);
    if length == 0 then Got([], s1)
    else
      var (b, s2) :- Take(length, s1);
      var (more, s3) :- PlpChunks(s2);
      Got(b + more, s3)
  }

  function Plp(s: bytes): (p: Parse<Option<bytes>>)
    ensures p.Got? ==> |p.rest| <= |s|
  {
    var (total, s1) :- U64Le(s);
    if total == PLP_NULL then Got(None, s1)
    else
      var (b, s2) :- PlpChunks(s1);
      if total != PLP_UNKNOWN && total != |b| then Bad else Got(Some(b), s2)
  }

  lemma ChunkBytesStep(chunks: seq<bytes>, i: nat, before: bytes)
    requires i < |chunks|
    ensures before + Le(Min(|chunks[i]|, 0xFFFF_FFFF), 4) + chunks[i] + ChunkBytes(chunks[i + 1..])
         == before + ChunkBytes(chunks[i..])
  {
    assert chunks[i..][1..] == chunks[i + 1..];
    assert ChunkBytes(chunks[i..])
        == Le(Min(|chunks[i]|, 0xFFFF_FFFF), 4) + chunks[i] + ChunkBytes(chunks[i + 1..]);
  }

  lemma NoChunkBytes(chunks: seq<bytes>)
    requires |chunks| == 0
    ensures ChunkBytes(chunks) == []
  {
  }

  method WritePlp(writer: ByteWriter, value: Option<bytes>)
    modifies writer
    ensures writer.out == old(writer.out) + PlpBytes(value)
  {
    hide Le, Chunks, ChunkBytes;
    if value.None? {
      writer.Append(Le(PLP_NULL, 8));
      return;
    }
    writer.Append(Le(|value.value|, 8));
    var chunks := Chunks(value.value, U16_MAX);
    ghost var start := writer.out;
    for i := 0 to |chunks|
      invariant writer.out + ChunkBytes(chunks[i..]) == start + ChunkBytes(chunks)
    {
      ChunkBytesStep(chunks, i, writer.out);
      writer.Append(Le(Min(|chunks[i]|, 0xFFFF_FFFF), 4));
      writer.Append(chunks[i]);
    }
    NoChunkBytes(chunks[|chunks|..]);
    assert writer.out + [] == writer.out;
    assert chunks[0..] == chunks;
    writer.Append(Le(0, 4));
  }

  lemma ChunkAhead(out: bytes, s: bytes)
    ensures Prepend(out, PlpChunks(s)) ==
            match U32Le(s)
            case Bad => Bad
            case Got(length, s1) =>
              if length == 0 then Got(out, s1)
              else if length > |s1| then Bad
              else Prepend(out + s1[..length], PlpChunks(s1[length..]))
  {
    hide U32Le;
    if U32Le(s).Got? {
      var length, s1 := U32Le(s).value, U32Le(s).rest;
      if length == 0 {
        assert out + [] == out;
      } else if length <= |s1| && PlpChunks(s1[length..]).Got? {
        Assoc(out, s1[..length], PlpChunks(s1[length..]).value);
      }
    }
  }

  method ReadPlp(cursor: Cursor) returns (r: Result<Option<bytes>>)
    requires cursor.Valid()
    modifies cursor
    ensures cursor.Valid()
    ensures Follows(r, cursor.Rest(), Plp(old(cursor.Rest())))
  {
    hide PlpChunks, U32Le, U64Le, Cursor.Rest;
    var total :- cursor.U64Le();
    if total == PLP_NULL {
      return Ok(None);
    }
    ghost var start := cursor.Rest();
    var out: bytes := [];
    PrependNone(PlpChunks(start));
    while true
      invariant cursor.Valid()
      invariant PlpChunks(start) == Prepend(out, PlpChunks(cursor.Rest()))
      decreases |cursor.Rest()|
    {
      ChunkAhead(out, cursor.Rest());
      U32Takes(cursor.Rest());
      var chunk :- cursor.U32Le();
      if chunk == 0 {
        break;
      }
      var b :- cursor.Take(chunk);
      out := out + b;
    }
    if total != PLP_UNKNOWN && total != |out| {
      return Err;
    }
    r := Ok(Some(out));
  }

  lemma U32Takes(s: bytes)
    ensures U32Le(s).Got? ==> |U32Le(s).rest| < |s|
  {
  }

  // ----- Variable-length values

  function VarBytes(max: u16, value: Option<bytes>): bytes {
    if max == MAX then PlpBytes(value)
    else match value
      case None => Le(MAX, 2)
      case Some(b) =>
        var length := if |b| <= U16_MAX then |b| else U16_MAX - 1;
        Le(length, 2) + b[..length]
  }

  function Variable(max: u16, s: bytes): (p: Parse<Option<bytes>>)
    ensures p.Got? ==> |p.rest| <= |s|
  {
    if max == MAX then Plp(s)
    else
      var (length, s1) :- U16Le(s);
      if length == MAX then Got(None, s1)
      else
        var (b, s2) :- Take(length, s1);
        Got(Some(b), s2)
  }

  method WriteBytes(writer: ByteWriter, max: u16, value: Option<bytes>)
    modifies writer
    ensures writer.out == old(writer.out) + VarBytes(max, value)
  {
    if max == MAX {
      WritePlp(writer, value);
      return;
    }
    match value {
      case None => writer.Append(Le(MAX, 2));
      case Some(b) => {
        var length := if |b| <= U16_MAX then |b| else U16_MAX - 1;
        writer.Append(Le(length, 2));
        writer.Append(b[..length]);
      }
    }
  }

  method ReadBytes(cursor: Cursor, max: u16) returns (r: Result<Option<bytes>>)
    requires cursor.Valid()
    modifies cursor
    ensures cursor.Valid()
    ensures Follows(r, cursor.Rest(), Variable(max, old(cursor.Rest())))
  {
    hide Cursor.Rest;
    if max == MAX {
      r := ReadPlp(cursor);
      return;
    }
    var length :- cursor.U16Le();
    if length == MAX {
      return Ok(None);
    }
    var b :- cursor.Take(length);
    r := Ok(Some(b));
  }

  // ----- One cell

  function ValueBytes(d: Dialect, kind: ColumnType, value: Option<string>): bytes {
    match kind
    case IntN(width) =>
      (match value
       case None => [0]
       case Some(text) => [width] + Le(Twos(Integer(text), 8), 8)[..Min(width, 8)])
    case Int => Le(Twos(Narrow(IntegerOr0(value)), 4), 4)
    case BigInt => Le(Twos(IntegerOr0(value), 8), 8)
    case BitType => [Flag(value)]
    case BitN => if value.None? then [0] else [1, Flag(value)]
    case NVarChar(max) => VarBytes(max, Carry(d, kind, value))
    case VarChar(max) => VarBytes(max, Carry(d, kind, value))
    case VarBinary(max) => VarBytes(max, Carry(d, kind, value))
  }

  function Carry(d: Dialect, kind: ColumnType, value: Option<string>): Option<bytes> {
    match value
    case None => None
    case Some(text) => Some(Carried(d, kind, text))
  }

  predicate IsIntWidth(width: nat) {
    width == 1 || width == 2 || width == 4 || width == 8
  }

  /** The signed number little-endian bytes mean. */
  function SignedLe(b: bytes): int {
    Signed(OfLe(b), |b|)
  }

  function IntCell(s: bytes): (p: Parse<Option<string>>)
    ensures p.Got? ==> |p.rest| <= |s|
  {
    var (width, s1) :- Byte(s);
    var (b, s2) :- Take(width, s1);
    if width == 0 then Got(None, s2)
    else if IsIntWidth(width) then Got(Some(Decimal(SignedLe(b))), s2)
    else Bad
  }

  /** A cell from the bytes it carries, refused where they are not the type's encoding. */
  function TextCell(d: Dialect, kind: ColumnType, carried: Option<bytes>, rest: bytes): Parse<Option<string>> {
    match carried
    case None => Got(None, rest)
    case Some(b) =>
      match (match kind
             case NVarChar(_) => OfUtf16(b)
             case VarChar(_) => OfUtf8(b)
             case _ => Some(d.quote(b)))
      case None => Bad
      case Some(text) => Got(Some(text), rest)
  }

  function BitText(b: byte): string {
    if b != 0 then "1" else "0"
  }

  function Value(d: Dialect, kind: ColumnType, s: bytes): (p: Parse<Option<string>>)
    ensures p.Got? ==> |p.rest| <= |s|
  {
    match kind
    case IntN(_) => IntCell(s)
    case Int =>
      (var (v, s1) :- I32Le(s);
       Got(Some(Decimal(v)), s1))
    case BigInt =>
      (var (b, s1) :- Take(8, s);
       Got(Some(Decimal(SignedLe(b))), s1))
    case BitType =>
      (var (b, s1) :- Byte(s);
       Got(Some(BitText(b)), s1))
    case BitN =>
      (var (present, s1) :- Byte(s);
       if present == 0 then Got(None, s1)
       else
         var (b, s2) :- Byte(s1);
         Got(Some(BitText(b)), s2))
    case NVarChar(max) => VariableCell(d, kind, max, s)
    case VarChar(max) => VariableCell(d, kind, max, s)
    case VarBinary(max) => VariableCell(d, kind, max, s)
  }

  function VariableCell(d: Dialect, kind: ColumnType, max: u16, s: bytes): (p: Parse<Option<string>>)
    ensures p.Got? ==> |p.rest| <= |s|
  {
    var (carried, s1) :- Variable(max, s);
    TextCell(d, kind, carried, s1)
  }

  method WriteValue(d: Dialect, writer: ByteWriter, kind: ColumnType, value: Option<string>)
    modifies writer
    ensures writer.out == old(writer.out) + ValueBytes(d, kind, value)
  {
    hide VarBytes, Le, Twos, Integer, Utf8, Utf16;
    match kind {
      case IntN(width) => {
        match value {
          case None => writer.Append([0]);
          case Some(text) => {
            writer.Append([width]);
            writer.Append(Le(Twos(Integer(text), 8), 8)[..Min(width, 8)]);
          }
        }
      }
      case Int => writer.Append(Le(Twos(Narrow(IntegerOr0(value)), 4), 4));
      case BigInt => writer.Append(Le(Twos(IntegerOr0(value), 8), 8));
      case BitType => writer.Append([Flag(value)]);
      case BitN => {
        match value {
          case None => writer.Append([0]);
          case Some(_) => writer.Append([1, Flag(value)]);
        }
      }
      case NVarChar(max) => WriteBytes(writer, max, if value.None? then None else Some(Utf16(value.value)));
      case VarChar(max) => WriteBytes(writer, max, if value.None? then None else Some(Utf8(value.value)));
      case VarBinary(max) => WriteBytes(writer, max, if value.None? then None else Some(BinaryOf(d, value.value)));
    }
  }

  method ReadValue(d: Dialect, cursor: Cursor, kind: ColumnType) returns (r: Result<Option<string>>)
    requires cursor.Valid()
    modifies cursor
    ensures cursor.Valid()
    ensures Follows(r, cursor.Rest(), Value(d, kind, old(cursor.Rest())))
  {
    hide Cursor.Rest;
    match kind {
      case IntN(_) => {
        var width :- cursor.Byte();
        var b :- cursor.Take(width);
        if width == 0 {
          r := Ok(None);
        } else if IsIntWidth(width) {
          r := Ok(Some(Decimal(SignedLe(b))));
        } else {
          r := Err;
        }
      }
      case Int => {
        var v :- cursor.I32Le();
        r := Ok(Some(Decimal(v)));
      }
      case BigInt => {
        var b :- cursor.Take(8);
        r := Ok(Some(Decimal(SignedLe(b))));
      }
      case BitType => {
        var b :- cursor.Byte();
        r := Ok(Some(BitText(b)));
      }
      case BitN => {
        var present :- cursor.Byte();
        if present == 0 {
          r := Ok(None);
        } else {
          var b :- cursor.Byte();
          r := Ok(Some(BitText(b)));
        }
      }
      case NVarChar(max) => {
        var b :- ReadBytes(cursor, max);
        r := if b.None? then Ok(None) else Decoded(OfUtf16(b.value));
      }
      case VarChar(max) => {
        var b :- ReadBytes(cursor, max);
        r := if b.None? then Ok(None) else Decoded(OfUtf8(b.value));
      }
      case VarBinary(max) => {
        var b :- ReadBytes(cursor, max);
        r := if b.None? then Ok(None) else Ok(Some(d.quote(b.value)));
      }
    }
  }

  /** A strict decoding's text, or an error where there was none. */
  function Decoded(text: Option<string>): Result<Option<string>> {
    if text.None? then Err else Ok(text)
  }
}

/**
 * Tokens written and read (section 2.2.7 of [MS-TDS]). What a row's bytes mean depends on the
 * columns in force, so writer and reader carry them along.
 */
module Token {
  import opened Bytes
  import opened Column
  import opened Cursors
  import opened Dialect
  import opened Parsing
  import opened Text
  import opened Wire
  import opened Wrappers

  const ENVCHANGE: byte := 0xE3
  const ERROR: byte := 0xAA
  const INFO: byte := 0xAB
  const LOGINACK: byte := 0xAD
  const COLMETADATA: byte := 0x81
  const ROW: byte := 0xD1
  const NBCROW: byte := 0xD2
  const DONE: byte := 0xFD
  const DONEPROC: byte := 0xFE
  const DONEINPROC: byte := 0xFF
  const RETURNSTATUS: byte := 0x79
  const ORDER: byte := 0xA9
  const DONE_ERROR: u16 := 0x0002
  const DONE_COUNT: u16 := 0x0010
  const NO_COLUMNS: u16 := 0xFFFF
  const ENV_DATABASE: byte := 1
  const ENV_PACKET_SIZE: byte := 4

  type Cell = Option<string>

  /** The body of an INFO or an ERROR token. */
  datatype Note = Note(
    number: i32, state: byte, severity: byte, text: string, server: string, procedure: string, line: u32)

  /** A note from nowhere named. */
  function NewNote(number: i32, severity: byte, text: string): Note {
    Note(number, 1, severity, text, "", "", 1)
  }

  datatype Token =
    | EnvChange(kind: byte, current: string, previous: string)
    | Info(note: Note)
    | Error(note: Note)
    | LoginAck(version: u32, program: string)
    | ColMetadata(columns: seq<Column>)
    | Row(values: seq<Cell>)
    | Done(status: u16, rows: u64)
    | DoneProc(status: u16, rows: u64)
    | DoneInProc(status: u16, rows: u64)
    | ReturnStatus(code: i32)
    | Order(numbers: seq<u16>)

  // ----- Writing

  /** `body` behind its token and its length, which saturates at what a u16 can say. */
  function WithLength(token: byte, body: bytes): bytes {
    [token] + Le(Min(|body|, U16_MAX), 2) + body
  }

  function DoneBytes(token: byte, status: u16, rows: u64): bytes {
    [token] + Le(status, 2) + Le(0, 2) + Le(rows, 8)
  }

  function NoteBytes(note: Note): bytes {
    Le(Twos(note.number, 4), 4) + [note.state, note.severity] + UsVarcharBytes(note.text)
    + BVarcharBytes(note.server) + BVarcharBytes(note.procedure) + Le(note.line, 4)
  }

  function EnvBody(kind: byte, current: string, previous: string): bytes {
    [kind] + BVarcharBytes(current) + BVarcharBytes(previous)
  }

  function AckBody(version: u32, program: string): bytes {
    [1] + Be(version, 4) + BVarcharBytes(program) + [16, 0, 0, 0]
  }

  function ColumnBytes(column: Column): bytes {
    Le(0, 4) + Le(1, 2) + TypeInfoBytes(column.kind) + BVarcharBytes(column.name)
  }

  function ColumnsBytes(columns: seq<Column>): bytes {
    if |columns| == 0 then [] else ColumnBytes(columns[0]) + ColumnsBytes(columns[1..])
  }

  /** How many columns the count says there are. */
  function ColumnCount(columns: seq<Column>): u16 {
    if |columns| == 0 then NO_COLUMNS else if |columns| <= U16_MAX then |columns| else U16_MAX - 1
  }

  /** The cells of a row, as many as there are both columns and values. */
  function CellsBytes(d: Dialect, columns: seq<Column>, values: seq<Cell>): bytes {
    if |columns| == 0 || |values| == 0 then []
    else ValueBytes(d, columns[0].kind, values[0]) + CellsBytes(d, columns[1..], values[1..])
  }

  /** One token, a row by the columns in force. */
  function TokenBytes(d: Dialect, columns: seq<Column>, token: Token): bytes {
    match token
    case EnvChange(kind, current, previous) => WithLength(ENVCHANGE, EnvBody(kind, current, previous))
    case Info(note) => WithLength(INFO, NoteBytes(note))
    case Error(note) => WithLength(ERROR, NoteBytes(note))
    case LoginAck(version, program) => WithLength(LOGINACK, AckBody(version, program))
    case ColMetadata(declared) => [COLMETADATA] + Le(ColumnCount(declared), 2) + ColumnsBytes(declared)
    case Row(values) => [ROW] + CellsBytes(d, columns, values)
    case Done(status, rows) => DoneBytes(DONE, status, rows)
    case DoneProc(status, rows) => DoneBytes(DONEPROC, status, rows)
    case DoneInProc(status, rows) => DoneBytes(DONEINPROC, status, rows)
    case ReturnStatus(code) => [RETURNSTATUS] + Le(Twos(code, 4), 4)
    case Order(numbers) => WithLength(ORDER, UnitBytes(numbers))
  }

  /** The columns in force after a token. */
  function InForce(columns: seq<Column>, token: Token): seq<Column> {
    if token.ColMetadata? then token.columns else columns
  }

  /** The tokens written one behind the other, beginning with `columns` in force. */
  function TokensBytes(d: Dialect, columns: seq<Column>, tokens: seq<Token>): bytes
    decreases |tokens|
  {
    if |tokens| == 0 then []
    else TokenBytes(d, columns, tokens[0]) + TokensBytes(d, InForce(columns, tokens[0]), tokens[1..])
  }

  method PushWithLength(writer: ByteWriter, token: byte, body: bytes)
    modifies writer
    ensures writer.out == old(writer.out) + WithLength(token, body)
  {
    writer.Append([token]);
    writer.Append(Le(Min(|body|, U16_MAX), 2));
    writer.Append(body);
  }

  method PushDone(writer: ByteWriter, token: byte, status: u16, rows: u64)
    modifies writer
    ensures writer.out == old(writer.out) + DoneBytes(token, status, rows)
  {
    writer.Append([token]);
    writer.Append(Le(status, 2));
    writer.Append(Le(0, 2));
    writer.Append(Le(rows, 8));
  }

  lemma ColumnsBytesStep(columns: seq<Column>, i: nat, before: bytes)
    requires i < |columns|
    ensures before + Le(0, 4) + Le(1, 2) + TypeInfoBytes(columns[i].kind) + BVarcharBytes(columns[i].name)
            + ColumnsBytes(columns[i + 1..])
         == before + ColumnsBytes(columns[i..])
  {
    hide Le, TypeInfoBytes, BVarcharBytes;
    assert columns[i..][1..] == columns[i + 1..];
    assert ColumnsBytes(columns[i..]) == ColumnBytes(columns[i]) + ColumnsBytes(columns[i + 1..]);
  }

  method PushColumns(writer: ByteWriter, declared: seq<Column>)
    modifies writer
    ensures writer.out == old(writer.out) + ([COLMETADATA] + Le(ColumnCount(declared), 2) + ColumnsBytes(declared))
  {
    hide Le, TypeInfoBytes, BVarcharBytes;
    writer.Append([COLMETADATA]);
    writer.Append(Le(ColumnCount(declared), 2));
    ghost var start := writer.out;
    for i := 0 to |declared|
      invariant writer.out + ColumnsBytes(declared[i..]) == start + ColumnsBytes(declared)
    {
      ColumnsBytesStep(declared, i, writer.out);
      writer.Append(Le(0, 4));
      writer.Append(Le(1, 2));
      WriteTypeInfo(writer, declared[i].kind);
      writer.Append(BVarcharBytes(declared[i].name));
    }
    assert writer.out + ColumnsBytes([]) == writer.out;
  }

  lemma CellsBytesStep(d: Dialect, columns: seq<Column>, values: seq<Cell>, i: nat, before: bytes)
    requires i < |columns| && i < |values|
    ensures before + ValueBytes(d, columns[i].kind, values[i]) + CellsBytes(d, columns[i + 1..], values[i + 1..])
         == before + CellsBytes(d, columns[i..], values[i..])
  {
    assert columns[i..][1..] == columns[i + 1..] && values[i..][1..] == values[i + 1..];
  }

  method PushRow(d: Dialect, writer: ByteWriter, columns: seq<Column>, values: seq<Cell>)
    modifies writer
    ensures writer.out == old(writer.out) + ([ROW] + CellsBytes(d, columns, values))
  {
    hide ValueBytes;
    writer.Append([ROW]);
    ghost var start := writer.out;
    for i := 0 to Min(|columns|, |values|)
      invariant writer.out + CellsBytes(d, columns[i..], values[i..]) == start + CellsBytes(d, columns, values)
    {
      CellsBytesStep(d, columns, values, i, writer.out);
      WriteValue(d, writer, columns[i].kind, values[i]);
    }
    var n := Min(|columns|, |values|);
    assert writer.out + CellsBytes(d, columns[n..], values[n..]) == writer.out;
  }

  method PushToken(d: Dialect, writer: ByteWriter, columns: seq<Column>, token: Token)
    modifies writer
    ensures writer.out == old(writer.out) + TokenBytes(d, columns, token)
  {
    hide WithLength, DoneBytes, NoteBytes, EnvBody, AckBody, ColumnsBytes, CellsBytes, UnitBytes,
         Le, Twos;
    match token {
      case EnvChange(kind, current, previous) => PushWithLength(writer, ENVCHANGE, EnvBody(kind, current, previous));
      case Info(note) => PushWithLength(writer, INFO, NoteBytes(note));
      case Error(note) => PushWithLength(writer, ERROR, NoteBytes(note));
      case LoginAck(version, program) => PushWithLength(writer, LOGINACK, AckBody(version, program));
      case ColMetadata(declared) => PushColumns(writer, declared);
      case Row(values) => PushRow(d, writer, columns, values);
      case Done(status, rows) => PushDone(writer, DONE, status, rows);
      case DoneProc(status, rows) => PushDone(writer, DONEPROC, status, rows);
      case DoneInProc(status, rows) => PushDone(writer, DONEINPROC, status, rows);
      case ReturnStatus(code) => writer.Append([RETURNSTATUS] + Le(Twos(code, 4), 4));
      case Order(numbers) => PushWithLength(writer, ORDER, UnitBytes(numbers));
    }
  }

  /** Writes every token by the columns in force where it stands. */
  method EncodeTokens(d: Dialect, tokens: seq<Token>) returns (out: bytes)
    ensures out == TokensBytes(d, [], tokens)
  {
    hide TokenBytes;
    var writer := new ByteWriter();
    var columns: seq<Column> := [];
    for i := 0 to |tokens|
      invariant fresh(writer)
      invariant writer.out + TokensBytes(d, columns, tokens[i..]) == TokensBytes(d, [], tokens)
    {
      TokensBytesStep(d, columns, tokens, i, writer.out);
      PushToken(d, writer, columns, tokens[i]);
      if tokens[i].ColMetadata? {
        columns := tokens[i].columns;
      }
    }
    out := writer.out;
    assert out + TokensBytes(d, columns, []) == out;
  }

  lemma TokensBytesStep(d: Dialect, columns: seq<Column>, tokens: seq<Token>, i: nat, before: bytes)
    requires i < |tokens|
    ensures before + TokenBytes(d, columns, tokens[i]) + TokensBytes(d, InForce(columns, tokens[i]), tokens[i + 1..])
         == before + TokensBytes(d, columns, tokens[i..])
  {
    hide TokenBytes;
    assert tokens[i..][1..] == tokens[i + 1..];
  }

  // ----- Reading

  /** A token that was read: with it the columns it leaves in force. */
  datatype Reading = Reading(token: Token, columns: seq<Column>)

  /** As many bytes as the u16 in front of them says. */
  function Body(s: bytes): (p: Parse<bytes>)
    ensures p.Got? ==> |p.rest| <= |s|
  {
    var (length, s1) :- U16Le(s);
    Take(length, s1)
  }

  function NoteOf(s: bytes): Parse<Note> {
    var (number, s1) :- I32Le(s);
    var (state, s2) :- Byte(s1);
    var (severity, s3) :- Byte(s2);
    var (text, s4) :- UsVarchar(s3);
    var (server, s5) :- BVarchar(s4);
    var (procedure, s6) :- BVarchar(s5);
    var (line, s7) :- U32Le(s6);
    Got(Note(number, state, severity, text, server, procedure, line), s7)
  }

  predicate NamesValues(kind: byte) {
    1 <= kind <= 6
  }

  function EnvOf(s: bytes): Parse<Token> {
    var (kind, s1) :- Byte(s);
    if NamesValues(kind) then
      var (current, s2) :- BVarchar(s1);
      var (previous, s3) :- BVarchar(s2);
      Got(EnvChange(kind, current, previous), s3)
    else Got(EnvChange(kind, "", ""), s1)
  }

  function AckOf(s: bytes): Parse<Token> {
    var (_, s1) :- Skip(1, s);
    var (version, s2) :- U32Be(s1);
    var (program, s3) :- BVarchar(s2);
    Got(LoginAck(version, program), s3)
  }

  function NumbersOf(s: bytes): Parse<seq<u16>>
    decreases |s|
  {
    if |s| == 0 then Got([], s)
    else
      var (n, s1) :- U16Le(s);
      var (more, s2) :- NumbersOf(s1);
      Got([n] + more, s2)
  }

  function OneColumn(s: bytes): (p: Parse<Column>)
    ensures p.Got? ==> |p.rest| <= |s|
  {
    var (_, s1) :- Skip(6, s);
    var (kind, s2) :- TypeInfo(s1);
    var (name, s3) :- BVarchar(s2);
    Got(Column(name, kind), s3)
  }

  function SomeColumns(n: nat, s: bytes): (p: Parse<seq<Column>>)
    ensures p.Got? ==> |p.rest| <= |s| && |p.value| == n
  {
    if n == 0 then Got([], s)
    else
      var (column, s1) :- OneColumn(s);
      var (more, s2) :- SomeColumns(n - 1, s1);
      Got([column] + more, s2)
  }

  function Metadata(s: bytes): (p: Parse<seq<Column>>)
    ensures p.Got? ==> |p.rest| <= |s|
  {
    var (count, s1) :- U16Le(s);
    if count == NO_COLUMNS then Got([], s1) else SomeColumns(count, s1)
  }

  function Cells(d: Dialect, columns: seq<Column>, s: bytes): (p: Parse<seq<Cell>>)
    ensures p.Got? ==> |p.rest| <= |s|
  {
    if |columns| == 0 then Got([], s)
    else
      var (value, s1) :- Value(d, columns[0].kind, s);
      var (more, s2) :- Cells(d, columns[1..], s1);
      Got([value] + more, s2)
  }

  /** How many bytes a null bitmap over `n` columns takes. */
  function BitmapLength(n: nat): nat {
    (n + 7) / 8
  }

  /** Whether a null bitmap says the column at `index` is null. */
  predicate IsNull(bitmap: bytes, index: nat)
    requires index / 8 < |bitmap|
  {
    Bit(bitmap[index / 8], index % 8)
  }

  /** The cells of the columns from `index` on, those the bitmap names null absent. */
  function BitmapCells(d: Dialect, columns: seq<Column>, bitmap: bytes, index: nat, s: bytes): (p: Parse<seq<Cell>>)
    requires index <= |columns| && |bitmap| == BitmapLength(|columns|)
    ensures p.Got? ==> |p.rest| <= |s|
    decreases |columns| - index
  {
    if index == |columns| then Got([], s)
    else if IsNull(bitmap, index) then
      var (more, s1) :- BitmapCells(d, columns, bitmap, index + 1, s);
      Got([None] + more, s1)
    else
      var (value, s1) :- Value(d, columns[index].kind, s);
      var (more, s2) :- BitmapCells(d, columns, bitmap, index + 1, s1);
      Got([value] + more, s2)
  }

  function BitmapRow(d: Dialect, columns: seq<Column>, s: bytes): (p: Parse<seq<Cell>>)
    ensures p.Got? ==> |p.rest| <= |s|
  {
    var (bitmap, s1) :- Take(BitmapLength(|columns|), s);
    BitmapCells(d, columns, bitmap, 0, s1)
  }

  function DoneOf(token: byte, s: bytes): (p: Parse<Token>)
    ensures p.Got? ==> |p.rest| <= |s|
  {
    var (status, s1) :- U16Le(s);
    var (_, s2) :- Skip(2, s1);
    var (rows, s3) :- U64Le(s2);
    Got(if token == DONE then Done(status, rows) else if token == DONEPROC then DoneProc(status, rows)
        else DoneInProc(status, rows), s3)
  }

  /** The token of a length-carrying kind whose body is `body`. */
  function Inside(token: byte, body: bytes): Option<Token> {
    if token == ENVCHANGE then Whole(EnvOf(body))
    else if token == LOGINACK then Whole(AckOf(body))
    else if token == ORDER then
      match NumbersOf(body) case Bad => None case Got(numbers, _) => Some(Order(numbers))
    else
      match NoteOf(body) case Bad => None case Got(note, _) => Some(if token == INFO then Info(note) else Error(note))
  }

  function Whole(p: Parse<Token>): Option<Token> {
    match p case Bad => None case Got(token, _) => Some(token)
  }

  predicate CarriesLength(token: byte) {
    token == ENVCHANGE || token == INFO || token == ERROR || token == LOGINACK || token == ORDER
  }

  /** The token at the front of `s`, a row by the columns in force. */
  function NextToken(d: Dialect, columns: seq<Column>, s: bytes): (p: Parse<Reading>)
    ensures p.Got? ==> |p.rest| < |s|
  {
    var (token, s1) :- Byte(s);
    if CarriesLength(token) then
      var (body, s2) :- Body(s1);
      match Inside(token, body)
      case None => Bad
      case Some(read) => Got(Reading(read, columns), s2)
    else if token == COLMETADATA then
      var (declared, s2) :- Metadata(s1);
      Got(Reading(ColMetadata(declared), declared), s2)
    else if token == ROW then
      var (values, s2) :- Cells(d, columns, s1);
      Got(Reading(Row(values), columns), s2)
    else if token == NBCROW then
      var (values, s2) :- BitmapRow(d, columns, s1);
      Got(Reading(Row(values), columns), s2)
    else if token == DONE || token == DONEPROC || token == DONEINPROC then
      var (read, s2) :- DoneOf(token, s1);
      Got(Reading(read, columns), s2)
    else if token == RETURNSTATUS then
      var (code, s2) :- I32Le(s1);
      Got(Reading(ReturnStatus(code), columns), s2)
    else Bad
  }

  method ReadNote(body: bytes) returns (r: Result<Note>)
    ensures r == match NoteOf(body) case Bad => Err case Got(note, _) => Ok(note)
  {
    hide I32Le, UsVarchar, BVarchar, U32Le, Cursor.Rest;
    var cursor := new Cursor(body);
    var number :- cursor.I32Le();
    var state :- cursor.Byte();
    var severity :- cursor.Byte();
    var text :- ReadUsVarchar(cursor);
    var server :- ReadBVarchar(cursor);
    var procedure :- ReadBVarchar(cursor);
    var line :- cursor.U32Le();
    r := Ok(Note(number, state, severity, text, server, procedure, line));
  }

  /** What a length-carrying token's body gives, as a result. */
  function AsResult(token: Option<Token>): Result<Token> {
    match token case None => Err case Some(t) => Ok(t)
  }

  method ReadEnv(inner: Cursor) returns (r: Result<Token>)
    requires inner.Valid()
    modifies inner
    ensures r == AsResult(Whole(EnvOf(old(inner.Rest()))))
  {
    hide BVarchar, Cursor.Rest;
    var kind :- inner.Byte();
    if !NamesValues(kind) {
      return Ok(EnvChange(kind, "", ""));
    }
    var current :- ReadBVarchar(inner);
    var previous :- ReadBVarchar(inner);
    r := Ok(EnvChange(kind, current, previous));
  }

  method ReadAck(inner: Cursor) returns (r: Result<Token>)
    requires inner.Valid()
    modifies inner
    ensures r == AsResult(Whole(AckOf(old(inner.Rest()))))
  {
    hide BVarchar, U32Be, Cursor.Rest;
    var _ :- inner.Skip(1);
    var version :- inner.U32Be();
    var program :- ReadBVarchar(inner);
    r := Ok(LoginAck(version, program));
  }

  method ReadNumbers(inner: Cursor) returns (r: Result<seq<u16>>)
    requires inner.Valid()
    modifies inner
    ensures r == match NumbersOf(old(inner.Rest())) case Bad => Err case Got(numbers, _) => Ok(numbers)
  {
    hide U16Le, Cursor.Rest;
    ghost var start := inner.Rest();
    var numbers: seq<u16> := [];
    assert forall more: seq<u16> :: [] + more == more;
    while true
      invariant inner.Valid()
      invariant NumbersOf(start) == match NumbersOf(inner.Rest())
                                    case Bad => Bad
                                    case Got(more, rest) => Got(numbers + more, rest)
      decreases |inner.Rest()|
    {
      ghost var s := inner.Rest();
      ghost var before := numbers;
      var empty := inner.IsEmpty();
      if empty {
        assert numbers + [] == numbers;
        return Ok(numbers);
      }
      U16Shrinks(s);
      var n :- inner.U16Le();
      numbers := numbers + [n];
      assert forall more: seq<u16> :: before + ([n] + more) == numbers + more;
    }
  }

  lemma U16Shrinks(s: bytes)
    ensures U16Le(s).Got? ==> |U16Le(s).rest| < |s|
  {
  }

  lemma ColumnsEnd(declared: seq<Column>, s: bytes)
    ensures Prepend(declared, SomeColumns(0, s)) == Got(declared, s)
  {
    assert declared + [] == declared;
  }

  lemma OneColumnAhead(declared: seq<Column>, n: nat, s: bytes)
    requires n > 0
    ensures Prepend(declared, SomeColumns(n, s)) ==
            match OneColumn(s)
            case Bad => Bad
            case Got(column, rest) => Prepend(declared + [column], SomeColumns(n - 1, rest))
  {
    hide OneColumn;
    if OneColumn(s).Got? && SomeColumns(n - 1, OneColumn(s).rest).Got? {
      var column, more := OneColumn(s).value, SomeColumns(n - 1, OneColumn(s).rest).value;
      assert declared + ([column] + more) == declared + [column] + more;
    }
  }

  /** A reader whose state is where it is in the payload and which columns are in force. */
  class TokenStream {
    const d: Dialect
    const cursor: Cursor
    var columns: seq<Column>

    ghost predicate Valid()
      reads this, cursor
    {
      cursor.Valid()
    }

    /** The bytes still to be read. */
    ghost function Rest(): bytes
      requires Valid()
      reads this, cursor
    {
      cursor.Rest()
    }

    constructor (d: Dialect, body: bytes)
      ensures Valid() && fresh(cursor)
      ensures this.d == d && Rest() == body && columns == []
    {
      this.d := d;
      cursor := new Cursor(body);
      columns := [];
    }

    /** As many bytes as the u16 in front of them says. */
    method TakeBody() returns (r: Result<bytes>)
      requires Valid()
      modifies cursor
      ensures Valid()
      ensures Follows(r, Rest(), Body(old(Rest())))
    {
      hide Cursor.Rest;
      var length :- cursor.U16Le();
      r := cursor.Take(length);
    }

    method ReadMetadata() returns (r: Result<seq<Column>>)
      requires Valid()
      modifies cursor
      ensures Valid()
      ensures Follows(r, Rest(), Metadata(old(Rest())))
    {
      hide TypeInfo, BVarchar, U16Le, SomeColumns, Cursor.Rest;
      var count :- cursor.U16Le();
      var declared: seq<Column> := [];
      if count == NO_COLUMNS {
        return Ok(declared);
      }
      ghost var all := SomeColumns(count, Rest());
      PrependNone(SomeColumns(count, Rest()));
      for i := 0 to count
        invariant Valid()
        invariant all == Prepend(declared, SomeColumns(count - i, Rest()))
      {
        OneColumnAhead(declared, count - i, Rest());
        var _ :- cursor.Skip(6);
        var kind :- ReadTypeInfo(cursor);
        var name :- ReadBVarchar(cursor);
        declared := declared + [Column(name, kind)];
      }
      ColumnsEnd(declared, Rest());
      r := Ok(declared);
    }

    method ReadRow() returns (r: Result<seq<Cell>>)
      requires Valid()
      modifies cursor
      ensures Valid()
      ensures Follows(r, Rest(), Cells(d, columns, old(Rest())))
    {
      hide Value, Cursor.Rest;
      ghost var start := Rest();
      var values: seq<Cell> := [];
      assert forall more: seq<Cell> :: [] + more == more;
      for i := 0 to |columns|
        invariant Valid()
        invariant Cells(d, columns, start) == match Cells(d, columns[i..], Rest())
                                              case Bad => Bad
                                              case Got(more, rest) => Got(values + more, rest)
      {
        ghost var before := values;
        assert columns[i..][1..] == columns[i + 1..];
        var value :- ReadValue(d, cursor, columns[i].kind);
        values := values + [value];
        assert forall more: seq<Cell> :: before + ([value] + more) == values + more;
      }
      assert values + [] == values;
      r := Ok(values);
    }

    method ReadBitmapRow() returns (r: Result<seq<Cell>>)
      requires Valid()
      modifies cursor
      ensures Valid()
      ensures Follows(r, Rest(), BitmapRow(d, columns, old(Rest())))
    {
      hide Value, IsNull, Cursor.Rest;
      var bitmap :- cursor.Take(BitmapLength(|columns|));
      ghost var start := Rest();
      var values: seq<Cell> := [];
      assert forall more: seq<Cell> :: [] + more == more;
      for i := 0 to |columns|
        invariant Valid()
        invariant BitmapCells(d, columns, bitmap, 0, start) == match BitmapCells(d, columns, bitmap, i, Rest())
                                                               case Bad => Bad
                                                               case Got(more, rest) => Got(values + more, rest)
      {
        ghost var before := values;
        var value: Cell := None;
        if !IsNull(bitmap, i) {
          value :- ReadValue(d, cursor, columns[i].kind);
        }
        values := values + [value];
        assert forall more: seq<Cell> :: before + ([value] + more) == values + more;
      }
      assert values + [] == values;
      r := Ok(values);
    }

    method ReadDone(token: byte) returns (r: Result<Token>)
      requires Valid()
      modifies cursor
      ensures Valid()
      ensures Follows(r, Rest(), DoneOf(token, old(Rest())))
    {
      hide U16Le, U64Le, Cursor.Rest;
      var status :- cursor.U16Le();
      var _ :- cursor.Skip(2);
      var rows :- cursor.U64Le();
      r := Ok(if token == DONE then Done(status, rows) else if token == DONEPROC then DoneProc(status, rows)
              else DoneInProc(status, rows));
    }

    method ReadInside(token: byte) returns (r: Result<Token>)
      requires Valid() && CarriesLength(token)
      modifies cursor
      ensures Valid()
      ensures match Body(old(Rest()))
              case Bad => r.Err?
              case Got(body, rest) => r == AsResult(Inside(token, body)) && Rest() == rest
    {
      hide Body, EnvOf, AckOf, NoteOf, NumbersOf, Cursor.Rest;
      var body :- TakeBody();
      var inner := new Cursor(body);
      if token == ENVCHANGE {
        r := ReadEnv(inner);
      } else if token == LOGINACK {
        r := ReadAck(inner);
      } else if token == ORDER {
        var numbers :- ReadNumbers(inner);
        r := Ok(Order(numbers));
      } else {
        var note :- ReadNote(body);
        r := Ok(if token == INFO then Info(note) else Error(note));
      }
    }

    /** What `NextToken` reads of the rest, the columns kept in step; none where nothing is left. */
    method Next() returns (r: Result<Option<Token>>)
      requires Valid()
      modifies this, cursor
      ensures Valid()
      ensures old(Rest()) == [] ==> r == Ok(None) && Rest() == [] && columns == old(columns)
      ensures old(Rest()) != [] ==>
                match NextToken(d, old(columns), old(Rest()))
                case Bad => r.Err? && columns == old(columns)
                case Got(reading, rest) =>
                  r == Ok(Some(reading.token)) && columns == reading.columns && Rest() == rest
    {
      hide Inside, Body, Metadata, Cells, BitmapRow, DoneOf, I32Le, Cursor.Rest;
      var empty := cursor.IsEmpty();
      if empty {
        return Ok(None);
      }
      var first := cursor.Byte();
      var token := first.value;
      if CarriesLength(token) {
        var read :- ReadInside(token);
        r := Ok(Some(read));
      } else if token == COLMETADATA {
        var declared :- ReadMetadata();
        columns := declared;
        r := Ok(Some(ColMetadata(declared)));
      } else if token == ROW {
        var values :- ReadRow();
        r := Ok(Some(Row(values)));
      } else if token == NBCROW {
        var values :- ReadBitmapRow();
        r := Ok(Some(Row(values)));
      } else if token == DONE || token == DONEPROC || token == DONEINPROC {
        var read :- ReadDone(token);
        r := Ok(Some(read));
      } else if token == RETURNSTATUS {
        var code :- cursor.I32Le();
        r := Ok(Some(ReturnStatus(code)));
      } else {
        r := Err;
      }
    }
  }
}

/** What a token stream means: what was written is read, and a cut stream is a prefix of the whole. */
module Streams {
  import opened Bytes
  import opened Column
  import opened Dialect
  import opened Parsing
  import opened Text
  import opened Token
  import opened Values
  import opened Wire
  import opened Wrappers

  // ----- What comes back

  /** A column as it is read: its name cut at what the count can say. */
  function NormalColumn(column: Column): Column {
    Column(Cut(column.name, 0xFF), column.kind)
  }

  function NormalColumns(columns: seq<Column>): (r: seq<Column>)
    ensures |r| == |columns|
    ensures forall i :: 0 <= i < |r| ==> r[i] == NormalColumn(columns[i])
  {
    if |columns| == 0 then [] else [NormalColumn(columns[0])] + NormalColumns(columns[1..])
  }

  function NormalCells(d: Dialect, columns: seq<Column>, values: seq<Cell>): (r: seq<Cell>)
    requires |columns| <= |values|
    ensures |r| == |columns|
    ensures forall i :: 0 <= i < |r| ==> r[i] == Normal(d, columns[i].kind, values[i])
  {
    if |columns| == 0 then [] else [Normal(d, columns[0].kind, values[0])] + NormalCells(d, columns[1..], values[1..])
  }

  function NormalNote(note: Note): Note {
    note.(text := Cut(note.text, U16_MAX), server := Cut(note.server, 0xFF), procedure := Cut(note.procedure, 0xFF))
  }

  /** A token as it is read, a row by the columns it was written with. */
  function NormalToken(d: Dialect, columns: seq<Column>, token: Token): Token
    requires Encodes(d, columns, token)
  {
    match token
    case EnvChange(kind, current, previous) =>
      if NamesValues(kind) then EnvChange(kind, Cut(current, 0xFF), Cut(previous, 0xFF)) else EnvChange(kind, "", "")
    case Info(note) => Info(NormalNote(note))
    case Error(note) => Error(NormalNote(note))
    case LoginAck(version, program) => LoginAck(version, Cut(program, 0xFF))
    case ColMetadata(declared) => ColMetadata(NormalColumns(declared))
    case Row(values) => Row(NormalCells(d, columns, values))
    case _ => token
  }

  ghost predicate CellsEncode(d: Dialect, columns: seq<Column>, values: seq<Cell>) {
    && |columns| <= |values|
    && forall i :: 0 <= i < |columns| ==> Encodable(d, columns[i].kind, values[i])
  }

  /** The tokens the format can carry: bodies and counts their length fields can say. */
  ghost predicate Encodes(d: Dialect, columns: seq<Column>, token: Token) {
    match token
    case Info(note) => |NoteBytes(note)| <= U16_MAX
    case Error(note) => |NoteBytes(note)| <= U16_MAX
    case ColMetadata(declared) => |declared| < NO_COLUMNS
    case Row(values) => CellsEncode(d, columns, values)
    case Order(numbers) => 2 * |numbers| <= U16_MAX
    case _ => true
  }

  // ----- Bodies

  lemma NoteBack(note: Note, t: bytes)
    ensures NoteOf(NoteBytes(note) + t) == Got(NormalNote(note), t)
  {
    hide Le, Twos, UsVarcharBytes, BVarcharBytes, I32Le, U32Le, UsVarchar, BVarchar, Cut;
    var s6 := Le(note.line, 4) + t;
    var s5 := BVarcharBytes(note.procedure) + s6;
    var s4 := BVarcharBytes(note.server) + s5;
    var s3 := UsVarcharBytes(note.text) + s4;
    var s1 := [note.state, note.severity] + s3;
    assert NoteBytes(note) + t == Le(Twos(note.number, 4), 4) + s1;
    I32LeBack(note.number, s1);
    assert s1[1..][1..] == s3;
    UsVarcharBack(note.text, s4);
    BVarcharBack(note.server, s5);
    BVarcharBack(note.procedure, s6);
    U32LeBack(note.line, t);
  }

  lemma EnvBack(kind: byte, current: string, previous: string, t: bytes)
    ensures EnvOf(EnvBody(kind, current, previous) + t).Got?
    ensures EnvOf(EnvBody(kind, current, previous) + t).value ==
            if NamesValues(kind) then EnvChange(kind, Cut(current, 0xFF), Cut(previous, 0xFF))
            else EnvChange(kind, "", "")
  {
    hide BVarcharBytes, BVarchar, Cut;
    var s2 := BVarcharBytes(previous) + t;
    var s1 := BVarcharBytes(current) + s2;
    assert EnvBody(kind, current, previous) + t == [kind] + s1;
    BVarcharBack(current, s2);
    BVarcharBack(previous, t);
  }

  lemma AckBack(version: u32, program: string)
    ensures AckOf(AckBody(version, program)).Got?
    ensures AckOf(AckBody(version, program)).value == LoginAck(version, Cut(program, 0xFF))
  {
    hide Be, BVarcharBytes, BVarchar, U32Be, Cut;
    var s2 := BVarcharBytes(program) + [16, 0, 0, 0];
    var s1 := Be(version, 4) + s2;
    assert AckBody(version, program) == [1] + s1;
    U32BeBack(version, s2);
    BVarcharBack(program, [16, 0, 0, 0]);
  }

  lemma {:induction false} NumbersBack(numbers: seq<u16>)
    ensures NumbersOf(UnitBytes(numbers)) == Got(numbers, [])
  {
    hide Le, U16Le;
    if |numbers| > 0 {
      var more := UnitBytes(numbers[1..]);
      assert UnitBytes(numbers) == Le(numbers[0], 2) + more;
      NumbersBack(numbers[1..]);
      hide UnitBytes;
      U16LeBack(numbers[0], more);
      assert numbers == [numbers[0]] + numbers[1..];
    }
  }

  lemma BodyBack(token: byte, body: bytes, t: bytes)
    requires |body| <= U16_MAX
    ensures (WithLength(token, body) + t)[0] == token
    ensures Body((WithLength(token, body) + t)[1..]) == Got(body, t)
  {
    hide Le, U16Le;
    U16LeBack(|body|, body + t);
    assert (WithLength(token, body) + t)[1..] == Le(|body|, 2) + (body + t);
    assert (body + t)[..|body|] == body && (body + t)[|body|..] == t;
  }

  /** A body longer than its length field can say is cut there, and what follows is left in the way. */
  lemma LongBodyCut(token: byte, body: bytes, t: bytes)
    requires |body| > U16_MAX
    ensures Body((WithLength(token, body) + t)[1..]) == Got(body[..U16_MAX], body[U16_MAX..] + t)
  {
    hide Le, U16Le;
    U16LeBack(U16_MAX, body + t);
    assert (WithLength(token, body) + t)[1..] == Le(U16_MAX, 2) + (body + t);
    assert (body + t)[..U16_MAX] == body[..U16_MAX] && (body + t)[U16_MAX..] == body[U16_MAX..] + t;
  }

  /** A token's body is read back whole exactly when its length fits the field. */
  lemma BodyBackExactly(token: byte, body: bytes, t: bytes)
    ensures Body((WithLength(token, body) + t)[1..]) == Got(body, t) <==> |body| <= U16_MAX
  {
    hide Body, WithLength;
    if |body| <= U16_MAX {
      BodyBack(token, body, t);
    } else {
      LongBodyCut(token, body, t);
    }
  }

  // ----- Columns and cells

  lemma OneColumnBack(column: Column, t: bytes)
    ensures OneColumn(ColumnBytes(column) + t) == Got(NormalColumn(column), t)
  {
    hide Le, TypeInfoBytes, TypeInfo, BVarcharBytes, BVarchar, Cut;
    var s2 := BVarcharBytes(column.name) + t;
    var s1 := TypeInfoBytes(column.kind) + s2;
    assert (ColumnBytes(column) + t)[6..] == s1;
    TypeInfoBack(column.kind, s2);
    BVarcharBack(column.name, t);
  }

  lemma {:induction false} ColumnsBack(columns: seq<Column>, t: bytes)
    ensures SomeColumns(|columns|, ColumnsBytes(columns) + t) == Got(NormalColumns(columns), t)
  {
    hide OneColumn, ColumnBytes;
    if |columns| == 0 {
      assert ColumnsBytes(columns) + t == t;
    } else {
      var s1 := ColumnsBytes(columns[1..]) + t;
      assert ColumnsBytes(columns) + t == ColumnBytes(columns[0]) + s1;
      OneColumnBack(columns[0], s1);
      ColumnsBack(columns[1..], t);
    }
  }

  lemma MetadataBack(columns: seq<Column>, t: bytes)
    requires |columns| < NO_COLUMNS
    ensures Metadata(Le(ColumnCount(columns), 2) + ColumnsBytes(columns) + t) == Got(NormalColumns(columns), t)
  {
    hide Le, U16Le, SomeColumns;
    var s1 := ColumnsBytes(columns) + t;
    Assoc(Le(ColumnCount(columns), 2), ColumnsBytes(columns), t);
    U16LeBack(ColumnCount(columns), s1);
    if |columns| == 0 {
      assert s1 == t;
    } else {
      ColumnsBack(columns, t);
    }
  }

  /** Metadata is read back exactly when its count can say how many columns there are. */
  lemma MetadataBackExactly(columns: seq<Column>, t: bytes)
    ensures Metadata(Le(ColumnCount(columns), 2) + ColumnsBytes(columns) + t) == Got(NormalColumns(columns), t)
       <==> |columns| < NO_COLUMNS
  {
    hide Le, U16Le, ColumnsBytes, SomeColumns, NormalColumns;
    if |columns| < NO_COLUMNS {
      MetadataBack(columns, t);
    } else {
      Assoc(Le(ColumnCount(columns), 2), ColumnsBytes(columns), t);
      U16LeBack(ColumnCount(columns), ColumnsBytes(columns) + t);
    }
  }

  /** A row is read back by columns of the same types, whatever they are called. */
  lemma {:induction false} CellsBack(d: Dialect, columns: seq<Column>, values: seq<Cell>, t: bytes)
    requires CellsEncode(d, columns, values)
    ensures Cells(d, NormalColumns(columns), CellsBytes(d, columns, values) + t)
         == Got(NormalCells(d, columns, values), t)
  {
    hide Value, ValueBytes, Normal, Encodable;
    if |columns| == 0 {
      assert CellsBytes(d, columns, values) + t == t;
    } else {
      var s1 := CellsBytes(d, columns[1..], values[1..]) + t;
      assert CellsBytes(d, columns, values) + t == ValueBytes(d, columns[0].kind, values[0]) + s1;
      assert Encodable(d, columns[0].kind, values[0]);
      ValueBack(d, columns[0].kind, values[0], s1);
      assert NormalColumns(columns)[1..] == NormalColumns(columns[1..]);
      assert CellsEncode(d, columns[1..], values[1..]) by {
        forall i | 0 <= i < |columns| - 1 ensures Encodable(d, columns[1..][i].kind, values[1..][i]) {
          assert Encodable(d, columns[i + 1].kind, values[i + 1]);
        }
      }
      CellsBack(d, columns[1..], values[1..], t);
    }
  }

  // ----- Tokens

  lemma DoneBack(token: byte, status: u16, rows: u64, t: bytes)
    ensures (DoneBytes(token, status, rows) + t)[0] == token
    ensures DoneOf(token, (DoneBytes(token, status, rows) + t)[1..]) ==
            Got(if token == DONE then Done(status, rows) else if token == DONEPROC then DoneProc(status, rows)
                else DoneInProc(status, rows), t)
  {
    hide Le, U16Le, U64Le;
    var s2 := Le(0, 2) + (Le(rows, 8) + t);
    assert (DoneBytes(token, status, rows) + t)[1..] == Le(status, 2) + s2;
    U16LeBack(status, s2);
    assert s2[2..] == Le(rows, 8) + t;
    U64LeBack(rows, t);
  }

  /** A length-carrying token whose body reads as `read` is read as it. */
  lemma CarriedBack(d: Dialect, columns: seq<Column>, token: byte, body: bytes, read: Token, t: bytes)
    requires |body| <= U16_MAX && CarriesLength(token) && Inside(token, body) == Some(read)
    ensures NextToken(d, columns, WithLength(token, body) + t) == Got(Reading(read, columns), t)
  {
    hide Inside, Body, Le;
    BodyBack(token, body, t);
  }

  lemma NoteTokenBack(d: Dialect, columns: seq<Column>, token: byte, note: Note, t: bytes)
    requires (token == INFO || token == ERROR) && |NoteBytes(note)| <= U16_MAX
    ensures NextToken(d, columns, WithLength(token, NoteBytes(note)) + t) ==
            Got(Reading(if token == INFO then Info(NormalNote(note)) else Error(NormalNote(note)), columns), t)
  {
    hide NextToken, NoteOf, NoteBytes, NormalNote;
    NoteBack(note, []);
    assert NoteBytes(note) + [] == NoteBytes(note);
    CarriedBack(d, columns, token, NoteBytes(note),
                if token == INFO then Info(NormalNote(note)) else Error(NormalNote(note)), t);
  }

  lemma MetadataRead(d: Dialect, columns: seq<Column>, declared: seq<Column>, s1: bytes, t: bytes)
    requires Metadata(s1) == Got(declared, t)
    ensures NextToken(d, columns, [COLMETADATA] + s1) == Got(Reading(ColMetadata(declared), declared), t)
  {
    hide Metadata;
    assert ([COLMETADATA] + s1)[1..] == s1;
  }

  lemma MetadataTokenIs(d: Dialect, declared: seq<Column>)
    ensures TokenBytes(d, [], ColMetadata(declared))
         == [COLMETADATA] + Le(ColumnCount(declared), 2) + ColumnsBytes(declared)
  {
  }

  lemma MetadataTokenBack(d: Dialect, columns: seq<Column>, declared: seq<Column>, t: bytes)
    requires |declared| < NO_COLUMNS
    ensures NextToken(d, columns, TokenBytes(d, [], ColMetadata(declared)) + t)
         == Got(Reading(ColMetadata(NormalColumns(declared)), NormalColumns(declared)), t)
  {
    hide NextToken, TokenBytes, Metadata, ColumnsBytes, Le, ColumnCount, NormalColumns;
    MetadataBack(declared, t);
    MetadataTokenIs(d, declared);
    var s1 := Le(ColumnCount(declared), 2) + ColumnsBytes(declared) + t;
    MetadataRead(d, columns, NormalColumns(declared), s1, t);
    Regroup([COLMETADATA], Le(ColumnCount(declared), 2), ColumnsBytes(declared), t);
  }

  lemma RowTokenIs(d: Dialect, columns: seq<Column>, values: seq<Cell>)
    ensures TokenBytes(d, columns, Row(values)) == [ROW] + CellsBytes(d, columns, values)
  {
  }

  lemma RowRead(d: Dialect, columns: seq<Column>, s1: bytes, values: seq<Cell>, t: bytes)
    requires Cells(d, columns, s1) == Got(values, t)
    ensures NextToken(d, columns, [ROW] + s1) == Got(Reading(Row(values), columns), t)
  {
    hide Cells;
    assert ([ROW] + s1)[1..] == s1;
  }

  lemma RowTokenBack(d: Dialect, columns: seq<Column>, values: seq<Cell>, t: bytes)
    requires CellsEncode(d, columns, values)
    ensures NextToken(d, NormalColumns(columns), TokenBytes(d, columns, Row(values)) + t)
         == Got(Reading(Row(NormalCells(d, columns, values)), NormalColumns(columns)), t)
  {
    CellsBack(d, columns, values, t);
    hide Cells, CellsBytes, CellsEncode, NormalCells, NormalColumns, NextToken, TokenBytes;
    RowTokenIs(d, columns, values);
    Assoc([ROW], CellsBytes(d, columns, values), t);
    RowRead(d, NormalColumns(columns), CellsBytes(d, columns, values) + t, NormalCells(d, columns, values), t);
  }

  lemma DoneTokenBack(d: Dialect, columns: seq<Column>, token: byte, status: u16, rows: u64, t: bytes)
    requires token == DONE || token == DONEPROC || token == DONEINPROC
    ensures NextToken(d, columns, DoneBytes(token, status, rows) + t) ==
            Got(Reading(if token == DONE then Done(status, rows) else if token == DONEPROC then DoneProc(status, rows)
                        else DoneInProc(status, rows), columns), t)
  {
    hide DoneOf, Le;
    DoneBack(token, status, rows, t);
  }

  lemma ReturnTokenBack(d: Dialect, columns: seq<Column>, code: i32, t: bytes)
    ensures NextToken(d, columns, TokenBytes(d, columns, ReturnStatus(code)) + t)
         == Got(Reading(ReturnStatus(code), columns), t)
  {
    hide I32Le, Le, Twos;
    I32LeBack(code, t);
    assert (TokenBytes(d, columns, ReturnStatus(code)) + t)[1..] == Le(Twos(code, 4), 4) + t;
  }

  predicate HasBody(token: Token) {
    token.EnvChange? || token.Info? || token.Error? || token.LoginAck? || token.Order?
  }

  lemma BodyTokenBack(d: Dialect, columns: seq<Column>, seen: seq<Column>, token: Token, t: bytes)
    requires HasBody(token) && Encodes(d, columns, token)
    ensures NextToken(d, seen, TokenBytes(d, columns, token) + t)
         == Got(Reading(NormalToken(d, columns, token), seen), t)
  {
    hide NextToken, EnvBody, EnvOf, AckBody, AckOf, NumbersOf, UnitBytes, NoteBytes, NormalNote, Cut,
         Le, WithLength;
    match token
    case EnvChange(kind, current, previous) =>
      EnvBack(kind, current, previous, []);
      assert EnvBody(kind, current, previous) + [] == EnvBody(kind, current, previous);
      EnvBodyShort(kind, current, previous);
      CarriedBack(d, seen, ENVCHANGE, EnvBody(kind, current, previous), NormalToken(d, columns, token), t);
    case Info(note) => NoteTokenBack(d, seen, INFO, note, t);
    case Error(note) => NoteTokenBack(d, seen, ERROR, note, t);
    case LoginAck(version, program) =>
      AckBack(version, program);
      AckBodyShort(version, program);
      CarriedBack(d, seen, LOGINACK, AckBody(version, program), NormalToken(d, columns, token), t);
    case Order(numbers) =>
      NumbersBack(numbers);
      CarriedBack(d, seen, ORDER, UnitBytes(numbers), token, t);
  }

  /**
   * A token is read back as its normal form, off its own bytes, and leaves the reader with the
   * writer's columns.
   */
  lemma TokenBack(d: Dialect, columns: seq<Column>, token: Token, t: bytes)
    requires Encodes(d, columns, token)
    ensures NextToken(d, NormalColumns(columns), TokenBytes(d, columns, token) + t)
         == Got(Reading(NormalToken(d, columns, token), NormalColumns(InForce(columns, token))), t)
  {
    hide NextToken, EnvBody, AckBody, UnitBytes, NoteBytes, CellsBytes, ColumnsBytes, NormalNote, Cut, Le,
         WithLength, DoneBytes, CellsEncode, NormalCells, NormalColumns, ColumnCount, Twos;
    var seen := NormalColumns(columns);
    if HasBody(token) {
      BodyTokenBack(d, columns, seen, token, t);
    } else {
      match token
      case ColMetadata(declared) => MetadataTokenBack(d, seen, declared, t);
      case Row(values) => RowTokenBack(d, columns, values, t);
      case Done(status, rows) => DoneTokenBack(d, seen, DONE, status, rows, t);
      case DoneProc(status, rows) => DoneTokenBack(d, seen, DONEPROC, status, rows, t);
      case DoneInProc(status, rows) => DoneTokenBack(d, seen, DONEINPROC, status, rows, t);
      case ReturnStatus(code) => ReturnTokenBack(d, seen, code, t);
    }
  }

  lemma EnvBodyShort(kind: byte, current: string, previous: string)
    ensures |EnvBody(kind, current, previous)| <= 1023
  {
  }

  lemma AckBodyShort(version: u32, program: string)
    ensures |AckBody(version, program)| <= 520
  {
  }
}

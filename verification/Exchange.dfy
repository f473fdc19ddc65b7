/** What a session writes, read by a client: every answer and every login comes across as what it was. */
module Exchange {
  import opened Bytes
  import opened Client
  import opened Column
  import opened Dialect
  import opened Runs
  import opened Session
  import opened Streams
  import opened Text
  import opened Token
  import opened Values
  import opened Wire
  import opened Wrappers

  // ----- Batches

  /** The answers whose counts and lengths the format can say, with a cell at least for every column. */
  ghost predicate Servable(answer: Answer) {
    match answer
    case Rows(columns, rows) =>
      && |columns| < NO_COLUMNS
      && |rows| < 0x1_0000_0000_0000_0000
      && forall i :: 0 <= i < |rows| ==> IsTextRow(|columns|, rows[i])
    case Complete(_) => true
    case Refusal(_, message) => |Units(message)| <= 32760
  }

  /** A row of at least `n` cells, the first `n` each with a text that has a length. */
  ghost predicate IsTextRow(n: nat, row: seq<Cell>) {
    && n <= |row|
    && forall i :: 0 <= i < n && row[i].Some? ==> 2 * |Units(row[i].value)| < PLP_UNKNOWN
  }

  /** The names as they come across: each cut at what its count can say. */
  function CutNames(names: seq<string>): (r: seq<string>)
    ensures |r| == |names|
    ensures forall i :: 0 <= i < |r| ==> r[i] == Cut(names[i], 0xFF)
  {
    if |names| == 0 then [] else [Cut(names[0], 0xFF)] + CutNames(names[1..])
  }

  /** The rows as they come across: no cell beyond the columns. */
  function FirstCells(n: nat, rows: seq<seq<Cell>>): (r: seq<seq<Cell>>)
    ensures |r| == |rows|
    ensures forall i :: 0 <= i < |r| ==> r[i] == rows[i][..Min(n, |rows[i]|)]
  {
    if |rows| == 0 then [] else [rows[0][..Min(n, |rows[0]|)]] + FirstCells(n, rows[1..])
  }

  /** What a client is to make of an answer. */
  function ExpectedOutcome(answer: Answer): Outcome<QueryResult>
    requires Servable(answer)
  {
    match answer
    case Rows(columns, rows) => Success(QueryResult(CutNames(columns), FirstCells(|columns|, rows), |rows|))
    case Complete(touched) => Success(QueryResult([], [], touched))
    case Refusal(number, message) => Failure(Answered(number, message))
  }

  /** A table comes across as it is exactly when its names are short and its rows as wide as its columns. */
  lemma TableKeptExactly(columns: seq<string>, rows: seq<seq<Cell>>)
    requires Servable(Rows(columns, rows))
    ensures ExpectedOutcome(Rows(columns, rows)) == Success(QueryResult(columns, rows, |rows|))
       <==> ((forall i :: 0 <= i < |columns| ==> Short(columns[i]))
             && (forall i :: 0 <= i < |rows| ==> |rows[i]| == |columns|))
  {
    hide Short, Cut;
    var names, cells := CutNames(columns), FirstCells(|columns|, rows);
    forall i | 0 <= i < |columns| ensures Short(columns[i]) <==> names[i] == columns[i] {
      ShortIsKept(columns[i]);
    }
    forall i | 0 <= i < |rows| ensures |rows[i]| == |columns| <==> cells[i] == rows[i] {
      assert IsTextRow(|columns|, rows[i]);
      assert cells[i] == rows[i][..|columns|];
    }
    assert names == columns <==> forall i :: 0 <= i < |columns| ==> names[i] == columns[i];
    assert cells == rows <==> forall i :: 0 <= i < |rows| ==> cells[i] == rows[i];
  }

  lemma TextCellEncodes(d: Dialect, value: Cell)
    requires value.Some? ==> 2 * |Units(value.value)| < PLP_UNKNOWN
    ensures Encodable(d, NVarChar(MAX), value) && Normal(d, NVarChar(MAX), value) == value
  {
    hide Units;
  }

  lemma TextCellsEncode(d: Dialect, columns: seq<Column>, row: seq<Cell>)
    requires IsTextRow(|columns|, row)
    requires forall i :: 0 <= i < |columns| ==> columns[i].kind == NVarChar(MAX)
    ensures CellsEncode(d, columns, row) && NormalCells(d, columns, row) == row[..|columns|]
  {
    hide Units, Encodable, Normal, NormalCells;
    forall i | 0 <= i < |columns|
      ensures Encodable(d, columns[i].kind, row[i]) && Normal(d, columns[i].kind, row[i]) == row[i]
    {
      TextCellEncodes(d, row[i]);
    }
  }

  lemma RowIsLong(n: nat, row: seq<Cell>)
    requires IsTextRow(n, row)
    ensures n <= |row|
  {
  }

  lemma TextRowEncodes(d: Dialect, names: seq<string>, row: seq<Cell>)
    requires IsTextRow(|names|, row)
    ensures Encodes(d, TextColumns(names), Row(row)) && |names| <= |row|
    ensures NormalToken(d, TextColumns(names), Row(row)) == Row(row[..|names|])
  {
    hide TextColumns, CellsEncode, NormalCells, IsTextRow;
    TextCellsEncode(d, TextColumns(names), row);
    RowIsLong(|names|, row);
  }

  lemma AllCons(d: Dialect, columns: seq<Column>, first: Token, rest: seq<Token>)
    requires Encodes(d, columns, first) && AllEncode(d, InForce(columns, first), rest)
    requires IsPlain(d, columns, first) && AllPlain(d, InForce(columns, first), rest)
    ensures AllEncode(d, columns, [first] + rest) && AllPlain(d, columns, [first] + rest)
  {
    hide Encodes, IsPlain, InForce;
    assert ([first] + rest)[1..] == rest;
  }

  /** Tokens that can be written, one put ahead of the others, and what they come back as. */
  lemma EncodesCons(d: Dialect, columns: seq<Column>, first: Token, rest: seq<Token>)
    requires Encodes(d, columns, first) && AllEncode(d, InForce(columns, first), rest)
    ensures AllEncode(d, columns, [first] + rest)
    ensures NormalTokens(d, columns, [first] + rest)
         == [NormalToken(d, columns, first)] + NormalTokens(d, InForce(columns, first), rest)
  {
    hide Encodes, NormalToken, InForce;
    assert ([first] + rest)[1..] == rest;
  }

  lemma DoneKept(d: Dialect, columns: seq<Column>, last: Token)
    requires last.Done?
    ensures AllEncode(d, columns, [last]) && NormalTokens(d, columns, [last]) == [last]
  {
    EncodesCons(d, columns, last, []);
    assert [last] + [] == [last];
  }

  lemma {:induction false} RowsEncode(d: Dialect, names: seq<string>, rows: seq<seq<Cell>>, last: Token)
    requires forall i :: 0 <= i < |rows| ==> IsTextRow(|names|, rows[i])
    requires last.Done?
    ensures AllEncode(d, TextColumns(names), RowTokens(rows) + [last])
    ensures NormalTokens(d, TextColumns(names), RowTokens(rows) + [last])
         == RowTokens(FirstCells(|names|, rows)) + [last]
  {
    hide TextColumns, Encodes, NormalToken, NormalTokens, AllEncode, IsTextRow;
    if |rows| == 0 {
      assert RowTokens(rows) + [last] == [last] && RowTokens(FirstCells(|names|, rows)) + [last] == [last];
      DoneKept(d, TextColumns(names), last);
    } else {
      var row, rest := rows[0], RowTokens(rows[1..]) + [last];
      assert IsTextRow(|names|, row);
      TextRowEncodes(d, names, row);
      RowsEncode(d, names, rows[1..], last);
      EncodesCons(d, TextColumns(names), Row(row), rest);
      RowAhead(row, rows[1..], last);
      FirstCellsCons(|names|, row, rows[1..]);
      assert [row] + rows[1..] == rows;
      RowAhead(row[..|names|], FirstCells(|names|, rows[1..]), last);
    }
  }

  lemma RowAhead(row: seq<Cell>, rows: seq<seq<Cell>>, last: Token)
    ensures RowTokens([row] + rows) + [last] == [Row(row)] + (RowTokens(rows) + [last])
  {
    RowTokensCons(row, rows);
  }

  lemma FirstCellsCons(n: nat, row: seq<Cell>, rows: seq<seq<Cell>>)
    requires n <= |row|
    ensures FirstCells(n, [row] + rows) == [row[..n]] + FirstCells(n, rows)
  {
    assert ([row] + rows)[1..] == rows;
  }

  lemma DoneEncodes(d: Dialect, columns: seq<Column>, last: Token)
    requires last.Done?
    ensures Encodes(d, columns, last) && IsPlain(d, columns, last)
  {
  }

  lemma NoteLength(note: Note)
    requires note.server == "" && note.procedure == ""
    ensures |NoteBytes(note)| == 14 + 2 * Min(|Units(note.text)|, U16_MAX)
  {
    hide UsVarcharBytes, Units, Le;
    EmptyVarchar();
    UsLength(note.text);
  }

  lemma UsLength(text: string)
    ensures |UsVarcharBytes(text)| == 2 + 2 * Min(|Units(text)|, U16_MAX)
  {
  }

  lemma EmptyVarchar()
    ensures |BVarcharBytes("")| == 1
  {
  }

  /** Every note a session writes fits its length field while its text has at most 32760 code units. */
  lemma NoteEncodes(d: Dialect, number: i32, severity: byte, text: string)
    requires |Units(text)| <= 32760
    ensures |NoteBytes(NewNote(number, severity, text))| <= U16_MAX
    ensures IsPlainNote(NewNote(number, severity, text))
  {
    hide NoteBytes, Units;
    NoteLength(NewNote(number, severity, text));
    NoUnits();
  }

  lemma NoUnits()
    ensures |Units("")| == 0
  {
  }

  lemma SingleEncodes(d: Dialect, last: Token)
    requires last.Done?
    ensures AllEncode(d, [], [last]) && AllPlain(d, [], [last])
  {
    hide Encodes, IsPlain;
    DoneEncodes(d, [], last);
    AllCons(d, [], last, []);
    assert [last] + [] == [last];
  }

  /** A token that declares no columns, then a DONE. */
  lemma PairEncodes(d: Dialect, first: Token, last: Token)
    requires !first.ColMetadata? && Encodes(d, [], first) && IsPlain(d, [], first)
    requires last.Done?
    ensures AllEncode(d, [], [first, last]) && AllPlain(d, [], [first, last])
  {
    hide Encodes, IsPlain, AllEncode, AllPlain;
    SingleEncodes(d, last);
    AllCons(d, [], first, [last]);
    assert [first] + [last] == [first, last];
  }

  lemma RefusalEncodes(d: Dialect, number: i32, severity: byte, text: string)
    requires |Units(text)| <= 32760
    ensures AllEncode(d, [], [Error(NewNote(number, severity, text)), Done(DONE_ERROR, 0)])
    ensures AllPlain(d, [], [Error(NewNote(number, severity, text)), Done(DONE_ERROR, 0)])
  {
    hide AllEncode, AllPlain, NoteBytes, IsPlainNote, Units;
    NoteEncodes(d, number, severity, text);
    PairEncodes(d, Error(NewNote(number, severity, text)), Done(DONE_ERROR, 0));
  }

  lemma CutColumns(names: seq<string>)
    ensures NormalColumns(TextColumns(names)) == TextColumns(CutNames(names))
  {
    hide Cut;
  }

  lemma MetadataEncodes(d: Dialect, names: seq<string>)
    requires |names| < NO_COLUMNS
    ensures Encodes(d, [], ColMetadata(TextColumns(names)))
    ensures NormalToken(d, [], ColMetadata(TextColumns(names))) == ColMetadata(TextColumns(CutNames(names)))
  {
    hide TextColumns, CutNames, NormalColumns;
    CutColumns(names);
  }

  /** A table's tokens as they are read. */
  lemma TableComesAcross(d: Dialect, columns: seq<string>, rows: seq<seq<Cell>>, last: Token)
    requires Servable(Rows(columns, rows)) && last.Done?
    ensures var tokens := [ColMetadata(TextColumns(columns))] + RowTokens(rows) + [last];
            && AllEncode(d, [], tokens)
            && NormalTokens(d, [], tokens)
               == [ColMetadata(TextColumns(CutNames(columns)))] + RowTokens(FirstCells(|columns|, rows)) + [last]
  {
    hide IsTextRow, AllEncode, NormalTokens, RowTokens, TextColumns, CutNames, FirstCells, Encodes, NormalToken;
    var first, rest := ColMetadata(TextColumns(columns)), RowTokens(rows) + [last];
    MetadataEncodes(d, columns);
    RowsEncode(d, columns, rows, last);
    EncodesCons(d, [], first, rest);
    assert [first] + RowTokens(rows) + [last] == [first] + rest;
  }

  /** The tokens of a servable answer that is not a table come back as they went. */
  lemma AnswerEncodes(d: Dialect, answer: Answer)
    requires Servable(answer) && !answer.Rows?
    ensures AllEncode(d, [], AnswerTokens(answer)) && AllPlain(d, [], AnswerTokens(answer))
  {
    hide AllEncode, AllPlain, Units;
    match answer
    case Complete(touched) => SingleEncodes(d, Done(DONE_COUNT, touched));
    case Refusal(number, message) => RefusalEncodes(d, number, 16, message);
  }

  lemma RowTokensCons(row: seq<Cell>, rows: seq<seq<Cell>>)
    ensures RowTokens([row] + rows) == [Row(row)] + RowTokens(rows)
  {
    assert ([row] + rows)[1..] == rows;
  }

  lemma {:induction false} RowTokensSnoc(front: seq<seq<Cell>>, row: seq<Cell>)
    ensures RowTokens(front + [row]) == RowTokens(front) + [Row(row)]
  {
    if |front| == 0 {
      RowTokensCons(row, []);
      assert front + [row] == [row] + [];
    } else {
      hide RowTokens;
      RowTokensSnoc(front[1..], row);
      RowTokensCons(front[0], front[1..] + [row]);
      RowTokensCons(front[0], front[1..]);
      assert front + [row] == [front[0]] + (front[1..] + [row]) && front == [front[0]] + front[1..];
    }
  }

  lemma {:induction false} RowsOfRows(first: Token, rows: seq<seq<Cell>>)
    requires !first.Row?
    ensures RowsOf([first] + RowTokens(rows)) == rows
  {
    if |rows| == 0 {
      assert [first] + RowTokens(rows) == [first];
      assert [first][..0] == [];
    } else {
      hide RowsOf;
      var front, last := rows[..|rows| - 1], rows[|rows| - 1];
      var before := [first] + RowTokens(front);
      assert rows == front + [last];
      RowTokensSnoc(front, last);
      hide RowTokens;
      assert [first] + RowTokens(rows) == before + [Row(last)];
      FoldsOfSnoc(before, Row(last));
      RowsOfRows(first, front);
    }
  }

  lemma NamesOfText(columns: seq<string>)
    ensures Names(TextColumns(columns)) == columns
  {
  }

  /** Metadata stands only at the head of a table's tokens, and no error anywhere. */
  lemma RowsTokensAt(first: Token, rows: seq<seq<Cell>>, last: Token, i: nat)
    requires first.ColMetadata? && last.Done? && i < |rows| + 2
    ensures var tokens := [first] + RowTokens(rows) + [last];
            && (IsMetadata(tokens[i]) <==> i == 0) && !IsError(tokens[i])
  {
    var tokens := [first] + RowTokens(rows) + [last];
    if i == 0 {
      assert tokens[i] == first;
    } else if i <= |rows| {
      assert tokens[i] == RowTokens(rows)[i - 1];
    } else {
      assert tokens[i] == last;
    }
  }

  lemma FoldsOfRows(columns: seq<string>, rows: seq<seq<Cell>>, count: u64)
    ensures var tokens := [ColMetadata(TextColumns(columns))] + RowTokens(rows) + [Done(DONE_COUNT, count)];
            && RowsOf(tokens) == rows && NamesOf(tokens) == columns && CountOf(tokens) == count
            && LastWhere(tokens, IsError).None?
  {
    hide RowsOf, CountOf, RowTokens, TextColumns, Names, IsMetadata, IsError;
    var first, last := ColMetadata(TextColumns(columns)), Done(DONE_COUNT, count);
    var tokens := [first] + RowTokens(rows) + [last];
    RowsOfRows(first, rows);
    FoldsOfSnoc([first] + RowTokens(rows), last);
    NamesOfText(columns);
    RowsTokensAt(first, rows, last, 0);
    forall i | 0 <= i < |tokens| ensures (IsMetadata(tokens[i]) <==> i == 0) && !IsError(tokens[i]) {
      RowsTokensAt(first, rows, last, i);
    }
    hide LastWhere;
    assert LastWhere(tokens, IsMetadata) == Some(0);
    assert tokens[0] == first;
  }

  lemma FoldsOfCount(touched: u64)
    ensures var tokens := [Done(DONE_COUNT, touched)];
            && RowsOf(tokens) == [] && NamesOf(tokens) == [] && CountOf(tokens) == touched
            && LastWhere(tokens, IsError).None?
  {
    var last := Done(DONE_COUNT, touched);
    assert [] + [last] == [last];
    FoldsOfSnoc([], last);
    LastOfSnoc([], last, IsError);
  }

  lemma LastErrorFirst(error: Token, last: Token)
    requires IsError(error) && !IsError(last)
    ensures LastWhere([error, last], IsError) == Some(0)
  {
    assert [error, last][0] == error && [error, last][1] == last;
  }

  /** What the session answered is what the client makes of it. */
  lemma AnswerComesAcross(d: Dialect, answer: Answer)
    requires Servable(answer)
    ensures QueryOutcome(ReadRun(d, [], TokensBytes(d, [], AnswerTokens(answer)))) == ExpectedOutcome(answer)
  {
    hide ReadRun, TokensBytes, AllEncode, AllPlain, NormalTokens, Units, IsTextRow, RowsOf, NamesOf, CountOf,
         LastWhere, LastInForce, CutNames, FirstCells, TextColumns, RowTokens;
    match answer
    case Rows(columns, rows) =>
      TableComesAcross(d, columns, rows, Done(DONE_COUNT, |rows|));
      TokensBack(d, [], AnswerTokens(answer));
      assert NormalColumns([]) == [];
      FoldsOfRows(CutNames(columns), FirstCells(|columns|, rows), |rows|);
    case Complete(touched) =>
      AnswerEncodes(d, answer);
      PlainRoundTrip(d, AnswerTokens(answer));
      FoldsOfCount(touched);
    case Refusal(number, message) =>
      AnswerEncodes(d, answer);
      PlainRoundTrip(d, AnswerTokens(answer));
      LastErrorFirst(Error(NewNote(number, 16, message)), Done(DONE_ERROR, 0));
  }

  // ----- The login

  /** A text takes between one and two code units a character. */
  lemma {:induction false} UnitsBounds(text: string)
    ensures |text| <= |Units(text)| <= 2 * |text|
  {
    hide CharUnits;
    if |text| > 0 {
      UnitsBounds(text[1..]);
    }
  }

  lemma RefusalComesAcross(d: Dialect, user: string)
    requires |Units(FailedText(user))| <= 32760
    ensures LoginOutcome(ReadRun(d, [], TokensBytes(d, [], RefusalTokens(user))))
         == Failure(Answered(LOGIN_FAILED, FailedText(user)))
  {
    hide ReadRun, TokensBytes, AllEncode, AllPlain, Units, LastInForce, FailedText;
    var error := Error(NewNote(LOGIN_FAILED, 14, FailedText(user)));
    RefusalEncodes(d, LOGIN_FAILED, 14, FailedText(user));
    PlainRoundTrip(d, RefusalTokens(user));
    assert [] + [error] + [Done(DONE_ERROR, 0)] == RefusalTokens(user);
    FirstStands([], error, [Done(DONE_ERROR, 0)]);
  }

  /** The tokens a welcome is read as: the database's name cut at what its count can say. */
  function WelcomeRead(database: string): seq<Token> {
    [EnvChange(ENV_DATABASE, Cut(database, 0xFF), "master")] + WelcomeTokens(database)[1..]
  }

  lemma WelcomeEncodes(d: Dialect, database: string)
    requires |Units(ContextText(database))| <= 32760
    ensures AllEncode(d, [], WelcomeTokens(database))
    ensures AllPlain(d, [], WelcomeTokens(database)[1..])
  {
    hide NoteBytes, Units, ContextText, IsPlainNote, Short;
    var t := WelcomeTokens(database);
    NoteEncodes(d, CONTEXT_CHANGED, 0, ContextText(database));
    ShortDefaults();
    assert t[4..] == [t[4]] + [] && t[3..] == [t[3]] + t[4..] && t[2..] == [t[2]] + t[3..] && t[1..] == [t[1]] + t[2..];
    assert t == [t[0]] + t[1..];
    AllCons(d, [], t[4], []);
    AllCons(d, [], t[3], t[4..]);
    AllCons(d, [], t[2], t[3..]);
    AllCons(d, [], t[1], t[2..]);
    assert t[1..][1..] == t[2..];
  }

  lemma DefaultInDecimal()
    ensures Decimal(DEFAULT_PACKET_SIZE) == "4096"
  {
    assert Digits(4) == "4";
    assert Digits(40) == Digits(4) + [DigitChar(0)];
    assert Digits(409) == Digits(40) + [DigitChar(9)];
    assert Digits(4096) == Digits(409) + [DigitChar(6)];
  }

  /** The texts a welcome carries besides the database's name are short. */
  lemma ShortDefaults()
    ensures Decimal(DEFAULT_PACKET_SIZE) == "4096"
    ensures Short(Decimal(DEFAULT_PACKET_SIZE)) && Short("Microsoft SQL Server (xmip)") && Short("master")
  {
    hide Decimal, Units;
    DefaultInDecimal();
    UnitsBounds("4096");
    UnitsBounds("Microsoft SQL Server (xmip)");
    UnitsBounds("master");
  }

  lemma WelcomeReadIs(d: Dialect, database: string)
    requires |Units(ContextText(database))| <= 32760
    ensures ReadRun(d, [], TokensBytes(d, [], WelcomeTokens(database))).tokens == WelcomeRead(database)
    ensures ReadRun(d, [], TokensBytes(d, [], WelcomeTokens(database))).complete
  {
    hide ReadRun, TokensBytes, Units, ContextText, Cut, Short, LastInForce, IsPlain, Encodes,
         NoteBytes;
    var t := WelcomeTokens(database);
    WelcomeEncodes(d, database);
    TokensBack(d, [], t);
    assert NormalColumns([]) == [];
    PlainTokensExactly(d, [], t[1..]);
    ShortDefaults();
    ShortIsKept("master");
    assert NormalToken(d, [], t[0]) == EnvChange(ENV_DATABASE, Cut(database, 0xFF), "master");
  }

  lemma SizeOfDefault()
    ensures SizeOf(EnvChange(ENV_PACKET_SIZE, Decimal(DEFAULT_PACKET_SIZE), Decimal(DEFAULT_PACKET_SIZE)))
         == Some(DEFAULT_PACKET_SIZE)
  {
    UnsignedBack(DEFAULT_PACKET_SIZE);
  }

  /** What a welcomed client settles on. */
  const SETTLED: Terms := Terms(DEFAULT_PACKET_SIZE, "Microsoft SQL Server (xmip)")

  lemma WelcomeFolds(database: string)
    ensures var t := WelcomeRead(database);
            && FirstWhere(t, IsError).None?
            && LastProgram(t) == Some(SETTLED.program)
            && SettledSize(t) == DEFAULT_PACKET_SIZE
  {
    hide Decimal, Cut, ContextText;
    var t := WelcomeRead(database);
    SizeOfDefault();
    hide SizeOf;
    assert t[3].LoginAck? && IsAck(t[3]);
    assert SettlesSize(t[2]);
    SizeOnlyOfEnv(t[0]);
    SizeOnlyOfEnv(t[3]);
    SizeOnlyOfEnv(t[4]);
    assert !IsAck(t[4]) && !SettlesSize(t[3]) && !SettlesSize(t[4]);
    assert LastWhere(t, IsAck) == Some(3);
    assert LastWhere(t, SettlesSize) == Some(2);
    assert !IsError(t[0]) && !IsError(t[1]) && !IsError(t[2]) && !IsError(t[3]) && !IsError(t[4]);
  }

  lemma WelcomeComesAcross(d: Dialect, database: string)
    requires |Units(ContextText(database))| <= 32760
    ensures LoginOutcome(ReadRun(d, [], TokensBytes(d, [], WelcomeTokens(database)))) == Success(SETTLED)
  {
    hide ReadRun, TokensBytes, Units, ContextText, WelcomeRead, FirstWhere, LastProgram,
         SettledSize;
    WelcomeReadIs(d, database);
    WelcomeFolds(database);
  }
}

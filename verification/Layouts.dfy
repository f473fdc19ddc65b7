/** What is written, byte by byte: every code, width and filler as a number. */
module Layouts {
  import opened Batch
  import opened Bytes
  import opened Client
  import opened Column
  import opened Conversation
  import opened Dialect
  import opened Exchange
  import opened Login
  import opened Prelogin
  import opened Readings
  import opened Runs
  import opened Session
  import opened Sizes
  import opened Streams
  import opened Text
  import opened Token
  import opened Wire
  import opened Wrappers

  lemma Fillers()
    ensures Le(0, 2) == [0, 0] && Le(0, 4) == [0, 0, 0, 0] && Le(1, 2) == [1, 0] && Be(0, 2) == [0, 0]
    ensures Le(0, 8) == [0, 0, 0, 0, 0, 0, 0, 0] && Le(65535, 2) == [0xFF, 0xFF]
  {
    assert Le(0, 1) == [0] && Be(0, 1) == [0] && Le(255, 1) == [255];
    LongZeros();
  }

  lemma LongZeros()
    ensures Le(0, 4) == [0, 0, 0, 0] && Le(0, 8) == [0, 0, 0, 0, 0, 0, 0, 0]
  {
    var z1, z2, z3 := Le(0, 1), Le(0, 2), Le(0, 3);
    assert z1 == [0] && z2 == [0] + z1 && z3 == [0] + z2;
    var z4, z5, z6, z7 := Le(0, 4), Le(0, 5), Le(0, 6), Le(0, 7);
    assert z4 == [0] + z3 && z5 == [0] + z4 && z6 == [0] + z5 && z7 == [0] + z6;
    assert Le(0, 8) == [0] + z7;
  }

  // ----- A message in one packet

  lemma PacketIs(kind: byte, status: byte, payload: bytes, id: byte)
    requires |payload| <= 65527
    ensures Packet(kind, status, payload, id) == [kind, status] + Be(8 + |payload|, 2) + [0, 0, id, 0] + payload
  {
    NoChannel();
    hide Be;
    Assoc([kind, status] + Be(8 + |payload|, 2), [0, 0], [id, 0]);
    assert [0, 0] + [id, 0] == [0, 0, id, 0];
  }

  lemma NoChannel()
    ensures Be(0, 2) == [0, 0]
  {
    assert Be(0, 1) == [0];
  }

  lemma OneChunk(kind: byte, payload: bytes, packetSize: u16)
    requires |payload| <= 504
    ensures MessageBytes(kind, payload, packetSize) == Packet(kind, 1, payload, 0)
  {
    hide Packet;
    var chunks := Split(payload, packetSize);
    assert chunks == [payload];
    assert PacketsFrom(kind, chunks, 1) == [];
    assert Packet(kind, 1, payload, 0) + [] == Packet(kind, 1, payload, 0);
  }

  /** A payload that fits a packet of any size: type, mark, length, no channel, number zero, no window, payload. */
  lemma OnePacket(kind: byte, payload: bytes, packetSize: u16)
    requires |payload| <= 504
    ensures MessageBytes(kind, payload, packetSize) == [kind, 1] + Be(8 + |payload|, 2) + [0, 0, 0, 0] + payload
  {
    hide MessageBytes, Packet, Be;
    OneChunk(kind, payload, packetSize);
    PacketIs(kind, 1, payload, 0);
  }

  /** Each packet of a message says its type first. */
  lemma TypeFirst(kind: byte, payload: bytes, packetSize: u16)
    ensures var s := MessageBytes(kind, payload, packetSize); |s| > 0 && s[0] == kind
  {
    hide Chunks, Be;
  }

  /** A login goes as type 0x10, a batch as 0x01, and a session answers as 0x04 in packets of 4096. */
  lemma TypesUsed(p: Parties, sql: string, asked: seq<string>)
    ensures LoginWire(p) != [] && LoginWire(p)[0] == 0x10
    ensures BatchWire(sql) != [] && BatchWire(sql)[0] == 0x01
    ensures var answer := AnswerTo(p.service, p.database, asked, sql).0;
            AnswerWire(p, asked, sql) == MessageBytes(0x04, TokensBytes(p.service.d, [], AnswerTokens(answer)), 4096)
  {
    hide MessageBytes, BatchBytes, TokensBytes, PreloginBytes, LoginBytes, AnswerTo, AnswerTokens;
    TypeFirst(0x10, LoginBytes(p.Login7(), p.processId), 4096);
    TypeFirst(0x01, BatchBytes(sql), 4096);
  }

  // ----- Payloads

  lemma HeaderIs()
    ensures HeaderBytes() == [22, 0, 0, 0] + [18, 0, 0, 0] + [2, 0] + [0, 0, 0, 0, 0, 0, 0, 0] + [1, 0, 0, 0]
  {
    Fillers();
    SmallNumber(22);
    SmallNumber(18);
    SmallNumber(1);
    assert Le(2, 2) == [2] + Le(0, 1) && Le(0, 1) == [0];
    hide Le;
  }

  /** ALL_HEADERS of a batch: 22 bytes, one header of 18 of kind 2, no transaction, one request; then the SQL. */
  lemma BatchIs(sql: string)
    ensures BatchBytes(sql) == [22, 0, 0, 0, 18, 0, 0, 0, 2, 0, 0, 0, 0, 0, 0, 0, 0, 0, 1, 0, 0, 0] + Utf16(sql)
  {
    hide Utf16, HeaderBytes;
    HeaderIs();
    assert [22, 0, 0, 0] + [18, 0, 0, 0] + [2, 0] + [0, 0, 0, 0, 0, 0, 0, 0] + [1, 0, 0, 0]
        == [22, 0, 0, 0, 18, 0, 0, 0, 2, 0, 0, 0, 0, 0, 0, 0, 0, 0, 1, 0, 0, 0];
  }

  lemma SmallNumber(b: byte)
    ensures Le(b, 4) == [b, 0, 0, 0]
  {
    assert Le(0, 1) == [0] && Le(0, 2) == [0, 0] && Le(0, 3) == [0, 0, 0];
  }

  /** What a client opens with, and what a session greets it with, but for the version. */
  lemma PreloginIs(p: Prelogin)
    requires p.encryption == 2 && p.instance == "" && p.threadId == 0 && !p.mars
    ensures PreloginBytes(p)
         == [0, 0, 26, 0, 6, 1, 0, 32, 0, 1, 2, 0, 33, 0, 1, 3, 0, 34, 0, 4, 4, 0, 38, 0, 1] + [0xFF]
            + (p.version + [2] + [0] + [0, 0, 0, 0] + [0])
  {
    var c := Choices(p);
    ChoicesAre(p);
    hide OptionTable, DataBytes, Choices;
    OptionTableIs(c);
    DataIs(c);
  }

  /** A client opens as version 0.0.1, and a session greets it as version 16.0.4, in one packet each. */
  lemma HellosAre()
    ensures Opening()
         == [0x12, 1, 0, 47, 0, 0, 0, 0]
            + ([0, 0, 26, 0, 6, 1, 0, 32, 0, 1, 2, 0, 33, 0, 1, 3, 0, 34, 0, 4, 4, 0, 38, 0, 1] + [0xFF]
               + ([0, 0, 0, 1, 0, 0] + [2] + [0] + [0, 0, 0, 0] + [0]))
    ensures Greeting()
         == [0x04, 1, 0, 47, 0, 0, 0, 0]
            + ([0, 0, 26, 0, 6, 1, 0, 32, 0, 1, 2, 0, 33, 0, 1, 3, 0, 34, 0, 4, 4, 0, 38, 0, 1] + [0xFF]
               + ([16, 0, 4, 0, 0, 0] + [2] + [0] + [0, 0, 0, 0] + [0]))
  {
    hide PreloginBytes, MessageBytes, Be;
    PreloginIs(DEFAULT);
    PreloginIs(ServerHello());
    OnePacket(0x12, PreloginBytes(DEFAULT), 4096);
    OnePacket(0x04, PreloginBytes(ServerHello()), 4096);
    ShortBe(47);
    assert [0x12, 1] + [0, 47] + [0, 0, 0, 0] == [0x12, 1, 0, 47, 0, 0, 0, 0];
    assert [0x04, 1] + [0, 47] + [0, 0, 0, 0] == [0x04, 1, 0, 47, 0, 0, 0, 0];
  }

  lemma ChoicesAre(p: Prelogin)
    requires p.encryption == 2 && p.instance == "" && p.threadId == 0 && !p.mars
    ensures var c := Choices(p);
            && c[0] == Choice(0, p.version) && c[1] == Choice(1, [2]) && c[2] == Choice(2, [0])
            && c[3] == Choice(3, [0, 0, 0, 0]) && c[4] == Choice(4, [0])
  {
    Fillers();
    PlainUtf8();
    hide Le, Utf8;
  }

  lemma ShortBe(b: byte)
    ensures Be(b, 2) == [0, b]
  {
    assert Be(0, 1) == [0];
  }

  lemma EntryIs(choice: Choice, offset: byte, length: byte)
    requires |choice.data| == length as int
    ensures EntryBytes(choice, offset) == [choice.token, 0, offset, 0, length]
  {
    ShortBe(offset);
    ShortBe(length);
    hide Be;
  }

  lemma OptionTableIs(c: seq<Choice>)
    requires |c| == 5
    requires c[0].token == 0 && c[1].token == 1 && c[2].token == 2 && c[3].token == 3 && c[4].token == 4
    requires |c[0].data| == 6 && |c[1].data| == 1 && |c[2].data| == 1 && |c[3].data| == 4 && |c[4].data| == 1
    ensures OptionTable(c, 26)
         == [0, 0, 26, 0, 6, 1, 0, 32, 0, 1, 2, 0, 33, 0, 1, 3, 0, 34, 0, 4, 4, 0, 38, 0, 1]
  {
    EntryIs(c[0], 26, 6);
    EntryIs(c[1], 32, 1);
    EntryIs(c[2], 33, 1);
    EntryIs(c[3], 34, 4);
    EntryIs(c[4], 38, 1);
    hide EntryBytes;
    assert c[1..][1..] == c[2..] && c[2..][1..] == c[3..] && c[3..][1..] == c[4..] && c[4..][1..] == [];
    assert OptionTable(c[4..], 38) == EntryBytes(c[4], 38) + OptionTable([], 39);
    assert OptionTable(c[3..], 34) == EntryBytes(c[3], 34) + OptionTable(c[4..], 38);
    assert OptionTable(c[2..], 33) == EntryBytes(c[2], 33) + OptionTable(c[3..], 34);
    assert OptionTable(c[1..], 32) == EntryBytes(c[1], 32) + OptionTable(c[2..], 33);
    assert OptionTable(c, 26) == EntryBytes(c[0], 26) + OptionTable(c[1..], 32);
  }

  lemma DataIs(c: seq<Choice>)
    requires |c| == 5
    ensures DataBytes(c) == c[0].data + c[1].data + c[2].data + c[3].data + c[4].data
  {
    var p := Datas(c);
    assert p[4..][1..] == p[5..] && Concat(p[5..]) == [];
    assert Concat(p[4..]) == p[4] + Concat(p[5..]);
    assert Concat(p[3..]) == p[3] + Concat(p[4..]) && p[3..][1..] == p[4..];
    assert Concat(p[2..]) == p[2] + Concat(p[3..]) && p[2..][1..] == p[3..];
    assert Concat(p[1..]) == p[1] + Concat(p[2..]) && p[1..][1..] == p[2..];
    assert Concat(p) == p[0] + Concat(p[1..]);
  }

  // ----- Tokens

  /** A text of at most 255 code units, and of at most 65535, behind its count. */
  lemma CountedIs(text: string)
    ensures |Units(text)| <= 255 ==> BVarcharBytes(text) == [|Units(text)|] + Utf16(text)
    ensures |Units(text)| <= 65535 ==> UsVarcharBytes(text) == Le(|Units(text)|, 2) + Utf16(text)
  {
    hide Le, Units, UnitBytes;
  }

  /** The tokens of one length. */
  lemma FixedTokensAre(d: Dialect, columns: seq<Column>, status: u16, rows: u64, code: i32)
    ensures TokenBytes(d, columns, Done(status, rows)) == [0xFD] + Le(status, 2) + [0, 0] + Le(rows, 8)
    ensures TokenBytes(d, columns, DoneProc(status, rows)) == [0xFE] + Le(status, 2) + [0, 0] + Le(rows, 8)
    ensures TokenBytes(d, columns, DoneInProc(status, rows)) == [0xFF] + Le(status, 2) + [0, 0] + Le(rows, 8)
    ensures TokenBytes(d, columns, ReturnStatus(code)) == [0x79] + Le(code % 0x1_0000_0000, 4)
  {
    Fillers();
    PowValues();
    hide Le;
  }

  /** The tokens behind a length, which is that of what follows it. */
  lemma BodyTokensAre(
    d: Dialect, columns: seq<Column>, kind: byte, current: string, previous: string, version: u32, note: Note)
    requires |NoteBytes(note)| <= 65535
    ensures var body := [kind] + BVarcharBytes(current) + BVarcharBytes(previous);
            TokenBytes(d, columns, EnvChange(kind, current, previous)) == [0xE3] + Le(|body|, 2) + body
    ensures var body := [1] + Be(version, 4) + BVarcharBytes(current) + [16, 0, 0, 0];
            TokenBytes(d, columns, LoginAck(version, current)) == [0xAD] + Le(|body|, 2) + body
    ensures TokenBytes(d, columns, Info(note)) == [0xAB] + Le(|NoteBytes(note)|, 2) + NoteBytes(note)
    ensures TokenBytes(d, columns, Error(note)) == [0xAA] + Le(|NoteBytes(note)|, 2) + NoteBytes(note)
    ensures NoteBytes(note) == Le(note.number % 0x1_0000_0000, 4) + [note.state, note.severity]
                               + UsVarcharBytes(note.text) + BVarcharBytes(note.server)
                               + BVarcharBytes(note.procedure) + Le(note.line, 4)
  {
    PowValues();
    EnvBodyShort(kind, current, previous);
    AckBodyShort(version, current);
    hide Le, Be, BVarcharBytes, UsVarcharBytes;
  }

  /** A column: no user type, nullable, its type, its name. No columns: a count of 65535. */
  lemma ColumnIs(d: Dialect, columns: seq<Column>, column: Column)
    ensures ColumnBytes(column) == [0, 0, 0, 0, 1, 0] + TypeInfoBytes(column.kind) + BVarcharBytes(column.name)
    ensures TokenBytes(d, columns, ColMetadata([])) == [0x81, 0xFF, 0xFF]
    ensures TokenBytes(d, columns, ColMetadata([column])) == [0x81, 1, 0] + ColumnBytes(column)
  {
    Fillers();
    hide Le, TypeInfoBytes, BVarcharBytes;
    assert ColumnsBytes([column]) == ColumnBytes(column) + ColumnsBytes([]);
  }

  /** The nine declarations. */
  lemma TypesAre(w: byte, max: u16)
    ensures TypeInfoBytes(IntN(w)) == [0x26, w] && TypeInfoBytes(Int) == [0x38] && TypeInfoBytes(BigInt) == [0x7F]
    ensures TypeInfoBytes(BitType) == [0x32] && TypeInfoBytes(BitN) == [0x68, 1]
    ensures TypeInfoBytes(NVarChar(max)) == [0xE7] + Le(max, 2) + [0, 0, 0, 0, 0]
    ensures TypeInfoBytes(VarChar(max)) == [0xA7] + Le(max, 2) + [0, 0, 0, 0, 0]
    ensures TypeInfoBytes(VarBinary(max)) == [0xA5] + Le(max, 2)
  {
  }

  // ----- Partially length-prefixed values

  /** Null is eight bytes of ones; a value is its length, then itself in chunks of 65535 bytes, then an empty one. */
  lemma {:induction false} ChunksAre(b: bytes)
    ensures |b| == 0 ==> ChunkBytes(Chunks(b, 65535)) == []
    ensures 0 < |b| <= 65535 ==> ChunkBytes(Chunks(b, 65535)) == Le(|b|, 4) + b
    ensures |b| > 65535 ==>
              ChunkBytes(Chunks(b, 65535)) == Le(65535, 4) + b[..65535] + ChunkBytes(Chunks(b[65535..], 65535))
  {
    hide Le;
    var chunks := Chunks(b, 65535);
    if 0 < |b| <= 65535 {
      assert chunks == [b] && chunks[1..] == [];
      assert ChunkBytes(chunks) == Le(|b|, 4) + b + ChunkBytes([]);
    } else if |b| > 65535 {
      assert chunks[1..] == Chunks(b[65535..], 65535);
    }
  }

  lemma PlpIs(b: bytes)
    ensures PlpBytes(None) == Le(0xFFFF_FFFF_FFFF_FFFF, 8)
    ensures PlpBytes(Some(b)) == Le(|b|, 8) + ChunkBytes(Chunks(b, 65535)) + [0, 0, 0, 0]
  {
    Fillers();
    hide Le, Chunks, ChunkBytes;
  }

  // ----- What a session says, as it is read

  /** The five tokens an accepted login is read as. */
  lemma WelcomeReadsAs(d: Dialect, database: string)
    requires |Units(database)| <= LONGEST_DATABASE
    ensures ReadRun(d, [], TokensBytes(d, [], WelcomeTokens(database))).complete
    ensures ReadRun(d, [], TokensBytes(d, [], WelcomeTokens(database))).tokens == [
              EnvChange(1, Cut(database, 255), "master"),
              Info(Note(5701, 1, 0, "Changed database context to '" + database + "'.", "", "", 1)),
              EnvChange(4, "4096", "4096"),
              LoginAck(0x7400_0004, "Microsoft SQL Server (xmip)"),
              Done(0, 0)
            ]
  {
    hide ReadRun, TokensBytes, Units, Cut, Decimal;
    NoteUnits("", database);
    WelcomeReadIs(d, database);
    DefaultInDecimal();
    var t := WelcomeRead(database);
    assert t[1] == Info(Note(5701, 1, 0, "Changed database context to '" + database + "'.", "", "", 1));
    assert t[2] == EnvChange(4, "4096", "4096");
    assert t[3] == LoginAck(0x7400_0004, "Microsoft SQL Server (xmip)");
  }

  /** The two a refused one is read as. */
  lemma RefusalReadsAs(d: Dialect, user: string)
    requires |Units(user)| <= LONGEST_USER
    ensures ReadRun(d, [], TokensBytes(d, [], RefusalTokens(user))).complete
    ensures ReadRun(d, [], TokensBytes(d, [], RefusalTokens(user))).tokens == [
              Error(Note(18456, 1, 14, "Login failed for user '" + user + "'.", "", "", 1)),
              Done(2, 0)
            ]
  {
    hide ReadRun, TokensBytes, Units, AllEncode, AllPlain;
    NoteUnits(user, "");
    RefusalEncodes(d, 18456, 14, FailedText(user));
    PlainRoundTrip(d, RefusalTokens(user));
  }

  /** The tokens a table is read as: NVARCHAR(MAX) columns, its rows, a counting DONE. */
  ghost predicate IsTableRead(tokens: seq<Token>, columns: seq<string>, rows: seq<seq<Cell>>) {
    && |tokens| == |rows| + 2
    && tokens[0].ColMetadata? && |tokens[0].columns| == |columns|
    && (forall i :: 0 <= i < |columns| ==> tokens[0].columns[i] == Column(Cut(columns[i], 255), NVarChar(65535)))
    && (forall i :: 0 <= i < |rows| ==> |columns| <= |rows[i]| && tokens[1 + i] == Row(rows[i][..|columns|]))
    && tokens[|rows| + 1].Done? && tokens[|rows| + 1].status == 0x10 && tokens[|rows| + 1].rows == |rows|
  }

  /** A table is read so, to its end. */
  lemma TableReadsAs(d: Dialect, columns: seq<string>, rows: seq<seq<Cell>>)
    requires Servable(Rows(columns, rows))
    ensures ReadRun(d, [], TokensBytes(d, [], AnswerTokens(Rows(columns, rows)))).complete
    ensures IsTableRead(ReadRun(d, [], TokensBytes(d, [], AnswerTokens(Rows(columns, rows)))).tokens, columns, rows)
  {
    hide ReadRun, TokensBytes, NormalTokens, AllEncode, TextColumns, CutNames, FirstCells, RowTokens, NormalColumns,
         LastInForce, IsTableRead, IsTextRow;
    TableComesAcross(d, columns, rows, Done(DONE_COUNT, |rows|));
    TokensBack(d, [], AnswerTokens(Rows(columns, rows)));
    assert NormalColumns([]) == [];
    TableTokensAre(columns, rows);
  }

  lemma TableTokensAre(columns: seq<string>, rows: seq<seq<Cell>>)
    requires Servable(Rows(columns, rows))
    ensures IsTableRead([ColMetadata(TextColumns(CutNames(columns)))] + RowTokens(FirstCells(|columns|, rows))
                        + [Done(DONE_COUNT, |rows|)], columns, rows)
  {
    hide TextColumns, CutNames, FirstCells, RowTokens, Cut, IsTextRow;
    forall i | 0 <= i < |rows|
      ensures |columns| <= |rows[i]| && FirstCells(|columns|, rows)[i] == rows[i][..|columns|]
    {
      assert IsTextRow(|columns|, rows[i]);
      RowIsLong(|columns|, rows[i]);
    }
  }

  /** A count is read as a counting DONE, and an error as itself, of severity 16, then a DONE that says so. */
  lemma OthersReadAs(d: Dialect, touched: u64, number: i32, message: string)
    requires |Units(message)| <= 32760
    ensures ReadRun(d, [], TokensBytes(d, [], AnswerTokens(Complete(touched)))).tokens == [Done(0x10, touched)]
    ensures ReadRun(d, [], TokensBytes(d, [], AnswerTokens(Refusal(number, message)))).tokens
         == [Error(Note(number, 1, 16, message, "", "", 1)), Done(2, 0)]
  {
    hide ReadRun, TokensBytes, Units, AllEncode, AllPlain;
    AnswerEncodes(d, Complete(touched));
    PlainRoundTrip(d, AnswerTokens(Complete(touched)));
    AnswerEncodes(d, Refusal(number, message));
    PlainRoundTrip(d, AnswerTokens(Refusal(number, message)));
  }
}

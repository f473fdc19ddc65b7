/** How many bytes the messages of a login take, counted in the code units of its texts. */
module Sizes {
  import opened Bytes
  import opened Column
  import opened Dialect
  import opened Exchange
  import opened Login
  import opened LoginTable
  import opened Prelogin
  import opened Runs
  import opened Session
  import opened Streams
  import opened Text
  import opened Tiling
  import opened Token
  import opened Wire

  /** A login with empty texts: the fixed part, and the names of program and library. */
  const LOGIN_BASE: nat := 160
  /** What a welcome takes besides the database's name, which it gives twice. */
  const WELCOME_BASE: nat := 199

  /** What a length field has room for besides the rest of the refusal, and of the welcome's note. */
  const LONGEST_USER: nat := 32735
  const LONGEST_DATABASE: nat := 32729

  function LoginSize(login: Login, database: string): nat {
    LOGIN_BASE + 2 * (|Units(login.user)| + |Units(login.password)| + |Units(database)|)
  }

  /** Where the database, the last of a login's fields, begins. */
  function DatabaseOffset(login: Login): nat {
    LOGIN_BASE + 2 * (|Units(login.user)| + |Units(login.password)|)
  }

  function WelcomeSize(database: string): nat {
    WELCOME_BASE + 2 * Min(|Units(database)|, 0xFF) + 2 * |Units(database)|
  }

  /** Text within the basic plane takes one code unit a character. */
  lemma {:induction false} PlainUnits(text: string)
    requires forall i :: 0 <= i < |text| ==> text[i] as int < 0x1_0000
    ensures |Units(text)| == |text|
  {
    if |text| > 0 {
      PlainUnits(text[1..]);
    }
  }

  lemma NineOffsets(fields: seq<bytes>)
    requires |fields| == FIELDS
    ensures Before(fields, 0) == 0 && Before(fields, FIELDS) == |Concat(fields)|
    ensures forall i :: 0 <= i < FIELDS ==> Before(fields, i + 1) == Before(fields, i) + |fields[i]|
  {
    hide Concat;
    BeforeIs(fields, FIELDS);
    assert fields[..FIELDS] == fields;
  }

  /** A field is two bytes a code unit. */
  lemma FieldSizes(l: Login7)
    ensures |Fields(l)[0]| == 2 * |Units(l.hostname)| && |Fields(l)[1]| == 2 * |Units(l.login.user)|
    ensures |Fields(l)[2]| == 2 * |Units(l.login.password)| && |Fields(l)[3]| == 2 * |Units(l.appName)|
    ensures |Fields(l)[4]| == 2 * |Units(l.serverName)| && |Fields(l)[5]| == 0
    ensures |Fields(l)[6]| == 2 * |Units(l.library)| && |Fields(l)[7]| == 2 * |Units(l.language)|
    ensures |Fields(l)[8]| == 2 * |Units(l.database)|
  {
    hide Units, Obscure;
  }

  /** The fields of the login a client sends. */
  function NewFields(login: Login, database: string): (fields: seq<bytes>)
    ensures |fields| == FIELDS
  {
    Fields(NewLogin7(login, database))
  }

  /** Field `i` is as long as what stands in its place says. */
  ghost predicate AreSizes(fields: seq<bytes>, user: nat, password: nat, database: nat)
    requires |fields| == FIELDS
  {
    && |fields[0]| == 8 && |fields[1]| == 2 * user && |fields[2]| == 2 * password && |fields[3]| == 8
    && |fields[4]| == 0 && |fields[5]| == 0 && |fields[6]| == 50 && |fields[7]| == 0
    && |fields[8]| == 2 * database
  }

  lemma NewFieldSizes(login: Login, database: string)
    ensures AreSizes(NewFields(login, database), |Units(login.user)|, |Units(login.password)|, |Units(database)|)
  {
    hide Units, Fields;
    FieldSizes(NewLogin7(login, database));
    PlainUnits("xmip");
    PlainUnits("xmip-core-transport-mssql");
    PlainUnits("");
  }

  /** The last field begins at `offset`, no other further back, and all end at `size`. */
  ghost predicate AreOffsets(fields: seq<bytes>, offset: nat, size: nat)
    requires |fields| == FIELDS
  {
    && (forall i :: 0 <= i < FIELDS - 1 ==> Before(fields, i) <= Before(fields, FIELDS - 1))
    && FIXED_LENGTH + Before(fields, FIELDS - 1) == offset
    && FIXED_LENGTH + |Concat(fields)| == size
  }

  lemma NewFieldOffsets(login: Login, database: string)
    ensures AreOffsets(NewFields(login, database), DatabaseOffset(login), LoginSize(login, database))
  {
    hide Units, NewFields, Before, Concat;
    var fields := NewFields(login, database);
    NewFieldSizes(login, database);
    NineOffsets(fields);
    SumsOfNine(fields);
  }

  lemma SumsOfNine(fields: seq<bytes>)
    requires |fields| == FIELDS && Before(fields, 0) == 0
    requires forall i :: 0 <= i < FIELDS ==> Before(fields, i + 1) == Before(fields, i) + |fields[i]|
    ensures forall i :: 0 <= i < FIELDS - 1 ==> Before(fields, i) <= Before(fields, FIELDS - 1)
    ensures Before(fields, FIELDS - 1) == |fields[0]| + |fields[1]| + |fields[2]| + |fields[3]| + |fields[4]|
                                        + |fields[5]| + |fields[6]| + |fields[7]|
    ensures Before(fields, FIELDS) == Before(fields, FIELDS - 1) + |fields[8]|
  {
    hide Before;
    assert Before(fields, 0 + 1) == |fields[0]|;
    assert Before(fields, 1 + 1) == |fields[0]| + |fields[1]|;
    assert Before(fields, 2 + 1) == Before(fields, 2) + |fields[2]|;
    assert Before(fields, 3 + 1) == Before(fields, 3) + |fields[3]|;
    assert Before(fields, 4 + 1) == Before(fields, 4) + |fields[4]|;
    assert Before(fields, 5 + 1) == Before(fields, 5) + |fields[5]|;
    assert Before(fields, 6 + 1) == Before(fields, 6) + |fields[6]|;
    assert Before(fields, 7 + 1) == Before(fields, 7) + |fields[7]|;
    assert Before(fields, 8 + 1) == Before(fields, 8) + |fields[8]|;
  }

  lemma LoginSizeIs(login: Login, database: string)
    ensures LoginLength(NewLogin7(login, database)) == LoginSize(login, database)
  {
    hide Fields, NewLogin7, Before, Concat, LoginSize, DatabaseOffset;
    NewFieldOffsets(login, database);
  }

  lemma TableFitsExactly(fields: seq<bytes>, offset: nat, size: nat)
    requires |fields| == FIELDS && AreOffsets(fields, offset, size)
    requires forall i :: 0 <= i < FIELDS - 1 ==> |fields[i]| / 2 <= offset
    ensures FitsTable(fields) <==> offset <= U16_MAX && |fields[FIELDS - 1]| / 2 <= U16_MAX
  {
    hide Before, Concat;
    assert FieldOffset(fields, FIELDS - 1) == offset;
  }

  /**
   * The table of a login a client sends saturates nowhere exactly when its database begins where
   * an offset can say, and has no more code units than a count can say.
   */
  lemma AddressableExactly(login: Login, database: string)
    ensures Addressable(NewLogin7(login, database))
       <==> DatabaseOffset(login) <= U16_MAX && |Units(database)| <= U16_MAX
  {
    hide Units, Fields, NewLogin7, AreOffsets, FitsTable;
    NewFieldSizes(login, database);
    NewFieldOffsets(login, database);
    TableFitsExactly(NewFields(login, database), DatabaseOffset(login), LoginSize(login, database));
  }

  lemma WrappedUnits(before: string, text: string, after: string)
    ensures |Units(before + text + after)| == |Units(before)| + |Units(text)| + |Units(after)|
  {
    hide Units;
    UnitsConcat(before + text, after);
    UnitsConcat(before, text);
  }

  lemma BVarcharLength(text: string)
    ensures |BVarcharBytes(text)| == 1 + 2 * Min(|Units(text)|, 0xFF)
  {
    hide Units;
  }

  lemma NoteSize(d: Dialect, columns: seq<Column>, note: Note)
    requires note.server == "" && note.procedure == ""
    ensures |TokenBytes(d, columns, Error(note))| == 17 + 2 * Min(|Units(note.text)|, U16_MAX)
    ensures |TokenBytes(d, columns, Info(note))| == 17 + 2 * Min(|Units(note.text)|, U16_MAX)
  {
    hide NoteBytes, Units;
    NoteLength(note);
  }

  lemma DoneSize(d: Dialect, columns: seq<Column>, status: u16)
    ensures |TokenBytes(d, columns, Done(status, 0))| == 13
  {
  }

  lemma EnvSize(d: Dialect, columns: seq<Column>, kind: byte, current: string, previous: string)
    ensures |TokenBytes(d, columns, EnvChange(kind, current, previous))|
         == 6 + 2 * Min(|Units(current)|, 0xFF) + 2 * Min(|Units(previous)|, 0xFF)
  {
    hide BVarcharBytes, Units;
    BVarcharLength(current);
    BVarcharLength(previous);
  }

  lemma AckSize(d: Dialect, columns: seq<Column>, version: u32, program: string)
    ensures |TokenBytes(d, columns, LoginAck(version, program))| == 13 + 2 * Min(|Units(program)|, 0xFF)
  {
    hide BVarcharBytes, Units, Be;
    BVarcharLength(program);
  }

  lemma RefusalSizeIs(d: Dialect, user: string)
    requires 25 + |Units(user)| <= U16_MAX
    ensures |TokensBytes(d, [], RefusalTokens(user))| == 80 + 2 * |Units(user)|
  {
    hide TokenBytes, TokensBytes, Units;
    var t := RefusalTokens(user);
    WrappedUnits("Login failed for user '", user, "'.");
    PlainUnits("Login failed for user '");
    PlainUnits("'.");
    NoteSize(d, [], NewNote(LOGIN_FAILED, 14, FailedText(user)));
    DoneSize(d, [], DONE_ERROR);
    assert t == [t[0]] + [t[1]] && [t[1]] == [t[1]] + [];
    ConcatSizes(d, t[0], [t[1]]);
    ConcatSizes(d, t[1], []);
    NoTokens(d);
  }

  lemma ConcatSizes(d: Dialect, first: Token, rest: seq<Token>)
    requires !first.ColMetadata?
    ensures |TokensBytes(d, [], [first] + rest)| == |TokenBytes(d, [], first)| + |TokensBytes(d, [], rest)|
  {
    hide TokenBytes;
    assert ([first] + rest)[1..] == rest;
  }

  lemma FiveSizes(d: Dialect, t: seq<Token>)
    requires |t| == 5 && forall i :: 0 <= i < 5 ==> !t[i].ColMetadata?
    ensures |TokensBytes(d, [], t)|
         == |TokenBytes(d, [], t[0])| + |TokenBytes(d, [], t[1])| + |TokenBytes(d, [], t[2])|
          + |TokenBytes(d, [], t[3])| + |TokenBytes(d, [], t[4])|
  {
    hide TokenBytes, TokensBytes;
    NoTokens(d);
    ConcatSizes(d, t[4], []);
    ConcatSizes(d, t[3], [t[4]] + []);
    ConcatSizes(d, t[2], [t[3]] + ([t[4]] + []));
    ConcatSizes(d, t[1], [t[2]] + ([t[3]] + ([t[4]] + [])));
    ConcatSizes(d, t[0], [t[1]] + ([t[2]] + ([t[3]] + ([t[4]] + []))));
    assert t == [t[0]] + ([t[1]] + ([t[2]] + ([t[3]] + ([t[4]] + []))));
  }

  lemma ContextSize(d: Dialect, database: string)
    requires 31 + |Units(database)| <= U16_MAX
    ensures |TokenBytes(d, [], Info(NewNote(CONTEXT_CHANGED, 0, ContextText(database))))| == 79 + 2 * |Units(database)|
  {
    hide TokenBytes, Units;
    WrappedUnits("Changed database context to '", database, "'.");
    PlainUnits("Changed database context to '");
    PlainUnits("'.");
    NoteSize(d, [], NewNote(CONTEXT_CHANGED, 0, ContextText(database)));
  }

  lemma WelcomeSizeIs(d: Dialect, database: string)
    requires 31 + |Units(database)| <= U16_MAX
    ensures |TokensBytes(d, [], WelcomeTokens(database))| == WelcomeSize(database)
  {
    hide TokenBytes, TokensBytes, Units, Decimal, ContextText;
    FiveSizes(d, WelcomeTokens(database));
    PlainUnits("master");
    EnvSize(d, [], ENV_DATABASE, database, "master");
    ContextSize(d, database);
    DefaultInDecimal();
    PlainUnits("4096");
    EnvSize(d, [], ENV_PACKET_SIZE, "4096", "4096");
    PlainUnits(SETTLED.program);
    AckSize(d, [], TDS_7_4, SETTLED.program);
    DoneSize(d, [], 0);
  }

  lemma NoTokens(d: Dialect)
    ensures TokensBytes(d, [], []) == []
  {
  }

  lemma NoteUnits(user: string, database: string)
    ensures |Units(FailedText(user))| == 25 + |Units(user)|
    ensures |Units(ContextText(database))| == 31 + |Units(database)|
  {
    hide Units;
    WrappedUnits("Login failed for user '", user, "'.");
    WrappedUnits("Changed database context to '", database, "'.");
    PlainUnits("Login failed for user '");
    PlainUnits("Changed database context to '");
    PlainUnits("'.");
  }

  /** The notes a login can be answered with fit their length fields exactly up to these limits. */
  lemma NotesFitExactly(d: Dialect, user: string, database: string)
    ensures AllEncode(d, [], RefusalTokens(user)) <==> |Units(user)| <= LONGEST_USER
    ensures AllEncode(d, [], WelcomeTokens(database)) <==> |Units(database)| <= LONGEST_DATABASE
  {
    hide Units, NoteBytes, FailedText, ContextText, Decimal;
    NoteUnits(user, database);
    NoteLength(NewNote(LOGIN_FAILED, 14, FailedText(user)));
    NoteLength(NewNote(CONTEXT_CHANGED, 0, ContextText(database)));
    if |Units(user)| <= LONGEST_USER {
      RefusalEncodes(d, LOGIN_FAILED, 14, FailedText(user));
    } else {
      assert !Encodes(d, [], RefusalTokens(user)[0]);
    }
    if |Units(database)| <= LONGEST_DATABASE {
      WelcomeEncodes(d, database);
    } else {
      assert !Encodes(d, [], WelcomeTokens(database)[1..][0]);
    }
  }

  /** Pre-logins that name no instance are small. */
  lemma PreloginSizes()
    ensures |PreloginBytes(DEFAULT)| <= LOGIN_BASE && |PreloginBytes(ServerHello())| <= LOGIN_BASE
  {
    PlainUtf8();
  }

  lemma PlainUtf8()
    ensures Utf8("") == []
  {
  }
}

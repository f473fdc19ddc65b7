/** A session's calls, and what they make of any bytes a client sends. */
module Session {
  import opened Batch
  import opened Bytes
  import opened Column
  import opened Dialect
  import opened Framing
  import opened Login
  import opened Prelogin
  import opened Text
  import opened Token
  import opened Wire
  import opened Wrappers

  const LOGIN_FAILED: i32 := 18456
  const SYNTAX_ERROR: i32 := 102
  const CONTEXT_CHANGED: i32 := 5701

  /** What a batch is reported as. */
  datatype Event = Selected(sql: string) | Inserted(origin: string, stored: bytes) | Executed(sql: string)

  /** Rows, a bare count, or an error. */
  datatype Answer =
    | Rows(columns: seq<string>, rows: seq<seq<Cell>>)
    | Complete(touched: u64)
    | Refusal(number: i32, message: string)

  /**
   * What a session serves: a fixed table, and ahead of it an answering function, which knows
   * the batches it was asked before.
   */
  datatype Service = Service(
    d: Dialect,
    ceiling: nat,
    peer: string,
    columns: seq<string>,
    rows: seq<seq<Cell>>,
    answering: (seq<string>, string) -> Option<Answer>)

  // ----- The login

  /** What the server answers a pre-login with. */
  function ServerHello(): Prelogin {
    DEFAULT.(version := [16, 0, 4, 0, 0, 0])
  }

  predicate Refuses(expected: Option<Login>, presented: Login) {
    expected.Some?
    && (expected.value.user != presented.user || Utf8(expected.value.password) != Utf8(presented.password))
  }

  /** A login is refused exactly when one is expected and it is not that one. */
  lemma RefusesExactly(expected: Option<Login>, presented: Login)
    ensures Refuses(expected, presented) <==> expected.Some? && expected.value != presented
  {
    if expected.Some? {
      Utf8Back(expected.value.password);
      Utf8Back(presented.password);
    }
  }

  function FailedText(user: string): string {
    "Login failed for user '" + user + "'."
  }

  function ContextText(database: string): string {
    "Changed database context to '" + database + "'."
  }

  function RefusalTokens(user: string): seq<Token> {
    [Error(NewNote(LOGIN_FAILED, 14, FailedText(user))), Done(DONE_ERROR, 0)]
  }

  function WelcomeTokens(database: string): seq<Token> {
    [
      EnvChange(ENV_DATABASE, database, "master"),
      Info(NewNote(CONTEXT_CHANGED, 0, ContextText(database))),
      EnvChange(ENV_PACKET_SIZE, Decimal(DEFAULT_PACKET_SIZE), Decimal(DEFAULT_PACKET_SIZE)),
      LoginAck(TDS_7_4, "Microsoft SQL Server (xmip)"),
      Done(0, 0)
    ]
  }

  // ----- A batch

  /** How the batch `sql` is answered after the batches `asked`, and what it was. */
  function AnswerTo(service: Service, database: string, asked: seq<string>, sql: string): (Answer, Event) {
    match service.answering(asked, sql)
    case Some(answer) => (answer, Executed(sql))
    case None =>
      match service.d.verbOf(sql)
      case Select => (Rows(service.columns, service.rows), Selected(sql))
      case Insert =>
        (match service.d.parseInsert(sql)
         case Some(i) =>
           (Complete(1),
            Inserted("mssql://" + service.peer + "/" + database + "/" + i.table + "/" + i.column, i.stored))
         case None => (Refusal(SYNTAX_ERROR, "only INSERT INTO t (c) VALUES (...) is served here"), Executed(sql)))
      case OtherVerb => (Complete(0), Executed(sql))
  }

  function TextColumns(names: seq<string>): (columns: seq<Column>)
    ensures |columns| == |names|
    ensures forall i :: 0 <= i < |names| ==> columns[i] == TextColumn(names[i])
  {
    if |names| == 0 then [] else [TextColumn(names[0])] + TextColumns(names[1..])
  }

  function RowTokens(rows: seq<seq<Cell>>): (tokens: seq<Token>)
    ensures |tokens| == |rows|
    ensures forall i :: 0 <= i < |rows| ==> tokens[i] == Row(rows[i])
  {
    if |rows| == 0 then [] else [Row(rows[0])] + RowTokens(rows[1..])
  }

  function AnswerTokens(answer: Answer): seq<Token> {
    match answer
    case Rows(columns, rows) =>
      [ColMetadata(TextColumns(columns))] + RowTokens(rows) + [Done(DONE_COUNT, |rows| % 0x1_0000_0000_0000_0000)]
    case Complete(touched) => [Done(DONE_COUNT, touched)]
    case Refusal(number, message) => [Error(NewNote(number, 16, message)), Done(DONE_ERROR, 0)]
  }

  // ----- The session message by message

  /** Where a session stands. */
  datatype Stage =
    | AwaitsHello
    | AwaitsLogin
    | Serving(login: Login7, asked: seq<string>, events: seq<Event>)
    | TurnedAway(login: Login7)
    | Broken
    | Ended(login: Login7, asked: seq<string>, events: seq<Event>)

  function AnswerMessage(d: Dialect, tokens: seq<Token>): bytes {
    MessageBytes(TABULAR_RESULT, TokensBytes(d, [], tokens), DEFAULT_PACKET_SIZE)
  }

  /** The stage a message leads to and the bytes it is answered with. */
  function React(service: Service, expected: Option<Login>, stage: Stage, kind: byte, body: bytes): (Stage, bytes) {
    match stage
    case AwaitsHello =>
      if kind == PRELOGIN && PreloginOf(body).Some? then
        (AwaitsLogin, MessageBytes(TABULAR_RESULT, PreloginBytes(ServerHello()), DEFAULT_PACKET_SIZE))
      else (Broken, [])
    case AwaitsLogin =>
      if kind == LOGIN7 && LoginOf(body).Some? then
        var login := LoginOf(body).value;
        if Refuses(expected, login.login) then
          (TurnedAway(login), AnswerMessage(service.d, RefusalTokens(login.login.user)))
        else (Serving(login, [], []), AnswerMessage(service.d, WelcomeTokens(login.database)))
      else (Broken, [])
    case Serving(login, asked, events) =>
      if kind == SQL_BATCH && BatchText(body).Some? then
        var sql := BatchText(body).value;
        var (answer, event) := AnswerTo(service, login.database, asked, sql);
        (Serving(login, asked + [sql], events + [event]), AnswerMessage(service.d, AnswerTokens(answer)))
      else (Broken, [])
    case _ => (stage, [])
  }

  predicate Reads(stage: Stage) {
    stage.AwaitsHello? || stage.AwaitsLogin? || stage.Serving?
  }

  /** What reading one message, or failing to, makes of a session. */
  datatype Turn = Turn(stage: Stage, sent: bytes, rest: bytes)

  /** One read off the bytes `s` the client sends: a close ends a session that is serving and breaks any other. */
  function Advance(service: Service, expected: Option<Login>, stage: Stage, s: bytes): Turn
    requires Reads(stage)
  {
    match ReadMessage(s, service.ceiling)
    case Closed => Turn(if stage.Serving? then Ended(stage.login, stage.asked, stage.events) else Broken, [], [])
    case Refused => Turn(Broken, [], [])
    case Message(kind, body, rest) =>
      var (next, sent) := React(service, expected, stage, kind, body);
      Turn(next, sent, rest)
  }

  /** The events and bytes of serving `s` to its end; no events where it breaks off. */
  function ServeRun(service: Service, login: Login7, asked: seq<string>, s: bytes): (Option<seq<Event>>, bytes)
    decreases |s|
  {
    match ReadMessage(s, service.ceiling)
    case Closed => (Some([]), [])
    case Refused => (None, [])
    case Message(kind, body, rest) =>
      if kind != SQL_BATCH || BatchText(body).None? then (None, [])
      else
        MessageShrinks(s, service.ceiling);
        var sql := BatchText(body).value;
        var (answer, event) := AnswerTo(service, login.database, asked, sql);
        var (more, sent) := ServeRun(service, login, asked + [sql], rest);
        (match more case None => None case Some(events) => Some([event] + events),
         AnswerMessage(service.d, AnswerTokens(answer)) + sent)
  }

  /** What was reported and sent so far, and a run behind it. */
  function Joined(events: seq<Event>, sent: bytes, run: (Option<seq<Event>>, bytes)): (Option<seq<Event>>, bytes) {
    (match run.0 case None => None case Some(more) => Some(events + more), sent + run.1)
  }

  lemma JoinedIs(sent: bytes, run: (Option<seq<Event>>, bytes))
    ensures Joined([], sent, run) == (run.0, sent + run.1)
  {
    if run.0.Some? {
      assert [] + run.0.value == run.0.value;
    }
  }

  /** Serving goes on from where one read of the stream leaves it. */
  lemma ServeAhead(service: Service, login: Login7, asked: seq<string>, s: bytes, events: seq<Event>, sent: bytes)
    ensures var turn := Advance(service, None, Serving(login, asked, []), s);
            Joined(events, sent, ServeRun(service, login, asked, s)) ==
            match turn.stage
            case Serving(_, all, news) =>
              Joined(events + news, sent + turn.sent, ServeRun(service, login, all, turn.rest))
            case Ended(_, _, _) => (Some(events), sent + turn.sent)
            case _ => (None, sent + turn.sent)
    ensures var turn := Advance(service, None, Serving(login, asked, []), s);
            turn.stage.Serving? ==> |turn.rest| < |s| && |turn.stage.events| == 1
  {
    hide ReadMessage, BatchText, AnswerMessage, AnswerTo, AnswerTokens;
    if ReadMessage(s, service.ceiling).Message? {
      MessageShrinks(s, service.ceiling);
    }
    var turn := Advance(service, None, Serving(login, asked, []), s);
    assert sent + [] == sent && events + [] == events;
    if turn.stage.Serving? {
      var (more, ahead) := ServeRun(service, login, turn.stage.asked, turn.rest);
      var event := turn.stage.events[0];
      Assoc(sent, turn.sent, ahead);
      assert turn.stage.events == [event];
      if more.Some? {
        assert events + ([event] + more.value) == events + [event] + more.value;
      }
    }
  }

  // ----- The session itself

  class Session {
    const service: Service
    const reader: Reader
    /** Everything written to the client so far. */
    var sent: bytes
    var login: Login7
    /** The batches the answering function was asked. */
    var asked: seq<string>

    ghost predicate Valid()
      reads this, reader
    {
      reader.Valid()
    }

    /** The bytes of the client's that are still to be read. */
    ghost function Ahead(): bytes
      requires Valid()
      reads this, reader
    {
      reader.Rest()
    }

    constructor (service: Service, reader: Reader)
      requires reader.Valid()
      ensures Valid() && this.service == service && this.reader == reader
      ensures sent == [] && asked == []
    {
      this.service := service;
      this.reader := reader;
      sent := [];
      login := NewLogin7(Login("", ""), "");
      asked := [];
    }

    method Write(kind: byte, payload: bytes)
      modifies this
      ensures sent == old(sent) + MessageBytes(kind, payload, DEFAULT_PACKET_SIZE)
      ensures login == old(login) && asked == old(asked)
    {
      var message := Packets(kind, payload, DEFAULT_PACKET_SIZE);
      sent := sent + message;
    }

    method WriteTokens(tokens: seq<Token>)
      modifies this
      ensures sent == old(sent) + AnswerMessage(service.d, tokens)
      ensures login == old(login) && asked == old(asked)
    {
      var payload := EncodeTokens(service.d, tokens);
      Write(TABULAR_RESULT, payload);
    }

    /** Takes one message off what is ahead, and yields its payload if its type is `kind`. */
    method Read(kind: byte) returns (r: Result<bytes>)
      requires Valid()
      modifies reader
      ensures Valid()
      ensures match ReadMessage(old(Ahead()), service.ceiling)
              case Message(got, body, rest) => if got == kind then r == Ok(body) && Ahead() == rest else r.Err?
              case _ => r.Err?
    {
      var read :- ReceiveMessage(reader, service.ceiling);
      match read {
        case None => r := Err;
        case Some((got, body)) => r := if got == kind then Ok(body) else Err;
      }
    }

    /** The pre-login answered. */
    method Greet() returns (r: Result<()>)
      requires Valid()
      modifies this, reader
      ensures Valid() && login == old(login) && asked == old(asked)
      ensures var turn := Advance(service, None, AwaitsHello, old(Ahead()));
              && sent == old(sent) + turn.sent
              && (r.Ok? <==> turn.stage.AwaitsLogin?)
              && (r.Ok? ==> Ahead() == turn.rest)
    {
      hide ReadMessage, PreloginOf, PreloginBytes, MessageBytes;
      assert sent + [] == sent;
      var hello :- Read(PRELOGIN);
      var _ :- ReadPrelogin(hello);
      var answer := EncodePrelogin(ServerHello());
      Write(TABULAR_RESULT, answer);
      r := Ok(());
    }

    /** Takes the two messages of a login, and holds the login unless `expected` refuses it. */
    method Accept(expected: Option<Login>) returns (r: Result<()>)
      requires Valid() && sent == [] && asked == []
      modifies this, reader
      ensures Valid() && asked == []
      ensures var first := Advance(service, expected, AwaitsHello, old(Ahead()));
              if !first.stage.AwaitsLogin? then r.Err? && sent == first.sent
              else
                var second := Advance(service, expected, AwaitsLogin, first.rest);
                && sent == first.sent + second.sent
                && (r.Ok? <==> second.stage.Serving?)
                && (r.Ok? ==> login == second.stage.login && Ahead() == second.rest)
    {
      hide ReadMessage, PreloginOf, PreloginBytes, LoginOf, MessageBytes, TokensBytes, Refuses,
           WelcomeTokens, RefusalTokens;
      assert Advance(service, expected, AwaitsHello, Ahead()) == Advance(service, None, AwaitsHello, Ahead());
      var _ :- Greet();
      assert sent + [] == sent;
      var body :- Read(LOGIN7);
      var presented :- ReadLogin7(body);
      login := presented;
      if Refuses(expected, presented.login) {
        WriteTokens(RefusalTokens(presented.login.user));
        return Err;
      }
      WriteTokens(WelcomeTokens(presented.database));
      r := Ok(());
    }

    /** Takes one batch, writes what `AnswerTo` says of it, and yields its event; none at the end. */
    method NextEvent() returns (r: Result<Option<Event>>)
      requires Valid()
      modifies this, reader
      ensures Valid() && login == old(login)
      ensures var turn := Advance(service, None, Serving(login, old(asked), []), old(Ahead()));
              && sent == old(sent) + turn.sent
              && match turn.stage
                 case Serving(_, all, events) => r == Ok(Some(events[0])) && asked == all && Ahead() == turn.rest
                 case Ended(_, _, _) => r == Ok(None) && asked == old(asked) && Ahead() == []
                 case _ => r.Err? && asked == old(asked)
    {
      hide ReadMessage, BatchText, MessageBytes, TokensBytes, AnswerTo, AnswerTokens;
      assert sent + [] == sent;
      var read :- ReceiveMessage(reader, service.ceiling);
      match read {
        case None => r := Ok(None);
        case Some((kind, body)) => {
          if kind != SQL_BATCH {
            return Err;
          }
          var sql :- ReadBatch(body);
          var (answer, event) := AnswerTo(service, login.database, asked, sql);
          asked := asked + [sql];
          WriteTokens(AnswerTokens(answer));
          r := Ok(Some(event));
        }
      }
    }

    /** The events `ServeRun` says, with its bytes written. */
    method Serve() returns (r: Result<seq<Event>>)
      requires Valid()
      modifies this, reader
      ensures Valid() && login == old(login)
      ensures var (events, out) := ServeRun(service, login, old(asked), old(Ahead()));
              && sent == old(sent) + out
              && r == match events case None => Err case Some(all) => Ok(all)
    {
      hide ServeRun, Joined, ReadMessage, React;
      var events: seq<Event> := [];
      ghost var whole := ServeRun(service, login, asked, Ahead());
      JoinedIs(sent, whole);
      while true
        invariant Valid() && login == old(login)
        invariant Joined([], old(sent), whole) == Joined(events, sent, ServeRun(service, login, asked, Ahead()))
        decreases |Ahead()|
      {
        ServeAhead(service, login, asked, Ahead(), events, sent);
        ghost var turn := Advance(service, None, Serving(login, asked, []), Ahead());
        var next := NextEvent();
        assert turn.stage.Serving? ==> turn.stage.events == [next.value.value];
        if next.Err? {
          return Err;
        }
        if next.value.None? {
          break;
        }
        events := events + [next.value.value];
      }
      r := Ok(events);
    }
  }
}

/** What a batch, an answer and a login come to, told from the service and the tokens themselves. */
module Outcomes {
  import opened Batch
  import opened Bytes
  import opened Client
  import opened Column
  import opened Dialect
  import opened Exchange
  import Framing
  import opened Login
  import opened Prelogin
  import opened Runs
  import opened Session
  import opened Text
  import opened Token
  import opened Wire
  import opened Wrappers

  // ----- Batches

  /** The outcome is a table of these columns and rows: names and rows cut, the count that of the rows. */
  ghost predicate IsTableOutcome(outcome: Outcome<QueryResult>, columns: seq<string>, rows: seq<seq<Cell>>) {
    && outcome.Success?
    && |outcome.value.columns| == |columns|
    && (forall i :: 0 <= i < |columns| ==> outcome.value.columns[i] == Cut(columns[i], 255))
    && |outcome.value.rows| == |rows|
    && (forall i :: 0 <= i < |rows| ==> |columns| <= |rows[i]| && outcome.value.rows[i] == rows[i][..|columns|])
    && outcome.value.rowsAffected == |rows|
  }

  /**
   * What the batch `sql`, asked after `before`, is to come back with: what the answering function
   * says where it says anything; else the service's own table for a SELECT, a count of one for
   * an INSERT that parses, an error 102 for one that does not, and a count of none for the rest.
   */
  ghost predicate OutcomeHolds(service: Service, before: seq<string>, sql: string, outcome: Outcome<QueryResult>) {
    match service.answering(before, sql)
    case Some(Rows(columns, rows)) => IsTableOutcome(outcome, columns, rows)
    case Some(Complete(touched)) => outcome == Success(QueryResult([], [], touched))
    case Some(Refusal(number, message)) => outcome == Failure(Answered(number, message))
    case None =>
      && (service.d.verbOf(sql) == Select ==> IsTableOutcome(outcome, service.columns, service.rows))
      && (service.d.verbOf(sql) == Insert ==>
            outcome == if service.d.parseInsert(sql).Some? then Success(QueryResult([], [], 1))
                       else Failure(Answered(102, "only INSERT INTO t (c) VALUES (...) is served here")))
      && (service.d.verbOf(sql) == OtherVerb ==> outcome == Success(QueryResult([], [], 0)))
  }

  /**
   * What it is to be reported as: run, unless the answering function passes it on and it is a
   * SELECT, or an INSERT that parses; that one with where it came from and what was stored.
   */
  ghost predicate EventHolds(service: Service, database: string, before: seq<string>, sql: string, event: Event) {
    var d := service.d;
    if service.answering(before, sql).Some? then event == Executed(sql)
    else if d.verbOf(sql) == Select then event == Selected(sql)
    else if d.verbOf(sql) == Insert && d.parseInsert(sql).Some? then
      var i := d.parseInsert(sql).value;
      event == Inserted("mssql://" + service.peer + "/" + database + "/" + i.table + "/" + i.column, i.stored)
    else event == Executed(sql)
  }

  lemma TableOutcomeIs(columns: seq<string>, rows: seq<seq<Cell>>)
    requires Servable(Rows(columns, rows))
    ensures IsTableOutcome(ExpectedOutcome(Rows(columns, rows)), columns, rows)
  {
    hide Cut;
    forall i | 0 <= i < |rows|
      ensures |columns| <= |rows[i]| && FirstCells(|columns|, rows)[i] == rows[i][..|columns|]
    {
      assert IsTextRow(|columns|, rows[i]);
    }
  }

  lemma OutcomeIsHeld(service: Service, database: string, before: seq<string>, sql: string)
    requires Servable(AnswerTo(service, database, before, sql).0)
    ensures OutcomeHolds(service, before, sql, ExpectedOutcome(AnswerTo(service, database, before, sql).0))
  {
    hide IsTableOutcome, IsTextRow, CutNames, FirstCells;
    var answer := AnswerTo(service, database, before, sql).0;
    if answer.Rows? {
      TableOutcomeIs(answer.columns, answer.rows);
    }
  }

  lemma EventIsHeld(service: Service, database: string, before: seq<string>, sql: string)
    ensures EventHolds(service, database, before, sql, AnswerTo(service, database, before, sql).1)
  {
  }

  /** A session's answer comes to what is told of it above, and so does its event. */
  lemma AnswerHolds(service: Service, database: string, before: seq<string>, sql: string)
    ensures var (answer, event) := AnswerTo(service, database, before, sql);
            && (Servable(answer) ==> OutcomeHolds(service, before, sql, ExpectedOutcome(answer)))
            && EventHolds(service, database, before, sql, event)
  {
    hide AnswerTo, Servable, ExpectedOutcome, OutcomeHolds, EventHolds;
    EventIsHeld(service, database, before, sql);
    if Servable(AnswerTo(service, database, before, sql).0) {
      OutcomeIsHeld(service, database, before, sql);
    }
  }

  // ----- The count, the names and the rows of a batch

  /** The bit worth 16 is set: above it stand any bits, and below it four. */
  predicate HasSixteen(status: int, above: nat, below: nat) {
    below < 16 && status == 32 * above + 16 + below
  }

  /** A DONE of any of the three kinds whose status has the counting bit, the one worth 16. */
  ghost predicate HasCount(token: Token) {
    (token.Done? || token.DoneProc? || token.DoneInProc?)
    && exists above: nat, below: nat :: HasSixteen(token.status, above, below)
  }

  lemma HasCountIs(token: Token)
    ensures HasCount(token) <==> CountsRows(token)
  {
    if token.Done? || token.DoneProc? || token.DoneInProc? {
      var n: nat := token.status;
      if CountsRows(token) {
        assert n / 16 == 2 * (n / 32) + 1;
        assert HasSixteen(n, n / 32, n % 16);
      }
      forall above: nat, below: nat | HasSixteen(n, above, below) ensures n / 16 % 2 == 1 {
        assert n / 16 == 2 * above + 1;
      }
    }
  }

  /** The last counting token gives the count; where none counts it is zero. */
  lemma CountExactly(run: Run)
    requires QueryOutcome(run).Success?
    ensures forall k :: 0 <= k < |run.tokens| && HasCount(run.tokens[k])
                        && (forall i :: k < i < |run.tokens| ==> !HasCount(run.tokens[i])) ==>
                          QueryOutcome(run).value.rowsAffected == run.tokens[k].rows
    ensures (forall i :: 0 <= i < |run.tokens| ==> !HasCount(run.tokens[i])) ==>
              QueryOutcome(run).value.rowsAffected == 0
  {
    hide HasCount, CountsRows, RowsOf, NamesOf;
    forall i | 0 <= i < |run.tokens| ensures HasCount(run.tokens[i]) <==> CountsRows(run.tokens[i]) {
      HasCountIs(run.tokens[i]);
    }
  }

  /** One token gives one row, where it is one, and no other token any. */
  lemma RowsOfOne(token: Token)
    ensures RowsOf([token]) == if token.Row? then [token.values] else []
  {
    assert [token][..0] == [];
  }

  /** The last metadata gives the names; where there is none there are none. */
  lemma NamesExactly(run: Run)
    requires QueryOutcome(run).Success?
    ensures forall k :: 0 <= k < |run.tokens| && run.tokens[k].ColMetadata?
                        && (forall i :: k < i < |run.tokens| ==> !run.tokens[i].ColMetadata?) ==>
                          var names := QueryOutcome(run).value.columns;
                          && |names| == |run.tokens[k].columns|
                          && forall j :: 0 <= j < |names| ==> names[j] == run.tokens[k].columns[j].name
    ensures (forall i :: 0 <= i < |run.tokens| ==> !run.tokens[i].ColMetadata?) ==>
              QueryOutcome(run).value.columns == []
  {
    hide RowsOf, CountOf;
    forall i | 0 <= i < |run.tokens| ensures IsMetadata(run.tokens[i]) <==> run.tokens[i].ColMetadata? {
    }
  }

  /** A batch fails with its last error where it was read to the end, and at once where it was not. */
  lemma BatchFailsExactly(run: Run)
    ensures !run.complete ==> QueryOutcome(run) == Failure(Protocol)
    ensures run.complete ==>
              forall k :: 0 <= k < |run.tokens| && run.tokens[k].Error?
                          && (forall i :: k < i < |run.tokens| ==> !run.tokens[i].Error?) ==>
                            QueryOutcome(run)
                            == Failure(Answered(run.tokens[k].note.number, run.tokens[k].note.text))
  {
    hide RowsOf, CountOf, NamesOf;
    forall i | 0 <= i < |run.tokens| ensures IsError(run.tokens[i]) <==> run.tokens[i].Error? {
    }
  }

  // ----- The terms of a login

  /** The token names a packet size: an ENVCHANGE of kind 4 whose new value, whatever its old one, is a u16. */
  ghost predicate NamesSize(token: Token, n: nat) {
    token.EnvChange? && token.kind == 4 && OfUnsigned(token.current) == Some(n) && n <= 65535
  }

  /** What it settles: that size, but no less than 512 and no more than 32767. */
  function Within(n: nat): nat {
    if n < 512 then 512 else if n > 32767 then 32767 else n
  }

  lemma SizeOfExactly(token: Token)
    ensures SizeOf(token).Some? <==> exists n :: NamesSize(token, n)
    ensures forall n :: NamesSize(token, n) ==> SizeOf(token) == Some(Within(n))
  {
    hide OfUnsigned;
    if SizeOf(token).Some? {
      assert NamesSize(token, OfUnsigned(token.current).value);
    }
  }

  /** A settled login has the last acknowledgement's program, and the last packet size named, or 4096. */
  lemma TermsExactly(run: Run)
    requires LoginOutcome(run).Success?
    ensures var terms := LoginOutcome(run).value;
            && (forall k, n :: 0 <= k < |run.tokens| && NamesSize(run.tokens[k], n)
                               && (forall i, m :: k < i < |run.tokens| ==> !NamesSize(run.tokens[i], m)) ==>
                                 terms.packetSize == Within(n))
            && ((forall i, m :: 0 <= i < |run.tokens| ==> !NamesSize(run.tokens[i], m)) ==> terms.packetSize == 4096)
            && (forall k :: 0 <= k < |run.tokens| && run.tokens[k].LoginAck?
                            && (forall i :: k < i < |run.tokens| ==> !run.tokens[i].LoginAck?) ==>
                              terms.program == run.tokens[k].program)
  {
    hide SizeOf, NamesSize, Within;
    forall i | 0 <= i < |run.tokens|
      ensures IsAck(run.tokens[i]) <==> run.tokens[i].LoginAck?
      ensures SettlesSize(run.tokens[i]) <==> exists n :: NamesSize(run.tokens[i], n)
      ensures forall n :: NamesSize(run.tokens[i], n) ==> SizeOf(run.tokens[i]) == Some(Within(n))
    {
      SizeOfExactly(run.tokens[i]);
    }
  }

  /** A login fails with its first error; with none, at a break; and with neither, unacknowledged. */
  lemma LoginFailsExactly(run: Run)
    ensures forall k :: 0 <= k < |run.tokens| && run.tokens[k].Error?
                        && (forall i :: 0 <= i < k ==> !run.tokens[i].Error?) ==>
                          LoginOutcome(run) == Failure(Answered(run.tokens[k].note.number, run.tokens[k].note.text))
    ensures (forall i :: 0 <= i < |run.tokens| ==> !run.tokens[i].Error?) && !run.complete ==>
              LoginOutcome(run) == Failure(Protocol)
    ensures run.complete
            && (forall i :: 0 <= i < |run.tokens| ==> !run.tokens[i].Error? && !run.tokens[i].LoginAck?) ==>
              LoginOutcome(run) == Failure(NotAcknowledged)
  {
    hide SettledSize;
    forall i | 0 <= i < |run.tokens|
      ensures IsError(run.tokens[i]) <==> run.tokens[i].Error?
      ensures IsAck(run.tokens[i]) <==> run.tokens[i].LoginAck?
    {
    }
  }

  // ----- What a client sends and refuses

  /**
   * To a server whose first message is an answer that reads as a pre-login, more than the opening
   * is sent exactly when the encryption read is 0 or 2: then the login; else nothing more, and
   * the call fails for the encryption.
   */
  lemma LoginSentExactly(d: Dialect, ceiling: nat, login: Login, database: string, processId: u32, s: bytes)
    requires ReadMessage(s, ceiling).Message? && ReadMessage(s, ceiling).kind == 0x04
    requires PreloginOf(ReadMessage(s, ceiling).payload).Some?
    ensures var run := ConnectRun(d, ceiling, login, database, processId, s);
            var encryption := PreloginOf(ReadMessage(s, ceiling).payload).value.encryption;
            && (|run.sent| > |Opening()| <==> encryption == 0x00 || encryption == 0x02)
            && (encryption == 0x00 || encryption == 0x02 ==>
                  run.sent == Opening() + MessageBytes(0x10, LoginBytes(NewLogin7(login, database), processId), 4096))
            && (encryption != 0x00 && encryption != 0x02 ==>
                  run.sent == Opening() && run.outcome == Failure(EncryptionRequired))
  {
    hide ReadMessage, PreloginOf, MessageBytes, LoginBytes, NewLogin7, Opening, TermsOutcome;
    Framing.MessageNotEmpty(0x10, LoginBytes(NewLogin7(login, database), processId), 4096);
  }

  /** To anything else first, nothing but the opening is sent, and the call fails. */
  lemma NothingSent(d: Dialect, ceiling: nat, login: Login, database: string, processId: u32, s: bytes)
    requires var first := ReadMessage(s, ceiling);
             !first.Message? || first.kind != 0x04 || PreloginOf(first.payload).None?
    ensures var run := ConnectRun(d, ceiling, login, database, processId, s);
            run.sent == Opening() && run.outcome == Failure(Protocol)
  {
    hide ReadMessage, PreloginOf, MessageBytes, LoginBytes, NewLogin7, Opening, TermsOutcome;
  }

  /** Only a message of type 4 answers a login or a batch. */
  lemma OnlyAnswersCount(d: Dialect, incoming: Incoming)
    requires !incoming.Message? || incoming.kind != 0x04
    ensures BatchOutcome(d, incoming) == Failure(Protocol) && TermsOutcome(d, incoming) == Failure(Protocol)
  {
  }

  // ----- What a session refuses

  /** The one packet type due at a stage: a pre-login, then a login, then batches. */
  function Due(stage: Stage): byte
    requires Reads(stage)
  {
    if stage.AwaitsHello? then 0x12 else if stage.AwaitsLogin? then 0x10 else 0x01
  }

  /** A message of any type but the one due breaks a session, which answers nothing and touches nothing behind it. */
  lemma OnlyTheDueCounts(service: Service, expected: Option<Login>, stage: Stage, s: bytes)
    requires Reads(stage)
    requires ReadMessage(s, service.ceiling).Message? && ReadMessage(s, service.ceiling).kind != Due(stage)
    ensures Advance(service, expected, stage, s) == Turn(Broken, [], ReadMessage(s, service.ceiling).rest)
  {
    hide ReadMessage, PreloginOf, LoginOf, MessageBytes, AnswerMessage, AnswerTo, Refuses;
  }

  /** So does one of the type due that does not read as what is due. */
  lemma UnreadableBreaks(service: Service, expected: Option<Login>, stage: Stage, s: bytes)
    requires Reads(stage) && ReadMessage(s, service.ceiling).Message?
    requires var body := ReadMessage(s, service.ceiling).payload;
             && (stage.AwaitsHello? ==> PreloginOf(body).None?)
             && (stage.AwaitsLogin? ==> LoginOf(body).None?)
             && (stage.Serving? ==> BatchText(body).None?)
    ensures Advance(service, expected, stage, s) == Turn(Broken, [], ReadMessage(s, service.ceiling).rest)
  {
    hide ReadMessage, PreloginOf, LoginOf, BatchText, MessageBytes, AnswerMessage, AnswerTo, Refuses;
  }

  /** So does one that is cut off or over the ceiling; a close ends a session that serves, and breaks any other. */
  lemma RefusedBreaks(service: Service, expected: Option<Login>, stage: Stage, s: bytes)
    requires Reads(stage)
    ensures ReadMessage(s, service.ceiling).Refused? ==>
              Advance(service, expected, stage, s) == Turn(Broken, [], [])
    ensures s == [] ==>
              Advance(service, expected, stage, s)
              == Turn(if stage.Serving? then Ended(stage.login, stage.asked, stage.events) else Broken, [], [])
  {
    hide React;
  }
}

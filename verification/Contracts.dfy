/** The contracts of the client's and the session's own calls, each against what the other side writes. */
module Contracts {
  import opened Batch
  import opened Bytes
  import opened Client
  import opened Conversation
  import opened Exchange
  import opened Framing
  import opened Login
  import opened LoginTable
  import opened Meetings
  import opened Prelogin
  import opened Runs
  import opened Session
  import opened Sizes
  import opened Token
  import opened Wire
  import opened Wrappers

  /** The tokens a login is answered with. */
  ghost function Verdict(p: Parties): seq<Token> {
    if IsRefused(p) then RefusalTokens(p.login.user) else WelcomeTokens(p.database)
  }

  ghost function VerdictWire(p: Parties): bytes {
    AnswerMessage(p.service.d, Verdict(p))
  }

  /** What accepting a client that sends `LoginWire` behind its pre-login does. */
  lemma AcceptMeets(p: Parties, t: bytes)
    requires Fits(p)
    ensures Greets(p, t) && Decides(p, t)
  {
    hide Fits, Greets, Decides;
    HelloMeets(p, t);
    LoginMeets(p, t);
  }

  /** The pre-login is answered, and what is behind it left. */
  ghost predicate Greets(p: Parties, t: bytes) {
    Advance(p.service, p.expected, AwaitsHello, Opening() + (LoginWire(p) + t))
    == Turn(AwaitsLogin, Greeting(), LoginWire(p) + t)
  }

  /** The login is served exactly when it is not refused, the verdict sent, and what is behind it left. */
  ghost predicate Decides(p: Parties, t: bytes) {
    Advance(p.service, p.expected, AwaitsLogin, LoginWire(p) + t)
    == Turn(if IsRefused(p) then TurnedAway(p.Login7()) else Serving(p.Login7(), [], []), VerdictWire(p), t)
  }

  lemma HelloMeets(p: Parties, t: bytes)
    requires Fits(p)
    ensures Greets(p, t)
  {
    hide ReadMessage, MessageBytes, React, PreloginBytes, LoginWire, TokensBytes, LoginLength, Fits,
         Addressable;
    hide RefusalTokens, WelcomeTokens;
    WithinLimits(p);
    MessageBack(PRELOGIN, PreloginBytes(DEFAULT), DEFAULT_PACKET_SIZE, p.service.ceiling, LoginWire(p) + t);
    HelloTaken(p);
  }

  lemma LoginMeets(p: Parties, t: bytes)
    requires Fits(p)
    ensures Decides(p, t)
  {
    hide ReadMessage, MessageBytes, React, LoginBytes, TokensBytes, LoginLength, RefusalTokens,
         WelcomeTokens, Refuses;
    hide Fits, Addressable;
    WithinLimits(p);
    LoginBodySize(p);
    MessageBack(LOGIN7, LoginBytes(p.Login7(), p.processId), DEFAULT_PACKET_SIZE, p.service.ceiling, t);
    LoginTaken(p);
  }

  /** What the verdict makes of a login. */
  ghost function VerdictOutcome(p: Parties): Outcome<Terms> {
    if IsRefused(p) then Failure(RefusedFault(p)) else Success(SETTLED)
  }

  lemma VerdictComesAcross(p: Parties)
    requires Fits(p)
    ensures LoginOutcome(ReadRun(p.service.d, [], TokensBytes(p.service.d, [], Verdict(p)))) == VerdictOutcome(p)
    ensures |TokensBytes(p.service.d, [], Verdict(p))| <= p.service.ceiling
  {
    hide TokensBytes, ReadRun, LoginLength, LoginOutcome, WelcomeTokens, RefusalTokens, FailedText,
         ContextText, PreloginBytes, Refuses;
    hide Addressable;
    WithinLimits(p);
    NoteUnits(p.login.user, p.database);
    if IsRefused(p) {
      RefusalComesAcross(p.service.d, p.login.user);
    } else {
      WelcomeComesAcross(p.service.d, p.database);
    }
  }

  /**
   * Connecting to a session's greeting and verdict sends exactly what that session accepts, and
   * settles the login exactly when it is not refused.
   */
  lemma ConnectMeets(p: Parties, t: bytes)
    requires Fits(p)
    ensures var s := Greeting() + (VerdictWire(p) + t);
            ConnectRun(p.service.d, p.service.ceiling, p.login, p.database, p.processId, s)
            == Attempt(VerdictOutcome(p), Opening() + LoginWire(p), t)
  {
    hide ReadMessage, MessageBytes, PreloginBytes, PreloginOf, LoginBytes, TokensBytes, ReadRun,
         LoginOutcome, LoginLength, Verdict, VerdictOutcome, NewLogin7, RefusalTokens,
         WelcomeTokens;
    hide Fits, Addressable;
    WithinLimits(p);
    var hello := PreloginBytes(ServerHello());
    MessageBack(TABULAR_RESULT, hello, DEFAULT_PACKET_SIZE, p.service.ceiling, VerdictWire(p) + t);
    DefaultHasNoNul(ServerHello());
    VerdictComesAcross(p);
    MessageBack(TABULAR_RESULT, TokensBytes(p.service.d, [], Verdict(p)), DEFAULT_PACKET_SIZE, p.service.ceiling, t);
  }

  /** The client's two steps of a conversation, over the bytes `s` of a server. */
  function TwoSteps(p: Parties, s: bytes): Attempt {
    var first := ReadMessage(s, p.service.ceiling);
    var (greeted, sent) := Receive(p, AwaitsGreeting, first);
    if greeted.Down? then Attempt(Failure(greeted.fault), Opening() + sent, [])
    else
      var second := ReadMessage(if first.Message? then first.rest else [], p.service.ceiling);
      var outcome := match Receive(p, AwaitsTerms, second).0
                     case Idle(terms, _) => Success(terms)
                     case Down(fault) => Failure(fault)
                     case _ => Failure(Protocol);
      Attempt(outcome, Opening() + sent, if second.Message? then second.rest else [])
  }

  /** A whole `Connect` is those two steps. */
  lemma ConnectIsTwoSteps(p: Parties, s: bytes)
    ensures ConnectRun(p.service.d, p.service.ceiling, p.login, p.database, p.processId, s) == TwoSteps(p, s)
  {
    hide ReadMessage, LoginMessage, TermsOutcome, BatchOutcome, Opening;
    assert Opening() + [] == Opening();
  }

  /** A session asked one batch answers it and reports it, and touches nothing behind it. */
  lemma BatchMeets(p: Parties, asked: seq<string>, events: seq<Event>, sql: string, t: bytes)
    requires |BatchBytes(sql)| <= p.service.ceiling
    ensures Advance(p.service, p.expected, Serving(p.Login7(), asked, events), BatchWire(sql) + t)
         == Turn(Serving(p.Login7(), asked + [sql], events + [AnswerTo(p.service, p.database, asked, sql).1]),
                 AnswerWire(p, asked, sql), t)
  {
    hide ReadMessage, MessageBytes, React, BatchBytes, AnswerTo, AnswerWire;
    MessageBack(SQL_BATCH, BatchBytes(sql), DEFAULT_PACKET_SIZE, p.service.ceiling, t);
    BatchTaken(p, asked, events, sql);
  }

  /** A client that reads a session's answer has what the session answered. */
  lemma QueryMeets(p: Parties, asked: seq<string>, sql: string, t: bytes)
    requires Askable(p, asked, sql)
    ensures var incoming := ReadMessage(AnswerWire(p, asked, sql) + t, p.service.ceiling);
            && AnswerBody(incoming).Success? && incoming.rest == t
            && BatchOutcome(p.service.d, incoming) == ExpectedOutcome(AnswerTo(p.service, p.database, asked, sql).0)
  {
    hide ReadMessage, MessageBytes, BatchBytes, AnswerTo, AnswerTokens, TokensBytes, ReadRun,
         QueryOutcome, Servable, ExpectedOutcome;
    var answer := AnswerTo(p.service, p.database, asked, sql).0;
    var body := TokensBytes(p.service.d, [], AnswerTokens(answer));
    MessageBack(TABULAR_RESULT, body, DEFAULT_PACKET_SIZE, p.service.ceiling, t);
    AnswerComesAcross(p.service.d, answer);
  }

  // ----- Serving a whole list of batches

  /** Batches one behind the other, each at the packet size its client settled. */
  function Batches(sqls: seq<string>, packetSize: u16): bytes {
    if |sqls| == 0 then []
    else MessageBytes(SQL_BATCH, BatchBytes(sqls[0]), packetSize) + Batches(sqls[1..], packetSize)
  }

  function EventsFrom(p: Parties, asked: seq<string>, sqls: seq<string>): (events: seq<Event>)
    decreases |sqls|
  {
    if |sqls| == 0 then []
    else [AnswerTo(p.service, p.database, asked, sqls[0]).1] + EventsFrom(p, asked + [sqls[0]], sqls[1..])
  }

  function AnswersFrom(p: Parties, asked: seq<string>, sqls: seq<string>): bytes
    decreases |sqls|
  {
    if |sqls| == 0 then []
    else AnswerWire(p, asked, sqls[0]) + AnswersFrom(p, asked + [sqls[0]], sqls[1..])
  }

  lemma ServeStep(p: Parties, asked: seq<string>, sql: string, packetSize: u16, t: bytes)
    requires |BatchBytes(sql)| <= p.service.ceiling
    ensures var (more, sent) := ServeRun(p.service, p.Login7(), asked + [sql], t);
            ServeRun(p.service, p.Login7(), asked, MessageBytes(SQL_BATCH, BatchBytes(sql), packetSize) + t)
            == (match more
                case None => None
                case Some(events) => Some([AnswerTo(p.service, p.database, asked, sql).1] + events),
                AnswerWire(p, asked, sql) + sent)
  {
    hide ReadMessage, MessageBytes, BatchBytes, BatchText, AnswerTo, AnswerTokens, AnswerMessage;
    MessageBack(SQL_BATCH, BatchBytes(sql), packetSize, p.service.ceiling, t);
    BatchBack(sql);
  }

  /** Serving any batches in packets of any size reports each and answers each, in order, to the close. */
  lemma {:induction false} ServeMeets(p: Parties, asked: seq<string>, sqls: seq<string>, packetSize: u16)
    requires forall i :: 0 <= i < |sqls| ==> |BatchBytes(sqls[i])| <= p.service.ceiling
    ensures ServeRun(p.service, p.Login7(), asked, Batches(sqls, packetSize))
         == (Some(EventsFrom(p, asked, sqls)), AnswersFrom(p, asked, sqls))
    decreases |sqls|
  {
    hide MessageBytes, BatchBytes, AnswerTo, AnswerWire;
    if |sqls| > 0 {
      hide ServeRun;
      ServeStep(p, asked, sqls[0], packetSize, Batches(sqls[1..], packetSize));
      ServeMeets(p, asked + [sqls[0]], sqls[1..], packetSize);
    }
  }
}

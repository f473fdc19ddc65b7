/** Every run of a conversation keeps its invariant, and what that says of queries, events and the login. */
module Meetings {
  import opened Batch
  import opened Bytes
  import opened Client
  import opened Conversation
  import opened Exchange
  import opened Framing
  import opened Login
  import opened LoginTable
  import opened Outcomes
  import opened Prelogin
  import opened PreloginTable
  import opened Runs
  import opened Session
  import opened Sizes
  import Text
  import opened Token
  import opened Wire
  import opened Wrappers

  // ----- A channel that holds one message, or none

  /** Whatever part of a message has arrived, a read gets the whole of it or is still waiting. */
  lemma OneMessage(ch: Channel, kind: byte, payload: bytes, packetSize: u16, ceiling: nat)
    requires IsPacketType(kind) && |payload| <= ceiling
    requires ch.Total() == MessageBytes(kind, payload, packetSize)
    ensures ReadMessage(ch.arrived, ceiling).Message? ==>
              ch.travelling == [] && ReadMessage(ch.arrived, ceiling) == Message(kind, payload, [])
    ensures ch.travelling == [] ==> ReadMessage(ch.arrived, ceiling).Message?
    ensures !Hopeless(ch.arrived, ceiling)
  {
    hide ReadMessage, MessageBytes;
    var whole := MessageBytes(kind, payload, packetSize);
    MessageBack(kind, payload, packetSize, ceiling, []);
    assert whole + [] == whole;
    assert ReadMessage(ch.arrived + ch.travelling, ceiling).Message?;
    if ch.travelling == [] {
      assert ch.arrived + [] == ch.arrived;
    } else {
      CutMessageRefused(kind, payload, packetSize, ceiling, |ch.arrived|);
      assert whole[..|ch.arrived|] == ch.arrived;
    }
  }

  /** An empty channel holds nothing to read and nothing to give up on. */
  lemma NoMessage(ch: Channel, ceiling: nat)
    requires ch.Total() == []
    ensures ch.arrived == [] && ch.travelling == []
    ensures ReadMessage(ch.arrived, ceiling).Closed?
    ensures !Hopeless(ch.arrived, ceiling)
  {
    assert |ch.arrived| + |ch.travelling| == 0;
    assert ch.arrived + [] == [];
    assert ReadMessage([], ceiling).Closed?;
  }

  lemma CarryKeeps(ch: Channel, n: nat)
    requires n <= |ch.travelling|
    ensures ch.Carry(n).Total() == ch.Total()
  {
  }

  // ----- The limits

  /**
   * Counted in code units, the limits on a login's texts are exactly those under which its table
   * can point at every field, the notes answering it fit their lengths, and all is within the ceiling.
   */
  lemma FitsExactly(p: Parties)
    ensures Fits(p) <==> Carries(p)
  {
    hide PreloginBytes, TokensBytes, WelcomeTokens, RefusalTokens, LoginLength, Text.Units,
         Addressable, AllEncode;
    LoginSizeIs(p.login, p.database);
    AddressableExactly(p.login, p.database);
    NotesFitExactly(p.service.d, p.login.user, p.database);
    PreloginSizes();
    if Fits(p) || Carries(p) {
      WelcomeSizeIs(p.service.d, p.database);
      RefusalSizeIs(p.service.d, p.login.user);
    }
  }

  /** What the limits give of each message. */
  lemma WithinLimits(p: Parties)
    requires Fits(p)
    ensures var c, d := p.service.ceiling, p.service.d;
            && Addressable(p.Login7()) && LoginLength(p.Login7()) <= c
            && |PreloginBytes(DEFAULT)| <= c && |PreloginBytes(ServerHello())| <= c
            && |TokensBytes(d, [], WelcomeTokens(p.database))| <= c
            && |TokensBytes(d, [], RefusalTokens(p.login.user))| <= c
  {
    hide Fits, PreloginBytes, TokensBytes, WelcomeTokens, RefusalTokens, LoginLength, Addressable,
         AllEncode;
    FitsExactly(p);
  }

  // ----- What each message does

  lemma DefaultHasNoNul(p: Prelogin)
    requires p.instance == ""
    ensures PreloginOf(PreloginBytes(p)) == Some(p)
  {
    hide PreloginOf, PreloginBytes;
    assert Text.Utf8("") == [];
    PreloginBackExactly(p);
  }

  lemma HelloTaken(p: Parties)
    ensures React(p.service, p.expected, AwaitsHello, PRELOGIN, PreloginBytes(DEFAULT)) == (AwaitsLogin, Greeting())
  {
    hide PreloginOf, PreloginBytes, MessageBytes;
    DefaultHasNoNul(DEFAULT);
  }

  lemma GreetingTaken(p: Parties, rest: bytes)
    ensures Receive(p, AwaitsGreeting, Message(TABULAR_RESULT, PreloginBytes(ServerHello()), rest))
         == (AwaitsTerms, LoginWire(p))
  {
    hide PreloginOf, PreloginBytes, MessageBytes, LoginBytes, NewLogin7, ReadRun, QueryOutcome,
         LoginOutcome;
    DefaultHasNoNul(ServerHello());
  }

  lemma LoginTaken(p: Parties)
    requires Addressable(p.Login7())
    ensures React(p.service, p.expected, AwaitsLogin, LOGIN7, LoginBytes(p.Login7(), p.processId)) ==
            if IsRefused(p) then
              (TurnedAway(p.Login7()), AnswerMessage(p.service.d, RefusalTokens(p.login.user)))
            else
              (Serving(p.Login7(), [], []), AnswerMessage(p.service.d, WelcomeTokens(p.database)))
  {
    hide LoginOf, LoginBytes, AnswerMessage, RefusalTokens, WelcomeTokens, Refuses, Addressable,
         PreloginOf, BatchText, AnswerTo, AnswerTokens, MessageBytes, PreloginBytes;
    LoginBack(p.Login7(), p.processId);
  }

  lemma WelcomeTaken(p: Parties, rest: bytes)
    requires Fits(p)
    ensures var body := TokensBytes(p.service.d, [], WelcomeTokens(p.database));
            Receive(p, AwaitsTerms, Message(TABULAR_RESULT, body, rest)) == (Idle(SETTLED, []), [])
  {
    hide TokensBytes, ReadRun, LoginLength, LoginOutcome, WelcomeTokens, ContextText, PreloginBytes,
         RefusalTokens;
    NoteUnits(p.login.user, p.database);
    WelcomeComesAcross(p.service.d, p.database);
  }

  lemma RefusalTaken(p: Parties, rest: bytes)
    requires Fits(p)
    ensures var body := TokensBytes(p.service.d, [], RefusalTokens(p.login.user));
            Receive(p, AwaitsTerms, Message(TABULAR_RESULT, body, rest)) == (Down(RefusedFault(p)), [])
  {
    hide TokensBytes, ReadRun, LoginLength, LoginOutcome, WelcomeTokens, FailedText, PreloginBytes,
         RefusalTokens;
    NoteUnits(p.login.user, p.database);
    RefusalComesAcross(p.service.d, p.login.user);
  }

  lemma BatchTaken(p: Parties, asked: seq<string>, events: seq<Event>, sql: string)
    ensures React(p.service, p.expected, Serving(p.Login7(), asked, events), SQL_BATCH, BatchBytes(sql)) ==
            (Serving(p.Login7(), asked + [sql], events + [AnswerTo(p.service, p.database, asked, sql).1]),
             AnswerWire(p, asked, sql))
  {
    hide BatchText, BatchBytes, AnswerMessage, AnswerTo, AnswerTokens;
    BatchBack(sql);
  }

  lemma AnswerTaken(p: Parties, asked: seq<string>, sql: string, outcomes: seq<Outcome<QueryResult>>, rest: bytes)
    requires Servable(AnswerTo(p.service, p.database, asked, sql).0)
    ensures var answer := AnswerTo(p.service, p.database, asked, sql).0;
            var body := TokensBytes(p.service.d, [], AnswerTokens(answer));
            Receive(p, AwaitsAnswer(SETTLED, outcomes), Message(TABULAR_RESULT, body, rest))
            == (Idle(SETTLED, outcomes + [ExpectedOutcome(answer)]), [])
  {
    hide TokensBytes, ReadRun, AnswerTo, AnswerTokens, QueryOutcome, Servable, ExpectedOutcome;
    AnswerComesAcross(p.service.d, AnswerTo(p.service, p.database, asked, sql).0);
  }

  // ----- Reading the one message under way

  lemma ServerGets(p: Parties, s: State, kind: byte, payload: bytes, packetSize: u16)
    requires IsPacketType(kind) && |payload| <= p.service.ceiling
    requires OnlyUp(s, MessageBytes(kind, payload, packetSize)) && Can(p, s, ServerReads)
    ensures var (stage, sent) := React(p.service, p.expected, s.stage, kind, payload);
            Do(p, s, ServerReads) == s.(stage := stage, toServer := Channel([], []), toClient := Channel([], sent))
  {
    hide ReadMessage, MessageBytes, React;
    OneMessage(s.toServer, kind, payload, packetSize, p.service.ceiling);
    NoMessage(s.toClient, p.service.ceiling);
    var sent := React(p.service, p.expected, s.stage, kind, payload).1;
    assert [] + sent == sent;
  }

  lemma ClientGets(p: Parties, s: State, payload: bytes, packetSize: u16)
    requires |payload| <= p.service.ceiling
    requires OnlyDown(s, MessageBytes(TABULAR_RESULT, payload, packetSize)) && Can(p, s, ClientReads)
    ensures var (phase, sent) := Receive(p, s.phase, Message(TABULAR_RESULT, payload, []));
            Do(p, s, ClientReads) == s.(phase := phase, toClient := Channel([], []), toServer := Channel([], sent))
  {
    hide ReadMessage, MessageBytes, Receive;
    OneMessage(s.toClient, TABULAR_RESULT, payload, packetSize, p.service.ceiling);
    NoMessage(s.toServer, p.service.ceiling);
    var sent := Receive(p, s.phase, Message(TABULAR_RESULT, payload, [])).1;
    assert [] + sent == sent;
  }

  lemma ServerHasNothing(p: Parties, s: State)
    requires s.toServer.Total() == []
    ensures !Can(p, s, ServerReads)
  {
    hide ReadMessage;
    NoMessage(s.toServer, p.service.ceiling);
  }

  lemma ClientHasNothing(p: Parties, s: State)
    requires s.toClient.Total() == []
    ensures !Can(p, s, ClientReads)
  {
    hide ReadMessage;
    NoMessage(s.toClient, p.service.ceiling);
  }

  lemma HandedDown(s: State, sent: bytes)
    requires s.toServer == Channel([], []) && s.toClient == Channel([], sent)
    ensures OnlyDown(s, sent)
    ensures sent == [] ==> Quiet(s)
  {
    assert [] + sent == sent;
  }

  lemma HandedUp(s: State, sent: bytes)
    requires s.toClient == Channel([], []) && s.toServer == Channel([], sent)
    ensures OnlyUp(s, sent)
    ensures sent == [] ==> Quiet(s)
  {
    assert [] + sent == sent;
  }

  // ----- Every action keeps the invariant

  lemma StartInv(p: Parties)
    ensures Inv(p, Start())
  {
    hide Opening;
    assert [] + Opening() == Opening();
  }

  /** The invariant speaks of what the channels hold together, not of how far it has come. */
  lemma InvOfTotals(p: Parties, s: State, t: State)
    requires Inv(p, s)
    requires t.phase == s.phase && t.stage == s.stage && t.asked == s.asked
    requires t.toServer.Total() == s.toServer.Total() && t.toClient.Total() == s.toClient.Total()
    ensures Inv(p, t)
  {
    hide AllAskable, ExpectedOutcomes, ExpectedEvents, Refuses, BatchWire, AnswerWire, Greeting,
         Opening, LoginWire, AnswerMessage, Channel.Total;
  }

  lemma ServerReadsHello(p: Parties, s: State)
    requires Fits(p) && GreetingInv(p, s) && Can(p, s, ServerReads)
    ensures GreetingInv(p, Do(p, s, ServerReads))
  {
    hide ReadMessage, MessageBytes, React, PreloginBytes, TokensBytes, LoginLength;
    hide Fits, Addressable;
    WithinLimits(p);
    if s.stage == AwaitsHello && OnlyUp(s, Opening()) {
      ServerGets(p, s, PRELOGIN, PreloginBytes(DEFAULT), DEFAULT_PACKET_SIZE);
      HelloTaken(p);
      HandedDown(Do(p, s, ServerReads), Greeting());
    } else {
      ServerHasNothing(p, s);
      assert false;
    }
  }

  lemma ServerReadsLogin(p: Parties, s: State)
    requires Fits(p) && TermsInv(p, s) && Can(p, s, ServerReads)
    ensures TermsInv(p, Do(p, s, ServerReads))
  {
    hide ReadMessage, MessageBytes, React, LoginBytes, TokensBytes, LoginLength, PreloginBytes,
         Refuses, WelcomeTokens, RefusalTokens;
    hide Fits, Addressable;
    WithinLimits(p);
    if s.stage == AwaitsLogin && OnlyUp(s, LoginWire(p)) {
      LoginBodySize(p);
      ServerGets(p, s, LOGIN7, LoginBytes(p.Login7(), p.processId), DEFAULT_PACKET_SIZE);
      LoginTaken(p);
      var t := Do(p, s, ServerReads);
      HandedDown(t, React(p.service, p.expected, AwaitsLogin, LOGIN7, LoginBytes(p.Login7(), p.processId)).1);
    } else {
      ServerHasNothing(p, s);
      assert false;
    }
  }

  lemma LoginBodySize(p: Parties)
    ensures |LoginBytes(p.Login7(), p.processId)| == LoginLength(p.Login7())
  {
  }

  lemma ServerReadsBatch(p: Parties, s: State, outcomes: seq<Outcome<QueryResult>>)
    requires Fits(p) && AnswerInv(p, s, outcomes) && Can(p, s, ServerReads)
    ensures AnswerInv(p, Do(p, s, ServerReads), outcomes)
  {
    hide ReadMessage, MessageBytes, React, BatchBytes, TokensBytes, AnswerTo, AnswerTokens,
         LoginLength, PreloginBytes, Servable, ExpectedOutcomes, ExpectedOutcome, Fits, Refuses;
    var before, sql := s.asked[..|s.asked| - 1], s.asked[|s.asked| - 1];
    if Served(p, s.stage, before) && OnlyUp(s, BatchWire(sql)) {
      assert Askable(p, before, sql);
      ServerGets(p, s, SQL_BATCH, BatchBytes(sql), DEFAULT_PACKET_SIZE);
      BatchTaken(p, before, ExpectedEvents(p, before), sql);
      assert s.asked == before + [sql];
      HandedDown(Do(p, s, ServerReads), AnswerWire(p, before, sql));
    } else {
      ServerHasNothing(p, s);
      assert false;
    }
  }

  lemma ServerReadsKeeps(p: Parties, s: State)
    requires Fits(p) && Inv(p, s) && Can(p, s, ServerReads)
    ensures Inv(p, Do(p, s, ServerReads))
  {
    hide ReadMessage, React, GreetingInv, TermsInv, AnswerInv, Fits, Refuses, ExpectedOutcomes,
         AllAskable;
    match s.phase
    case AwaitsGreeting => ServerReadsHello(p, s);
    case AwaitsTerms => ServerReadsLogin(p, s);
    case AwaitsAnswer(_, outcomes) => ServerReadsBatch(p, s, outcomes);
    case _ =>
      ServerHasNothing(p, s);
      assert false;
  }

  lemma ClientReadsGreeting(p: Parties, s: State)
    requires Fits(p) && s.phase == AwaitsGreeting && GreetingInv(p, s) && Can(p, s, ClientReads)
    ensures Do(p, s, ClientReads).phase == AwaitsTerms && TermsInv(p, Do(p, s, ClientReads))
  {
    hide ReadMessage, MessageBytes, Receive, PreloginBytes, TokensBytes, LoginLength, LoginBytes,
         Refuses;
    hide Fits, Addressable;
    WithinLimits(p);
    if s.stage == AwaitsLogin && OnlyDown(s, Greeting()) {
      ClientGets(p, s, PreloginBytes(ServerHello()), DEFAULT_PACKET_SIZE);
      GreetingTaken(p, []);
      HandedUp(Do(p, s, ClientReads), LoginWire(p));
    } else {
      ClientHasNothing(p, s);
      assert false;
    }
  }

  lemma ClientReadsTerms(p: Parties, s: State)
    requires Fits(p) && s.phase == AwaitsTerms && TermsInv(p, s) && Can(p, s, ClientReads)
    ensures Inv(p, Do(p, s, ClientReads))
  {
    hide ReadMessage, MessageBytes, Receive, PreloginBytes, TokensBytes, LoginLength, LoginBytes,
         Refuses, WelcomeTokens, RefusalTokens, FailedText;
    hide Fits, Addressable;
    WithinLimits(p);
    if !IsRefused(p) && Served(p, s.stage, []) && OnlyDown(s, AnswerMessage(p.service.d, WelcomeTokens(p.database))) {
      ClientGets(p, s, TokensBytes(p.service.d, [], WelcomeTokens(p.database)), DEFAULT_PACKET_SIZE);
      WelcomeTaken(p, []);
      HandedUp(Do(p, s, ClientReads), []);
    } else if OnlyDown(s, AnswerMessage(p.service.d, RefusalTokens(p.login.user))) && s.stage.TurnedAway? {
      ClientGets(p, s, TokensBytes(p.service.d, [], RefusalTokens(p.login.user)), DEFAULT_PACKET_SIZE);
      RefusalTaken(p, []);
      HandedUp(Do(p, s, ClientReads), []);
    } else {
      ClientHasNothing(p, s);
      assert false;
    }
  }

  lemma ClientReadsAnswer(p: Parties, s: State)
    requires Fits(p) && s.phase.AwaitsAnswer? && Inv(p, s) && Can(p, s, ClientReads)
    ensures Inv(p, Do(p, s, ClientReads))
  {
    hide ReadMessage, MessageBytes, Receive, BatchBytes, TokensBytes, AnswerTo, AnswerTokens,
         LoginLength, PreloginBytes, Servable, Refuses, ExpectedOutcome;
    var before, sql := s.asked[..|s.asked| - 1], s.asked[|s.asked| - 1];
    assert AnswerInv(p, s, s.phase.outcomes);
    if Served(p, s.stage, s.asked) && OnlyDown(s, AnswerWire(p, before, sql)) {
      assert Askable(p, before, sql);
      var answer := AnswerTo(p.service, p.database, before, sql).0;
      ClientGets(p, s, TokensBytes(p.service.d, [], AnswerTokens(answer)), DEFAULT_PACKET_SIZE);
      AnswerTaken(p, before, sql, s.phase.outcomes, []);
      HandedUp(Do(p, s, ClientReads), []);
    } else {
      ClientHasNothing(p, s);
      assert false;
    }
  }

  lemma ClientReadsKeeps(p: Parties, s: State)
    requires Fits(p) && Inv(p, s) && Can(p, s, ClientReads)
    ensures Inv(p, Do(p, s, ClientReads))
  {
    hide ReadMessage, Receive, GreetingInv, TermsInv, AnswerInv, Fits, Refuses;
    match s.phase
    case AwaitsGreeting => ClientReadsGreeting(p, s);
    case AwaitsTerms => ClientReadsTerms(p, s);
    case AwaitsAnswer(_, _) => ClientReadsAnswer(p, s);
    case _ =>
  }

  lemma AsksKeeps(p: Parties, s: State, sql: string)
    requires Fits(p) && Inv(p, s) && Can(p, s, ClientAsks(sql))
    ensures Inv(p, Do(p, s, ClientAsks(sql)))
  {
    hide Fits, Refuses, MessageBytes, BatchBytes, Askable, ExpectedOutcomes, ExpectedEvents;
    hide Receive, React, ReadMessage, Hopeless, Opening, Greeting, LoginWire, AnswerWire, AnswerMessage, RefusedFault;
    var t := Do(p, s, ClientAsks(sql));
    NoMessage(s.toServer, p.service.ceiling);
    NoMessage(s.toClient, p.service.ceiling);
    assert t.asked[..|t.asked| - 1] == s.asked && t.asked[|t.asked| - 1] == sql;
    assert [] + BatchWire(sql) == BatchWire(sql);
    HandedUp(t, BatchWire(sql));
  }

  /** Nobody ever has reason to give up. */
  lemma NobodyGivesUp(p: Parties, s: State)
    requires Fits(p) && Inv(p, s)
    ensures !Can(p, s, ServerGivesUp) && !Can(p, s, ClientGivesUp)
  {
    hide ReadMessage, MessageBytes, LoginLength, TokensBytes, LoginBytes, PreloginBytes, BatchBytes,
         Hopeless, Servable, AnswerTo, AnswerTokens, ExpectedOutcomes, ExpectedEvents,
         WelcomeTokens, RefusalTokens, Fits, Opening, Greeting, LoginWire, BatchWire, AnswerWire,
         AnswerMessage, Refuses, AllAskable, RefusedFault;
    var c := p.service.ceiling;
    UpIsOneOrNone(p, s);
    DownIsOneOrNone(p, s);
  }

  lemma LastAskable(p: Parties, asked: seq<string>)
    requires |asked| > 0 && AllAskable(p, asked)
    ensures Askable(p, asked[..|asked| - 1], asked[|asked| - 1])
  {
  }

  /** What is on its way to the server is one whole message, or nothing. */
  lemma UpIsOneOrNone(p: Parties, s: State)
    requires Fits(p) && Inv(p, s)
    ensures !Hopeless(s.toServer.arrived, p.service.ceiling)
    ensures s.phase.Hung? ==> ReadMessage(s.toServer.arrived, p.service.ceiling).Closed?
    ensures s.toServer.travelling == [] && s.toServer.Total() != [] ==>
              ReadMessage(s.toServer.arrived, p.service.ceiling).Message? && Reads(s.stage)
  {
    hide ReadMessage, MessageBytes, LoginLength, AllAskable, TokensBytes, LoginBytes, PreloginBytes,
         BatchBytes, Hopeless, Servable, AnswerTo, AnswerTokens, ExpectedOutcomes, ExpectedEvents,
         WelcomeTokens, RefusalTokens, Refuses;
    hide Fits, Addressable;
    WithinLimits(p);
    var c := p.service.ceiling;
    if s.toServer.Total() == [] {
      NoMessage(s.toServer, c);
    } else {
      match s.phase
      case AwaitsGreeting => OneMessage(s.toServer, PRELOGIN, PreloginBytes(DEFAULT), DEFAULT_PACKET_SIZE, c);
      case AwaitsTerms =>
        LoginBodySize(p);
        OneMessage(s.toServer, LOGIN7, LoginBytes(p.Login7(), p.processId), DEFAULT_PACKET_SIZE, c);
      case AwaitsAnswer(_, _) =>
        var before, sql := s.asked[..|s.asked| - 1], s.asked[|s.asked| - 1];
        LastAskable(p, s.asked);
        OneMessage(s.toServer, SQL_BATCH, BatchBytes(sql), DEFAULT_PACKET_SIZE, c);
      case _ =>
    }
  }

  /** What is on its way to the client is one whole message, or nothing. */
  lemma DownIsOneOrNone(p: Parties, s: State)
    requires Fits(p) && Inv(p, s)
    ensures !Hopeless(s.toClient.arrived, p.service.ceiling)
    ensures s.toClient.travelling == [] && s.toClient.Total() != [] ==>
              ReadMessage(s.toClient.arrived, p.service.ceiling).Message? && Awaits(s.phase)
    ensures Awaits(s.phase) && IsGone(s.stage) ==>
              s.toClient.travelling != [] || ReadMessage(s.toClient.arrived, p.service.ceiling).Message?
  {
    hide ReadMessage, MessageBytes, LoginLength, TokensBytes, LoginBytes, PreloginBytes, BatchBytes,
         Hopeless, Servable, AnswerTo, AnswerTokens, ExpectedOutcomes, ExpectedEvents,
         WelcomeTokens, RefusalTokens, Refuses;
    hide Fits, Addressable;
    WithinLimits(p);
    var c := p.service.ceiling;
    if s.toClient.Total() == [] {
      NoMessage(s.toClient, c);
      MessageNotEmpty(TABULAR_RESULT, TokensBytes(p.service.d, [], RefusalTokens(p.login.user)), DEFAULT_PACKET_SIZE);
    } else {
      match s.phase
      case AwaitsGreeting =>
        OneMessage(s.toClient, TABULAR_RESULT, PreloginBytes(ServerHello()), DEFAULT_PACKET_SIZE, c);
      case AwaitsTerms =>
        if s.stage.TurnedAway? {
          var body := TokensBytes(p.service.d, [], RefusalTokens(p.login.user));
          OneMessage(s.toClient, TABULAR_RESULT, body, DEFAULT_PACKET_SIZE, c);
        } else {
          var body := TokensBytes(p.service.d, [], WelcomeTokens(p.database));
          OneMessage(s.toClient, TABULAR_RESULT, body, DEFAULT_PACKET_SIZE, c);
        }
      case AwaitsAnswer(_, _) =>
        var before, sql := s.asked[..|s.asked| - 1], s.asked[|s.asked| - 1];
        assert Askable(p, before, sql);
        var answer := AnswerTo(p.service, p.database, before, sql).0;
        var body := TokensBytes(p.service.d, [], AnswerTokens(answer));
        OneMessage(s.toClient, TABULAR_RESULT, body, DEFAULT_PACKET_SIZE, c);
      case _ =>
    }
  }

  lemma HangsUpKeeps(p: Parties, s: State)
    requires Inv(p, s) && Can(p, s, ClientHangsUp)
    ensures Inv(p, Do(p, s, ClientHangsUp))
  {
    hide Refuses, ExpectedOutcomes, AllAskable, ExpectedEvents, Receive, React, ReadMessage, Hopeless;
    hide Opening, Greeting, LoginWire, BatchWire, AnswerWire, AnswerMessage, RefusedFault, Askable;
  }

  lemma SeesCloseKeeps(p: Parties, s: State)
    requires Inv(p, s) && Can(p, s, ServerSeesClose)
    ensures Inv(p, Do(p, s, ServerSeesClose))
  {
    hide Refuses, ExpectedOutcomes, AllAskable, ExpectedEvents, Receive, React, ReadMessage, Hopeless;
    hide Opening, Greeting, LoginWire, BatchWire, AnswerWire, AnswerMessage, RefusedFault, Askable;
  }

  /** Every action that can be taken keeps the invariant. */
  lemma StepKeeps(p: Parties, s: State, a: Action)
    requires Fits(p) && Inv(p, s) && Can(p, s, a)
    ensures Inv(p, Do(p, s, a))
  {
    hide Inv, Fits, Can;
    NobodyGivesUp(p, s);
    match a
    case CarryToServer(n) =>
      CarryInBounds(p, s, a);
      CarryKeeps(s.toServer, n);
      InvOfTotals(p, s, Do(p, s, a));
    case CarryToClient(n) =>
      CarryInBounds(p, s, a);
      CarryKeeps(s.toClient, n);
      InvOfTotals(p, s, Do(p, s, a));
    case ServerReads => ServerReadsKeeps(p, s);
    case ClientReads => ClientReadsKeeps(p, s);
    case ClientAsks(sql) => AsksKeeps(p, s, sql);
    case ClientHangsUp => HangsUpKeeps(p, s);
    case ServerSeesClose => SeesCloseKeeps(p, s);
    case ServerGivesUp => assert false;
    case ClientGivesUp => assert false;
  }

  lemma CarryInBounds(p: Parties, s: State, a: Action)
    requires Can(p, s, a)
    ensures a.CarryToServer? ==> a.n <= |s.toServer.travelling|
    ensures a.CarryToClient? ==> a.n <= |s.toClient.travelling|
  {
  }

  /** The invariant holds after every run. */
  lemma {:induction false} RunKeeps(p: Parties, actions: seq<Action>)
    requires Fits(p) && IsRun(p, actions)
    ensures Inv(p, After(p, actions))
    decreases |actions|
  {
    hide Inv, Fits, Can, Do;
    if |actions| == 0 {
      StartInv(p);
    } else {
      var before := actions[..|actions| - 1];
      RunKeeps(p, before);
      StepKeeps(p, After(p, before), actions[|actions| - 1]);
    }
  }

  /** The states some run can reach. */
  ghost predicate Reachable(p: Parties, s: State) {
    exists actions :: IsRun(p, actions) && s == After(p, actions)
  }

  /** Every state a run can reach keeps the invariant. */
  lemma ReachableKeeps(p: Parties, s: State)
    requires Fits(p) && Reachable(p, s)
    ensures Inv(p, s)
  {
    hide Fits, Inv, After, IsRun;
    var actions :| IsRun(p, actions) && s == After(p, actions);
    RunKeeps(p, actions);
  }

  // ----- What holds of every run

  lemma {:induction false} OutcomeAt(p: Parties, asked: seq<string>, k: nat)
    requires AllAskable(p, asked) && k < |asked|
    ensures var answer := AnswerTo(p.service, p.database, asked[..k], asked[k]).0;
            Servable(answer) && ExpectedOutcomes(p, asked)[k] == ExpectedOutcome(answer)
  {
    hide AnswerTo, Servable, ExpectedOutcome, BatchBytes, TokensBytes, AnswerTokens;
    var before := asked[..|asked| - 1];
    if k < |asked| - 1 {
      OutcomeAt(p, before, k);
      assert before[..k] == asked[..k];
    } else {
      LastAskable(p, asked);
    }
  }

  lemma {:induction false} EventAt(p: Parties, asked: seq<string>, k: nat)
    requires k < |asked|
    ensures ExpectedEvents(p, asked)[k] == AnswerTo(p.service, p.database, asked[..k], asked[k]).1
  {
    hide AnswerTo;
    var before := asked[..|asked| - 1];
    if k < |asked| - 1 {
      EventAt(p, before, k);
      assert before[..k] == asked[..k];
    }
  }

  predicate IsLoggedIn(phase: Phase) {
    phase.Idle? || phase.AwaitsAnswer? || phase.Hung?
  }

  /** The outcome a client has for batch `k` is what the service makes of it. */
  ghost predicate OutcomeIs(p: Parties, asked: seq<string>, k: nat, outcome: Outcome<QueryResult>)
    requires k < |asked|
  {
    OutcomeHolds(p.service, asked[..k], asked[k], outcome)
  }

  /** The batches whose answers the client has. */
  function Concluded(s: State): seq<string> {
    if s.phase.AwaitsAnswer? && |s.asked| > 0 then s.asked[..|s.asked| - 1] else s.asked
  }

  lemma OutcomesOf(p: Parties, s: State)
    requires Inv(p, s) && IsLoggedIn(s.phase)
    ensures AllAskable(p, Concluded(s)) && s.phase.outcomes == ExpectedOutcomes(p, Concluded(s))
    ensures s.phase.AwaitsAnswer? ==> |s.asked| > 0
    ensures !s.phase.AwaitsAnswer? ==> Quiet(s)
  {
    hide Refuses, Served, OnlyUp, OnlyDown, Quiet, ExpectedOutcomes, BatchWire, AnswerWire, Askable;
  }

  /**
   * The k-th query has come back with exactly the k-th answer, none is missing but the one under
   * way, and between queries nothing is left on either channel.
   */
  ghost predicate QueriesMatch(p: Parties, s: State)
    requires IsLoggedIn(s.phase)
  {
    && |s.phase.outcomes| == |s.asked| - (if s.phase.AwaitsAnswer? then 1 else 0)
    && (forall k :: 0 <= k < |s.phase.outcomes| ==> OutcomeIs(p, s.asked, k, s.phase.outcomes[k]))
    && (!s.phase.AwaitsAnswer? ==> Quiet(s))
  }

  /** In every state of every run, however its bytes travelled, queries match their answers. */
  lemma QueriesAnswered(p: Parties, s: State)
    requires Fits(p) && Reachable(p, s) && IsLoggedIn(s.phase)
    ensures QueriesMatch(p, s)
  {
    hide Fits, Reachable, Inv, Quiet, OutcomeHolds, EventHolds, AnswerTo, Servable, ExpectedOutcome;
    ReachableKeeps(p, s);
    OutcomesOf(p, s);
    forall k | 0 <= k < |s.phase.outcomes| ensures OutcomeIs(p, s.asked, k, s.phase.outcomes[k]) {
      OutcomeAt(p, Concluded(s), k);
      assert Concluded(s)[..k] == s.asked[..k];
      AnswerHolds(p.service, p.database, s.asked[..k], s.asked[k]);
    }
  }

  predicate HasEvents(stage: Stage) {
    stage.Serving? || stage.Ended?
  }

  /** The event a session reports batch `k` as is what the service makes of it. */
  ghost predicate EventIs(p: Parties, asked: seq<string>, k: nat, event: Event)
    requires k < |asked|
  {
    EventHolds(p.service, p.database, asked[..k], asked[k], event)
  }

  lemma EventsOf(p: Parties, s: State)
    requires Inv(p, s) && HasEvents(s.stage)
    ensures s.stage.events == ExpectedEvents(p, s.stage.asked)
    ensures s.stage.asked == s.asked
         || (s.phase.AwaitsAnswer? && |s.asked| > 0 && s.stage.asked == s.asked[..|s.asked| - 1])
    ensures IsLoggedIn(s.phase) ==> |s.phase.outcomes| <= |s.stage.asked|
    ensures s.stage.Ended? ==> s.phase.Hung?
  {
    hide Refuses, OnlyUp, OnlyDown, AllAskable, Quiet, ExpectedOutcomes, ExpectedEvents, NewLogin7,
         BatchWire, AnswerWire, AnswerMessage;
    match s.phase
    case AwaitsAnswer(_, outcomes) =>
      if s.stage.asked != s.asked {
        assert Served(p, s.stage, s.asked[..|s.asked| - 1]);
      }
    case _ =>
  }

  /**
   * The session has been asked what the client sent, in order, all but perhaps the last, and
   * reports each batch as what it was; what the client has been answered the session has reported.
   */
  ghost predicate EventsMatch(p: Parties, s: State)
    requires HasEvents(s.stage)
  {
    && s.stage.asked <= s.asked && |s.asked| <= |s.stage.asked| + 1
    && |s.stage.events| == |s.stage.asked|
    && (forall k :: 0 <= k < |s.stage.events| ==> EventIs(p, s.asked, k, s.stage.events[k]))
    && (IsLoggedIn(s.phase) ==> |s.phase.outcomes| <= |s.stage.events|)
    && (s.phase.Idle? || s.phase.Hung? ==> s.stage.asked == s.asked)
    && (s.stage.Ended? ==> s.phase.Hung?)
  }

  /** In every state of every run the session's events follow the client's batches. */
  lemma EventsInOrder(p: Parties, s: State)
    requires Fits(p) && Reachable(p, s) && HasEvents(s.stage)
    ensures EventsMatch(p, s)
  {
    hide Fits, Reachable, Inv, OutcomeHolds, EventHolds, AnswerTo, Servable, ExpectedOutcome;
    ReachableKeeps(p, s);
    EventsOf(p, s);
    forall k | 0 <= k < |s.stage.events| ensures EventIs(p, s.asked, k, s.stage.events[k]) {
      EventAt(p, s.stage.asked, k);
      assert s.stage.asked[..k] == s.asked[..k];
      AnswerHolds(p.service, p.database, s.asked[..k], s.asked[k]);
    }
  }

  /**
   * The client is in exactly when no login is expected or its own is the one. In, the session
   * holds its login; out, both sides have failed, the client with error 18456, which is not one
   * to try again on.
   */
  ghost predicate LoginMatches(p: Parties, s: State) {
    && (IsLoggedIn(s.phase) <==> p.expected.None? || p.expected.value == p.login)
    && (IsLoggedIn(s.phase) ==>
          && HasEvents(s.stage)
          && s.stage.login
             == Login7(p.login, p.database, "xmip", "xmip", "", "xmip-core-transport-mssql", "", 4096)
          && s.phase.terms == Terms(4096, "Microsoft SQL Server (xmip)"))
    && (!IsLoggedIn(s.phase) ==>
          && s.stage.TurnedAway? && s.phase.Down?
          && s.phase.fault == Answered(18456, "Login failed for user '" + p.login.user + "'.")
          && !IsRetryable(s.phase.fault)
          && s.asked == [] && Quiet(s))
  }

  /** In every state of every run in which the login has been decided it was decided rightly. */
  lemma LoginDecides(p: Parties, s: State)
    requires Fits(p) && Reachable(p, s)
    requires !s.phase.AwaitsGreeting? && !s.phase.AwaitsTerms?
    ensures LoginMatches(p, s)
  {
    hide Fits, Reachable, Refuses, OnlyUp, OnlyDown, ExpectedOutcomes, AllAskable, ExpectedEvents,
         Quiet, BatchWire, AnswerWire, GreetingInv, TermsInv, LoginWire, AnswerMessage,
         Opening, Greeting, Askable, BatchBytes, MessageBytes;
    ReachableKeeps(p, s);
    RefusesExactly(p.expected, p.login);
  }

  lemma NotBroken(p: Parties, s: State)
    requires Inv(p, s)
    ensures !s.stage.Broken?
  {
    hide Refuses, OnlyUp, OnlyDown, AllAskable, Quiet, ExpectedOutcomes, ExpectedEvents, NewLogin7,
         BatchWire, AnswerWire, AnswerMessage;
  }

  /** Whatever the run, no party ever breaks off. */
  lemma NobodyBreaks(p: Parties, actions: seq<Action>)
    requires Fits(p) && IsRun(p, actions)
    ensures !After(p, actions).stage.Broken?
    ensures forall a <- actions :: a != ServerGivesUp && a != ClientGivesUp
    decreases |actions|
  {
    hide Fits, Inv, Can, Do;
    RunKeeps(p, actions);
    NotBroken(p, After(p, actions));
    if |actions| > 0 {
      var before, last := actions[..|actions| - 1], actions[|actions| - 1];
      NobodyBreaks(p, before);
      RunKeeps(p, before);
      NobodyGivesUp(p, After(p, before));
      assert actions == before + [last];
    }
  }

  // ----- Progress

  /** The conversation is over: turned away and told so, or closed and seen to be. */
  predicate IsOver(s: State) {
    (s.phase.Down? && s.stage.TurnedAway?) || (s.phase.Hung? && s.stage.Ended?)
  }

  /** Until it is over a run can always go on, without the client having to ask anything. */
  lemma NeverStuck(p: Parties, s: State) returns (a: Action)
    requires Fits(p) && Reachable(p, s) && !IsOver(s)
    ensures Can(p, s, a) && !a.ClientAsks?
  {
    hide Reachable, ReadMessage, MessageBytes, Hopeless, Fits, ExpectedOutcomes, AllAskable,
         ExpectedEvents, Refuses;
    ReachableKeeps(p, s);
    UpIsOneOrNone(p, s);
    DownIsOneOrNone(p, s);
    if s.toServer.travelling != [] {
      a := CarryToServer(|s.toServer.travelling|);
    } else if s.toClient.travelling != [] {
      a := CarryToClient(|s.toClient.travelling|);
    } else if s.toServer.Total() != [] {
      a := ServerReads;
    } else if s.toClient.Total() != [] {
      a := ClientReads;
    } else {
      NotQuietWhileAwaiting(p, s);
      a := if s.phase.Idle? then ClientHangsUp else ServerSeesClose;
    }
  }

  lemma LoudMessages(p: Parties, asked: seq<string>, sql: string)
    ensures Opening() != [] && Greeting() != [] && LoginWire(p) != []
    ensures BatchWire(sql) != [] && AnswerWire(p, asked, sql) != []
    ensures AnswerMessage(p.service.d, WelcomeTokens(p.database)) != []
    ensures AnswerMessage(p.service.d, RefusalTokens(p.login.user)) != []
  {
    hide MessageBytes, TokensBytes, LoginBytes, PreloginBytes, BatchBytes, AnswerTo, AnswerTokens,
         WelcomeTokens, RefusalTokens;
    var d := p.service.d;
    MessageNotEmpty(PRELOGIN, PreloginBytes(DEFAULT), DEFAULT_PACKET_SIZE);
    MessageNotEmpty(TABULAR_RESULT, PreloginBytes(ServerHello()), DEFAULT_PACKET_SIZE);
    MessageNotEmpty(LOGIN7, LoginBytes(p.Login7(), p.processId), DEFAULT_PACKET_SIZE);
    MessageNotEmpty(SQL_BATCH, BatchBytes(sql), DEFAULT_PACKET_SIZE);
    MessageNotEmpty(TABULAR_RESULT, TokensBytes(d, [], WelcomeTokens(p.database)), DEFAULT_PACKET_SIZE);
    MessageNotEmpty(TABULAR_RESULT, TokensBytes(d, [], RefusalTokens(p.login.user)), DEFAULT_PACKET_SIZE);
    var answer := AnswerTo(p.service, p.database, asked, sql).0;
    MessageNotEmpty(TABULAR_RESULT, TokensBytes(d, [], AnswerTokens(answer)), DEFAULT_PACKET_SIZE);
  }

  /** While a client waits something is on its way. */
  lemma NotQuietWhileAwaiting(p: Parties, s: State)
    requires Inv(p, s) && Quiet(s)
    ensures !Awaits(s.phase)
  {
    hide Opening, Greeting, LoginWire, BatchWire, AnswerWire, AnswerMessage, WelcomeTokens,
         RefusalTokens, ExpectedOutcomes, ExpectedEvents, Refuses, AllAskable;
    if s.phase.AwaitsAnswer? {
      LoudMessages(p, s.asked[..|s.asked| - 1], s.asked[|s.asked| - 1]);
    } else {
      LoudMessages(p, [], "");
    }
  }

  /** How far a conversation is from the end of what is under way. */
  function Distance(s: State): nat {
    match s.phase
    case AwaitsGreeting => if s.stage.AwaitsHello? then 8 else 7
    case AwaitsTerms => if s.stage.AwaitsLogin? then 6 else 5
    case AwaitsAnswer(_, _) => if s.stage.Serving? && |s.stage.asked| < |s.asked| then 4 else 3
    case Idle(_, _) => 2
    case Hung(_, _) => if s.stage.Serving? then 1 else 0
    case Down(_) => 0
  }

  function Travelling(s: State): nat {
    |s.toServer.travelling| + |s.toClient.travelling|
  }

  /** A session that reads a message never stays where it was. */
  lemma ReactMoves(p: Parties, stage: Stage, kind: byte, body: bytes)
    requires Reads(stage)
    ensures var next := React(p.service, p.expected, stage, kind, body).0;
            && (stage.AwaitsHello? ==> !next.AwaitsHello?)
            && (stage.AwaitsLogin? ==> !next.AwaitsLogin?)
            && (stage.Serving? ==> next.Broken? || (next.Serving? && |next.asked| == |stage.asked| + 1))
  {
    hide BatchText, PreloginOf, LoginOf, AnswerTo, AnswerTokens, Refuses, AnswerMessage;
  }

  lemma UpMeansWaiting(p: Parties, s: State)
    requires Inv(p, s) && s.toServer.Total() != []
    ensures match s.phase
            case AwaitsGreeting => s.stage.AwaitsHello?
            case AwaitsTerms => s.stage.AwaitsLogin?
            case AwaitsAnswer(_, _) => s.stage.Serving? && |s.stage.asked| + 1 == |s.asked|
            case _ => false
  {
    hide Refuses, AllAskable, ExpectedOutcomes, ExpectedEvents, Opening, LoginWire, BatchWire,
         AnswerWire, AnswerMessage, Greeting;
  }

  lemma ServerReadsNears(p: Parties, s: State)
    requires Inv(p, s) && Can(p, s, ServerReads)
    ensures Distance(Do(p, s, ServerReads)) < Distance(s)
  {
    hide Inv, React, ReadMessage;
    if s.toServer.Total() == [] {
      ServerHasNothing(p, s);
      assert false;
    } else {
      UpMeansWaiting(p, s);
      var m := ReadMessage(s.toServer.arrived, p.service.ceiling);
      ReactMoves(p, s.stage, m.kind, m.payload);
    }
  }

  lemma ClientReadsNears(p: Parties, s: State)
    requires Can(p, s, ClientReads)
    ensures Distance(Do(p, s, ClientReads)) < Distance(s)
  {
    hide ReadMessage, AnswerBody, LoginMessage, LoginOutcome, QueryOutcome, ReadRun;
  }

  lemma OthersNear(p: Parties, s: State, a: Action)
    requires Can(p, s, a)
    requires a.CarryToServer? || a.CarryToClient? || a.ClientHangsUp? || a.ServerSeesClose?
    ensures var t := Do(p, s, a);
            Distance(t) < Distance(s) || (Distance(t) == Distance(s) && Travelling(t) < Travelling(s))
  {
    hide ReadMessage, Hopeless, React, Receive, Askable, MessageBytes, BatchBytes;
  }

  /** Every action but a new query brings the end of what is under way nearer. */
  lemma StepsNear(p: Parties, s: State, a: Action)
    requires Fits(p) && Reachable(p, s) && Can(p, s, a) && !a.ClientAsks?
    ensures var t := Do(p, s, a);
            Distance(t) < Distance(s) || (Distance(t) == Distance(s) && Travelling(t) < Travelling(s))
  {
    hide Can, Do, Inv, Fits, Reachable, Distance, Travelling;
    ReachableKeeps(p, s);
    NobodyGivesUp(p, s);
    match a
    case ServerReads => ServerReadsNears(p, s);
    case ClientReads => ClientReadsNears(p, s);
    case ServerGivesUp => assert false;
    case ClientGivesUp => assert false;
    case _ => OthersNear(p, s, a);
  }

  // ----- Every query is answered

  /** From `s` to `t` the query under way was answered: one more outcome, that of its own answer. */
  ghost predicate IsAnswered(p: Parties, s: State, t: State)
    requires s.phase.AwaitsAnswer?
  {
    && |s.asked| > 0 && t.asked == s.asked
    && t.phase.Idle? && t.phase.terms == s.phase.terms
    && |t.phase.outcomes| == |s.asked|
    && t.phase.outcomes[..|s.asked| - 1] == s.phase.outcomes
    && OutcomeIs(p, s.asked, |s.asked| - 1, t.phase.outcomes[|s.asked| - 1])
  }

  lemma TakesAnswer(p: Parties, s: State)
    requires s.phase.AwaitsAnswer? && Can(p, s, ClientReads)
    ensures var t := Do(p, s, ClientReads);
            && t.asked == s.asked && t.phase.Idle? && t.phase.terms == s.phase.terms
            && |t.phase.outcomes| == |s.phase.outcomes| + 1
            && t.phase.outcomes[..|s.phase.outcomes|] == s.phase.outcomes
  {
    hide ReadMessage, AnswerBody, QueryOutcome, ReadRun;
  }

  /** While a client waits nothing is asked, and nothing changes for it but that its answer comes. */
  lemma WaitingStep(p: Parties, s: State, a: Action)
    requires Fits(p) && Inv(p, s) && s.phase.AwaitsAnswer? && Can(p, s, a)
    ensures !a.ClientAsks?
    ensures var t := Do(p, s, a); (t.phase == s.phase && t.asked == s.asked) || IsAnswered(p, s, t)
  {
    hide Inv, Fits, ReadMessage, React, Receive, Hopeless, Askable, MessageBytes, BatchBytes,
         OutcomeHolds, EventHolds, AnswerTo, Servable, ExpectedOutcome;
    NobodyGivesUp(p, s);
    if a.ClientReads? {
      var t := Do(p, s, a);
      StepKeeps(p, s, a);
      TakesAnswer(p, s);
      OutcomesOf(p, s);
      OutcomesOf(p, t);
      OutcomeAt(p, t.asked, |s.asked| - 1);
      AnswerHolds(p.service, p.database, s.asked[..|s.asked| - 1], s.asked[|s.asked| - 1]);
    }
  }

  lemma OneMore(p: Parties, actions: seq<Action>, a: Action)
    requires IsRun(p, actions) && Can(p, After(p, actions), a)
    ensures IsRun(p, actions + [a]) && After(p, actions + [a]) == Do(p, After(p, actions), a)
  {
    hide Can, Do;
    assert (actions + [a])[..|actions|] == actions;
  }

  /** Every run that leaves a query under way can be continued, without another query, to its answer. */
  lemma {:induction false} AnswerComes(p: Parties, actions: seq<Action>) returns (more: seq<Action>)
    requires Fits(p) && IsRun(p, actions) && After(p, actions).phase.AwaitsAnswer?
    ensures IsRun(p, actions + more) && IsAnswered(p, After(p, actions), After(p, actions + more))
    ensures forall a <- more :: !a.ClientAsks?
    decreases Distance(After(p, actions)), Travelling(After(p, actions))
  {
    hide Can, Do, Inv, Fits, After, IsRun, Distance, Travelling;
    var s := After(p, actions);
    assert Reachable(p, s);
    RunKeeps(p, actions);
    var a := NeverStuck(p, s);
    WaitingStep(p, s, a);
    StepsNear(p, s, a);
    OneMore(p, actions, a);
    more := [a];
    if !IsAnswered(p, s, Do(p, s, a)) {
      var rest := AnswerComes(p, actions + [a]);
      more := [a] + rest;
      assert actions + more == actions + [a] + rest;
    }
  }

  /** The client has not heard whether it is in. */
  predicate IsUndecided(phase: Phase) {
    phase.AwaitsGreeting? || phase.AwaitsTerms?
  }

  /** Until the login is decided the client only waits for it. */
  lemma LoginStep(p: Parties, s: State, a: Action)
    requires Fits(p) && Inv(p, s) && IsUndecided(s.phase) && Can(p, s, a)
    ensures !a.ClientAsks?
    ensures var t := Do(p, s, a); IsUndecided(t.phase) || t.phase.Idle? || t.phase.Down?
  {
    hide Inv, Fits, ReadMessage, React, Hopeless, AnswerBody, LoginMessage, TermsOutcome, BatchOutcome,
         Askable, MessageBytes, BatchBytes;
    NobodyGivesUp(p, s);
  }

  /** From `t` on the login is decided: down where it is refused, up and idle where not. */
  ghost predicate IsDecided(p: Parties, t: State) {
    (if IsRefused(p) then t.phase.Down? else t.phase.Idle?) && LoginMatches(p, t)
  }

  lemma Decided(p: Parties, t: State)
    requires Fits(p) && Reachable(p, t) && (t.phase.Idle? || t.phase.Down?)
    ensures IsDecided(p, t)
  {
    hide Fits, Reachable, Quiet, HasEvents;
    LoginDecides(p, t);
    RefusesExactly(p.expected, p.login);
  }

  /** Every run that leaves a login undecided can be continued, without a query, to its decision. */
  lemma {:induction false} LoginComes(p: Parties, actions: seq<Action>) returns (more: seq<Action>)
    requires Fits(p) && IsRun(p, actions) && IsUndecided(After(p, actions).phase)
    ensures IsRun(p, actions + more) && IsDecided(p, After(p, actions + more))
    ensures forall a <- more :: !a.ClientAsks?
    decreases Distance(After(p, actions)), Travelling(After(p, actions))
  {
    hide Can, Do, Inv, Fits, After, IsRun, Distance, Travelling, IsDecided;
    var s := After(p, actions);
    assert Reachable(p, s);
    RunKeeps(p, actions);
    var a := NeverStuck(p, s);
    LoginStep(p, s, a);
    StepsNear(p, s, a);
    OneMore(p, actions, a);
    more := [a];
    if IsUndecided(Do(p, s, a).phase) {
      var rest := LoginComes(p, actions + [a]);
      more := [a] + rest;
      assert actions + more == actions + [a] + rest;
    } else {
      assert Reachable(p, After(p, actions + [a]));
      Decided(p, Do(p, s, a));
    }
  }

  /** A run that never ends, from a state some run can reach. */
  ghost predicate IsEndless(p: Parties, states: nat -> State, actions: nat -> Action) {
    && Reachable(p, states(0))
    && forall i: nat :: Can(p, states(i), actions(i)) && states(i + 1) == Do(p, states(i), actions(i))
  }

  lemma ReachableStep(p: Parties, s: State, a: Action)
    requires Reachable(p, s) && Can(p, s, a)
    ensures Reachable(p, Do(p, s, a))
  {
    hide Can, Do, After, IsRun;
    var actions :| IsRun(p, actions) && s == After(p, actions);
    OneMore(p, actions, a);
  }

  lemma {:induction false} EndlessReaches(p: Parties, states: nat -> State, actions: nat -> Action, n: nat)
    requires IsEndless(p, states, actions)
    ensures Reachable(p, states(n)) && Can(p, states(n), actions(n))
    ensures states(n + 1) == Do(p, states(n), actions(n))
  {
    hide Can, Do, Reachable;
    if n > 0 {
      EndlessReaches(p, states, actions, n - 1);
      ReachableStep(p, states(n - 1), actions(n - 1));
    }
  }

  /** A run without end asks again and again: none goes on for ever without a new query. */
  lemma {:induction false} EndlessAsks(p: Parties, states: nat -> State, actions: nat -> Action, n: nat)
    returns (m: nat)
    requires Fits(p) && IsEndless(p, states, actions)
    ensures m >= n && actions(m).ClientAsks?
    decreases Distance(states(n)), Travelling(states(n))
  {
    hide Can, Do, Fits, Reachable, IsEndless, Distance, Travelling;
    EndlessReaches(p, states, actions, n);
    m := n;
    if !actions(n).ClientAsks? {
      StepsNear(p, states(n), actions(n));
      m := EndlessAsks(p, states, actions, n + 1);
    }
  }

  /** A run without end answers every query it asks, in whatever order its steps are taken. */
  lemma {:induction false} EndlessAnswers(p: Parties, states: nat -> State, actions: nat -> Action, n: nat)
    returns (m: nat)
    requires Fits(p) && IsEndless(p, states, actions) && states(n).phase.AwaitsAnswer?
    ensures m > n && IsAnswered(p, states(n), states(m))
    decreases Distance(states(n)), Travelling(states(n))
  {
    hide Can, Do, Fits, Inv, Reachable, IsEndless, Distance, Travelling;
    EndlessReaches(p, states, actions, n);
    ReachableKeeps(p, states(n));
    WaitingStep(p, states(n), actions(n));
    StepsNear(p, states(n), actions(n));
    m := n + 1;
    if !IsAnswered(p, states(n), states(m)) {
      m := EndlessAnswers(p, states, actions, m);
    }
  }

  /** A run without end decides the login. */
  lemma {:induction false} EndlessDecides(p: Parties, states: nat -> State, actions: nat -> Action, n: nat)
    returns (m: nat)
    requires Fits(p) && IsEndless(p, states, actions) && IsUndecided(states(n).phase)
    ensures m > n && IsDecided(p, states(m))
    decreases Distance(states(n)), Travelling(states(n))
  {
    hide Can, Do, Fits, Inv, Reachable, IsEndless, Distance, Travelling, IsDecided;
    EndlessReaches(p, states, actions, n);
    EndlessReaches(p, states, actions, n + 1);
    ReachableKeeps(p, states(n));
    LoginStep(p, states(n), actions(n));
    StepsNear(p, states(n), actions(n));
    m := n + 1;
    if IsUndecided(states(m).phase) {
      m := EndlessDecides(p, states, actions, m);
    } else {
      Decided(p, states(m));
    }
  }
}

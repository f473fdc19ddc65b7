/**
 * A client and a session over two byte channels. Bytes written travel in whatever pieces the
 * network likes; a party reads when a whole message has arrived.
 */
module Conversation {
  import opened Batch
  import opened Bytes
  import opened Client
  import opened Exchange
  import opened Login
  import opened LoginTable
  import opened Prelogin
  import opened Runs
  import opened Session
  import opened Sizes
  import Text
  import opened Token
  import opened Wire
  import opened Wrappers

  /** Bytes on their way to one party: those that have arrived and those still travelling. */
  datatype Channel = Channel(arrived: bytes, travelling: bytes) {
    function Total(): bytes {
      arrived + travelling
    }

    function Send(s: bytes): Channel {
      Channel(arrived, travelling + s)
    }

    function Carry(n: nat): Channel
      requires n <= |travelling|
    {
      Channel(arrived + travelling[..n], travelling[n..])
    }
  }

  /** Who is talking: the service, the login it expects, and the client's login. */
  datatype Parties = Parties(
    service: Service, expected: Option<Login>, login: Login, database: string, processId: u32)
  {
    function Login7(): Login7 {
      NewLogin7(login, database)
    }
  }

  /** Where a client stands. */
  datatype Phase =
    | AwaitsGreeting
    | AwaitsTerms
    | Idle(terms: Terms, outcomes: seq<Outcome<QueryResult>>)
    | AwaitsAnswer(terms: Terms, outcomes: seq<Outcome<QueryResult>>)
    | Hung(terms: Terms, outcomes: seq<Outcome<QueryResult>>)
    | Down(fault: Fault)

  /** The whole of a conversation; `asked` is every batch the client has sent. */
  datatype State = State(phase: Phase, stage: Stage, toServer: Channel, toClient: Channel, asked: seq<string>)

  predicate Awaits(phase: Phase) {
    phase.AwaitsGreeting? || phase.AwaitsTerms? || phase.AwaitsAnswer?
  }

  /** The phase a message leads to and the bytes it is followed by. */
  function Receive(p: Parties, phase: Phase, incoming: Incoming): (Phase, bytes)
    requires Awaits(phase)
  {
    match phase
    case AwaitsGreeting =>
      (match AnswerBody(incoming)
       case Failure(fault) => (Down(fault), [])
       case Success(body) =>
         match LoginMessage(p.login, p.database, p.processId, body)
         case Failure(fault) => (Down(fault), [])
         case Success(message) => (AwaitsTerms, message))
    case AwaitsTerms =>
      (match TermsOutcome(p.service.d, incoming)
       case Failure(fault) => (Down(fault), [])
       case Success(terms) => (Idle(terms, []), []))
    case AwaitsAnswer(terms, outcomes) => (Idle(terms, outcomes + [BatchOutcome(p.service.d, incoming)]), [])
  }

  // ----- Steps

  datatype Action =
    | CarryToServer(n: nat)
    | CarryToClient(n: nat)
    | ServerReads
    | ClientReads
    | ClientAsks(sql: string)
    | ClientHangsUp
    | ServerSeesClose
    | ServerGivesUp
    | ClientGivesUp

  /** No bytes to come could make a message of these. */
  ghost predicate Hopeless(arrived: bytes, ceiling: nat) {
    forall more :: ReadMessage(arrived + more, ceiling).Refused?
  }

  predicate IsGone(stage: Stage) {
    stage.TurnedAway? || stage.Broken? || stage.Ended?
  }

  /** The batches within the limits of the format: a payload and an answer that can be carried. */
  ghost predicate Askable(p: Parties, asked: seq<string>, sql: string) {
    var answer := AnswerTo(p.service, p.database, asked, sql).0;
    && |BatchBytes(sql)| <= p.service.ceiling
    && Servable(answer)
    && |TokensBytes(p.service.d, [], AnswerTokens(answer))| <= p.service.ceiling
  }

  /** Whether an action can be taken. A party gives up where what arrived can no longer be a message. */
  ghost predicate Can(p: Parties, s: State, a: Action) {
    match a
    case CarryToServer(n) => 0 < n <= |s.toServer.travelling|
    case CarryToClient(n) => 0 < n <= |s.toClient.travelling|
    case ServerReads => Reads(s.stage) && ReadMessage(s.toServer.arrived, p.service.ceiling).Message?
    case ClientReads => Awaits(s.phase) && ReadMessage(s.toClient.arrived, p.service.ceiling).Message?
    case ClientAsks(sql) => s.phase.Idle? && Askable(p, s.asked, sql)
    case ClientHangsUp => s.phase.Idle?
    case ServerSeesClose => s.stage.Serving? && s.phase.Hung? && s.toServer.Total() == []
    case ServerGivesUp =>
      && Reads(s.stage)
      && (|| Hopeless(s.toServer.arrived, p.service.ceiling)
          || (s.phase.Hung? && s.toServer.travelling == []
              && ReadMessage(s.toServer.arrived, p.service.ceiling).Refused?))
    case ClientGivesUp =>
      && Awaits(s.phase)
      && (|| Hopeless(s.toClient.arrived, p.service.ceiling)
          || (IsGone(s.stage) && s.toClient.travelling == []
              && !ReadMessage(s.toClient.arrived, p.service.ceiling).Message?))
  }

  ghost function Do(p: Parties, s: State, a: Action): State
    requires Can(p, s, a)
  {
    match a
    case CarryToServer(n) => s.(toServer := s.toServer.Carry(n))
    case CarryToClient(n) => s.(toClient := s.toClient.Carry(n))
    case ServerReads =>
      var m := ReadMessage(s.toServer.arrived, p.service.ceiling);
      var (stage, sent) := React(p.service, p.expected, s.stage, m.kind, m.payload);
      s.(stage := stage, toServer := Channel(m.rest, s.toServer.travelling), toClient := s.toClient.Send(sent))
    case ClientReads =>
      var m := ReadMessage(s.toClient.arrived, p.service.ceiling);
      var (phase, sent) := Receive(p, s.phase, m);
      s.(phase := phase, toClient := Channel(m.rest, s.toClient.travelling), toServer := s.toServer.Send(sent))
    case ClientAsks(sql) =>
      s.(phase := AwaitsAnswer(s.phase.terms, s.phase.outcomes),
         toServer := s.toServer.Send(MessageBytes(SQL_BATCH, BatchBytes(sql), s.phase.terms.packetSize)),
         asked := s.asked + [sql])
    case ClientHangsUp => s.(phase := Hung(s.phase.terms, s.phase.outcomes))
    case ServerSeesClose => s.(stage := Ended(s.stage.login, s.stage.asked, s.stage.events))
    case ServerGivesUp => s.(stage := Broken)
    case ClientGivesUp => s.(phase := Down(Protocol))
  }

  /** A fresh connection: the client has written its pre-login. */
  function Start(): State {
    State(AwaitsGreeting, AwaitsHello, Channel([], Opening()), Channel([], []), [])
  }

  /** The actions can be taken one after the other from a fresh connection. */
  ghost predicate IsRun(p: Parties, actions: seq<Action>)
    decreases |actions|, 0
  {
    |actions| > 0 ==>
      var before := actions[..|actions| - 1];
      IsRun(p, before) && Can(p, After(p, before), actions[|actions| - 1])
  }

  ghost function After(p: Parties, actions: seq<Action>): State
    requires IsRun(p, actions)
    decreases |actions|, 1
  {
    if |actions| == 0 then Start()
    else
      var before := actions[..|actions| - 1];
      Do(p, After(p, before), actions[|actions| - 1])
  }

  // ----- What is to be expected

  /**
   * The limits a login must keep: its database begins where an offset can say and leaves room for
   * itself in a note, and both it and its welcome are within the ceiling.
   */
  ghost predicate Fits(p: Parties) {
    && DatabaseOffset(p.login) <= U16_MAX
    && |Text.Units(p.database)| <= LONGEST_DATABASE
    && LoginSize(p.login, p.database) <= p.service.ceiling
    && WelcomeSize(p.database) <= p.service.ceiling
  }

  /**
   * Of the messages a login may take: the login's table can point at every field, the tokens
   * answering it fit their length fields, and each message is within the ceiling.
   */
  ghost predicate Carries(p: Parties) {
    var c, d := p.service.ceiling, p.service.d;
    && Addressable(p.Login7())
    && AllEncode(d, [], WelcomeTokens(p.database))
    && AllEncode(d, [], RefusalTokens(p.login.user))
    && LoginLength(p.Login7()) <= c
    && |PreloginBytes(DEFAULT)| <= c && |PreloginBytes(ServerHello())| <= c
    && |TokensBytes(d, [], WelcomeTokens(p.database))| <= c
    && |TokensBytes(d, [], RefusalTokens(p.login.user))| <= c
  }

  ghost predicate AllAskable(p: Parties, asked: seq<string>) {
    |asked| > 0 ==> AllAskable(p, asked[..|asked| - 1]) && Askable(p, asked[..|asked| - 1], asked[|asked| - 1])
  }

  /** What each batch in turn is to come back with. */
  ghost function ExpectedOutcomes(p: Parties, asked: seq<string>): (outcomes: seq<Outcome<QueryResult>>)
    requires AllAskable(p, asked)
    ensures |outcomes| == |asked|
  {
    if |asked| == 0 then []
    else
      var before := asked[..|asked| - 1];
      ExpectedOutcomes(p, before) + [ExpectedOutcome(AnswerTo(p.service, p.database, before, asked[|asked| - 1]).0)]
  }

  /** What a session is to report each batch in turn as. */
  function ExpectedEvents(p: Parties, asked: seq<string>): (events: seq<Event>)
    ensures |events| == |asked|
  {
    if |asked| == 0 then []
    else
      var before := asked[..|asked| - 1];
      ExpectedEvents(p, before) + [AnswerTo(p.service, p.database, before, asked[|asked| - 1]).1]
  }

  ghost predicate IsRefused(p: Parties) {
    Refuses(p.expected, p.login)
  }

  function Greeting(): bytes {
    MessageBytes(TABULAR_RESULT, PreloginBytes(ServerHello()), DEFAULT_PACKET_SIZE)
  }

  function LoginWire(p: Parties): bytes {
    MessageBytes(LOGIN7, LoginBytes(p.Login7(), p.processId), DEFAULT_PACKET_SIZE)
  }

  function BatchWire(sql: string): bytes {
    MessageBytes(SQL_BATCH, BatchBytes(sql), DEFAULT_PACKET_SIZE)
  }

  function AnswerWire(p: Parties, asked: seq<string>, sql: string): bytes {
    AnswerMessage(p.service.d, AnswerTokens(AnswerTo(p.service, p.database, asked, sql).0))
  }

  function RefusedFault(p: Parties): Fault {
    Answered(LOGIN_FAILED, FailedText(p.login.user))
  }

  /** The session has answered `asked` and reported it. */
  ghost predicate Served(p: Parties, stage: Stage, asked: seq<string>) {
    stage == Serving(p.Login7(), asked, ExpectedEvents(p, asked))
  }

  ghost predicate Quiet(s: State) {
    s.toServer.Total() == [] && s.toClient.Total() == []
  }

  ghost predicate OnlyUp(s: State, message: bytes) {
    s.toServer.Total() == message && s.toClient.Total() == []
  }

  ghost predicate OnlyDown(s: State, message: bytes) {
    s.toServer.Total() == [] && s.toClient.Total() == message
  }

  ghost predicate GreetingInv(p: Parties, s: State) {
    && s.asked == []
    && (|| (s.stage == AwaitsHello && OnlyUp(s, Opening()))
        || (s.stage == AwaitsLogin && OnlyDown(s, Greeting())))
  }

  ghost predicate TermsInv(p: Parties, s: State) {
    && s.asked == []
    && (|| (s.stage == AwaitsLogin && OnlyUp(s, LoginWire(p)))
        || (!IsRefused(p) && Served(p, s.stage, [])
            && OnlyDown(s, AnswerMessage(p.service.d, WelcomeTokens(p.database))))
        || (IsRefused(p) && s.stage == TurnedAway(p.Login7())
            && OnlyDown(s, AnswerMessage(p.service.d, RefusalTokens(p.login.user)))))
  }

  ghost predicate AnswerInv(p: Parties, s: State, outcomes: seq<Outcome<QueryResult>>) {
    && |s.asked| > 0 && AllAskable(p, s.asked)
    && var before, sql := s.asked[..|s.asked| - 1], s.asked[|s.asked| - 1];
    && outcomes == ExpectedOutcomes(p, before)
    && (|| (Served(p, s.stage, before) && OnlyUp(s, BatchWire(sql)))
        || (Served(p, s.stage, s.asked) && OnlyDown(s, AnswerWire(p, before, sql))))
  }

  ghost predicate SettledInv(p: Parties, s: State, outcomes: seq<Outcome<QueryResult>>) {
    && Quiet(s) && AllAskable(p, s.asked)
    && outcomes == ExpectedOutcomes(p, s.asked)
  }

  /** What holds in every state a run can reach. */
  ghost predicate Inv(p: Parties, s: State) {
    match s.phase
    case AwaitsGreeting => GreetingInv(p, s)
    case AwaitsTerms => TermsInv(p, s)
    case Down(fault) =>
      IsRefused(p) && s.asked == [] && Quiet(s) && s.stage == TurnedAway(p.Login7()) && fault == RefusedFault(p)
    case Idle(terms, outcomes) =>
      !IsRefused(p) && terms == SETTLED && SettledInv(p, s, outcomes) && Served(p, s.stage, s.asked)
    case AwaitsAnswer(terms, outcomes) => !IsRefused(p) && terms == SETTLED && AnswerInv(p, s, outcomes)
    case Hung(terms, outcomes) =>
      && !IsRefused(p) && terms == SETTLED && SettledInv(p, s, outcomes)
      && (|| Served(p, s.stage, s.asked)
          || s.stage == Ended(p.Login7(), s.asked, ExpectedEvents(p, s.asked)))
  }
}

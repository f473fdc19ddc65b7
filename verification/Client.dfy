/** A client's calls, and what they make of any bytes a server sends. */
module Client {
  import opened Batch
  import opened Bytes
  import opened Column
  import opened Dialect
  import opened Login
  import opened Prelogin
  import opened Runs
  import opened Text
  import opened Token
  import opened Wire
  import opened Wrappers

  /** Why a client's call failed. */
  datatype Fault = Protocol | EncryptionRequired | NotAcknowledged | Answered(number: i32, text: string)

  /** Only an answered error is retryable, and only by its number. */
  predicate IsRetryable(fault: Fault) {
    && fault.Answered?
    && fault.number in {-2, 233, 1204, 1205, 1222, 8645, 8651, 10053, 10054, 10060, 40197, 40501,
                        40613, 49918, 49919, 49920}
  }

  datatype Outcome<+T> = Failure(fault: Fault) | Success(value: T) {
    predicate IsFailure() {
      Failure?
    }

    function PropagateFailure<U>(): Outcome<U>
      requires Failure?
    {
      Failure(fault)
    }

    function Extract(): T
      requires Success?
    {
      value
    }
  }

  /** The names, rows and count that `QueryOutcome` finds in a list of tokens. */
  datatype QueryResult = QueryResult(columns: seq<string>, rows: seq<seq<Cell>>, rowsAffected: u64)

  /** What a login settled. */
  datatype Terms = Terms(packetSize: u16, program: string)

  function SqlError(note: Note): Fault {
    Answered(note.number, note.text)
  }

  // ----- What a token list says

  function Names(columns: seq<Column>): (names: seq<string>)
    ensures |names| == |columns|
    ensures forall i :: 0 <= i < |columns| ==> names[i] == columns[i].name
  {
    if |columns| == 0 then [] else [columns[0].name] + Names(columns[1..])
  }

  /** Every row, in order, whichever result set it is of. */
  function RowsOf(tokens: seq<Token>): seq<seq<Cell>> {
    if |tokens| == 0 then []
    else
      var last := tokens[|tokens| - 1];
      RowsOf(tokens[..|tokens| - 1]) + (if last.Row? then [last.values] else [])
  }

  predicate CountsRows(token: Token) {
    (token.Done? || token.DoneProc? || token.DoneInProc?) && (token.status / DONE_COUNT) % 2 == 1
  }

  /** Where the last token that `p` holds of is, or none. */
  function LastWhere(tokens: seq<Token>, p: Token -> bool): (at: Option<nat>)
    ensures match at
            case None => forall i :: 0 <= i < |tokens| ==> !p(tokens[i])
            case Some(k) => k < |tokens| && p(tokens[k]) && forall i :: k < i < |tokens| ==> !p(tokens[i])
  {
    if |tokens| == 0 then None
    else if p(tokens[|tokens| - 1]) then Some(|tokens| - 1)
    else LastWhere(tokens[..|tokens| - 1], p)
  }

  /** Where the first token that `p` holds of is, or none. */
  function FirstWhere(tokens: seq<Token>, p: Token -> bool): (at: Option<nat>)
    ensures match at
            case None => forall i :: 0 <= i < |tokens| ==> !p(tokens[i])
            case Some(k) => k < |tokens| && p(tokens[k]) && forall i :: 0 <= i < k ==> !p(tokens[i])
  {
    if |tokens| == 0 then None
    else
      match FirstWhere(tokens[..|tokens| - 1], p)
      case Some(k) => Some(k)
      case None => if p(tokens[|tokens| - 1]) then Some(|tokens| - 1) else None
  }

  predicate IsError(token: Token) {
    token.Error?
  }

  predicate IsMetadata(token: Token) {
    token.ColMetadata?
  }

  predicate IsAck(token: Token) {
    token.LoginAck?
  }

  /** The packet size a token settles, where it settles one. */
  function SizeOf(token: Token): Option<u16> {
    if !token.EnvChange? || token.kind != ENV_PACKET_SIZE then None
    else
      match OfUnsigned(token.current)
      case Some(n) => if n <= U16_MAX then Some(Clamp(n, MIN_PACKET_SIZE, MAX_PACKET_SIZE)) else None
      case None => None
  }

  predicate SettlesSize(token: Token) {
    SizeOf(token).Some?
  }

  /** The names the last metadata declared. */
  function NamesOf(tokens: seq<Token>): seq<string> {
    match LastWhere(tokens, IsMetadata)
    case None => []
    case Some(k) => Names(tokens[k].columns)
  }

  /** What the last token that counted rows said. */
  function CountOf(tokens: seq<Token>): u64 {
    match LastWhere(tokens, CountsRows)
    case None => 0
    case Some(k) => tokens[k].rows
  }

  /** The size the last token that settled one settled, or the default. */
  function SettledSize(tokens: seq<Token>): (n: u16)
    ensures MIN_PACKET_SIZE <= n <= MAX_PACKET_SIZE
  {
    match LastWhere(tokens, SettlesSize)
    case None => DEFAULT_PACKET_SIZE
    case Some(k) => SizeOf(tokens[k]).value
  }

  function LastProgram(tokens: seq<Token>): Option<string> {
    match LastWhere(tokens, IsAck)
    case None => None
    case Some(k) => Some(tokens[k].program)
  }

  /** A batch's tokens read: refused where they broke off, then the last error, then the result. */
  function QueryOutcome(run: Run): Outcome<QueryResult> {
    if !run.complete then Failure(Protocol)
    else
      match LastWhere(run.tokens, IsError)
      case Some(k) => Failure(SqlError(run.tokens[k].note))
      case None => Success(QueryResult(NamesOf(run.tokens), RowsOf(run.tokens), CountOf(run.tokens)))
  }

  /** A login's tokens read: the first error, then a break, then a missing acknowledgement, then the terms. */
  function LoginOutcome(run: Run): Outcome<Terms> {
    match FirstWhere(run.tokens, IsError)
    case Some(k) => Failure(SqlError(run.tokens[k].note))
    case None =>
      if !run.complete then Failure(Protocol)
      else
        match LastProgram(run.tokens)
        case None => Failure(NotAcknowledged)
        case Some(program) => Success(Terms(SettledSize(run.tokens), program))
  }

  /** A login is settled exactly when its tokens read to the end with an acknowledgement and no error. */
  lemma LoginOutcomeExactly(run: Run)
    ensures LoginOutcome(run).Success? <==>
            && run.complete
            && (forall i :: 0 <= i < |run.tokens| ==> !run.tokens[i].Error?)
            && exists i :: 0 <= i < |run.tokens| && run.tokens[i].LoginAck?
    ensures LoginOutcome(run).Success? ==> MIN_PACKET_SIZE <= LoginOutcome(run).value.packetSize <= MAX_PACKET_SIZE
  {
    var ack := LastWhere(run.tokens, IsAck);
    var error := FirstWhere(run.tokens, IsError);
    forall i | 0 <= i < |run.tokens| ensures IsAck(run.tokens[i]) <==> run.tokens[i].LoginAck? {}
    forall i | 0 <= i < |run.tokens| ensures IsError(run.tokens[i]) <==> run.tokens[i].Error? {}
  }

  /** Rows come in the order of their tokens, result set after result set. */
  lemma {:induction false} RowsOfConcat(a: seq<Token>, b: seq<Token>)
    ensures RowsOf(a + b) == RowsOf(a) + RowsOf(b)
  {
    if |b| == 0 {
      assert a + b == a;
    } else {
      var front, last := b[..|b| - 1], b[|b| - 1];
      RowsOfConcat(a, front);
      assert (a + b)[..|a + b| - 1] == a + front;
      assert (a + b)[|a + b| - 1] == last;
    }
  }

  /** The last of `tokens` that `p` holds of is the one at `k`. */
  ghost predicate IsLastWith(tokens: seq<Token>, p: Token -> bool, k: nat) {
    k < |tokens| && p(tokens[k]) && forall i :: k < i < |tokens| ==> !p(tokens[i])
  }

  /**
   * A batch has a result exactly when its tokens read to the end without an error; its names are
   * the last metadata's, its count the last counting token's, and its error the last.
   */
  lemma QueryOutcomeExactly(run: Run)
    ensures QueryOutcome(run).Success? <==>
            run.complete && forall i :: 0 <= i < |run.tokens| ==> !run.tokens[i].Error?
    ensures QueryOutcome(run).Success? ==>
              var r := QueryOutcome(run).value;
              && r.rows == RowsOf(run.tokens)
              && (forall k: nat :: IsLastWith(run.tokens, IsMetadata, k) ==> r.columns == Names(run.tokens[k].columns))
              && (forall k: nat :: IsLastWith(run.tokens, CountsRows, k) ==> r.rowsAffected == run.tokens[k].rows)
              && ((forall i :: 0 <= i < |run.tokens| ==> !CountsRows(run.tokens[i])) ==> r.rowsAffected == 0)
              && ((forall i :: 0 <= i < |run.tokens| ==> !IsMetadata(run.tokens[i])) ==> r.columns == [])
    ensures forall k: nat :: IsLastWith(run.tokens, IsError, k) && run.complete ==>
              QueryOutcome(run) == Failure(Answered(run.tokens[k].note.number, run.tokens[k].note.text))
  {
    forall i | 0 <= i < |run.tokens| ensures IsError(run.tokens[i]) <==> run.tokens[i].Error? {}
    forall p: Token -> bool, k: nat | IsLastWith(run.tokens, p, k) ensures LastWhere(run.tokens, p) == Some(k) {}
  }

  // ----- What is written and read

  function Opening(): bytes {
    MessageBytes(PRELOGIN, PreloginBytes(DEFAULT), DEFAULT_PACKET_SIZE)
  }

  /** The payload of a message of the tabular type; nothing else is an answer. */
  function AnswerBody(incoming: Incoming): Outcome<bytes> {
    if incoming.Message? && incoming.kind == TABULAR_RESULT then Success(incoming.payload) else Failure(Protocol)
  }

  /** What a message that answers a batch comes to. */
  function BatchOutcome(d: Dialect, incoming: Incoming): Outcome<QueryResult> {
    match AnswerBody(incoming)
    case Failure(fault) => Failure(fault)
    case Success(body) => QueryOutcome(ReadRun(d, [], body))
  }

  /** What a message that answers a login comes to. */
  function TermsOutcome(d: Dialect, incoming: Incoming): Outcome<Terms> {
    match AnswerBody(incoming)
    case Failure(fault) => Failure(fault)
    case Success(body) => LoginOutcome(ReadRun(d, [], body))
  }

  /** What the client sends once the server has answered its pre-login. */
  function LoginMessage(login: Login, database: string, processId: u32, body: bytes): Outcome<bytes> {
    match PreloginOf(body)
    case None => Failure(Protocol)
    case Some(p) =>
      if p.encryption != ENCRYPT_NOT_SUP && p.encryption != ENCRYPT_OFF then Failure(EncryptionRequired)
      else Success(MessageBytes(LOGIN7, LoginBytes(NewLogin7(login, database), processId), DEFAULT_PACKET_SIZE))
  }

  /** A whole login: how it went, what was sent, and what is left to read. */
  datatype Attempt = Attempt(outcome: Outcome<Terms>, sent: bytes, rest: bytes)

  /** `Connect` against the bytes `s` the server sends. */
  function ConnectRun(d: Dialect, ceiling: nat, login: Login, database: string, processId: u32, s: bytes): Attempt {
    var first := ReadMessage(s, ceiling);
    match AnswerBody(first)
    case Failure(fault) => Attempt(Failure(fault), Opening(), [])
    case Success(hello) =>
      match LoginMessage(login, database, processId, hello)
      case Failure(fault) => Attempt(Failure(fault), Opening(), [])
      case Success(message) =>
        var second := ReadMessage(first.rest, ceiling);
        Attempt(TermsOutcome(d, second), Opening() + message, if second.Message? then second.rest else [])
  }

  // ----- The tokens one by one

  lemma {:induction false} RunSplit(d: Dialect, columns: seq<Column>, s: bytes, seen: seq<Token>, whole: Run)
    requires var ahead := ReadRun(d, columns, s); whole == Run(seen + ahead.tokens, ahead.columns, ahead.complete)
    ensures |s| == 0 ==> whole.tokens == seen && whole.complete
    ensures |s| > 0 && NextToken(d, columns, s).Bad? ==> whole.tokens == seen && !whole.complete
    ensures |s| > 0 && NextToken(d, columns, s).Got? ==>
              var reading := NextToken(d, columns, s).value;
              var more := ReadRun(d, reading.columns, NextToken(d, columns, s).rest);
              whole == Run((seen + [reading.token]) + more.tokens, more.columns, more.complete)
  {
    hide NextToken;
    if |s| > 0 && NextToken(d, columns, s).Got? {
      var reading := NextToken(d, columns, s).value;
      var more := ReadRun(d, reading.columns, NextToken(d, columns, s).rest);
      assert seen + ([reading.token] + more.tokens) == (seen + [reading.token]) + more.tokens;
    }
  }

  /** The first error stands however many tokens follow it. */
  lemma FirstStands(seen: seq<Token>, token: Token, more: seq<Token>)
    requires IsError(token) && FirstWhere(seen, IsError).None?
    ensures FirstWhere(seen + [token] + more, IsError) == Some(|seen|)
  {
    var tokens := seen + [token] + more;
    assert tokens[|seen|] == token;
    forall i | 0 <= i < |seen| ensures !IsError(tokens[i]) {
      assert tokens[i] == seen[i];
    }
  }

  lemma LastOfSnoc(seen: seq<Token>, token: Token, p: Token -> bool)
    ensures LastWhere(seen + [token], p) == if p(token) then Some(|seen|) else LastWhere(seen, p)
  {
    assert (seen + [token])[..|seen|] == seen;
  }

  lemma FoldsOfSnoc(seen: seq<Token>, token: Token)
    ensures RowsOf(seen + [token]) == RowsOf(seen) + if token.Row? then [token.values] else []
    ensures NamesOf(seen + [token]) == if token.ColMetadata? then Names(token.columns) else NamesOf(seen)
    ensures CountOf(seen + [token]) == if CountsRows(token) then token.rows else CountOf(seen)
  {
    var tokens := seen + [token];
    assert tokens[..|seen|] == seen;
    LastOfSnoc(seen, token, IsMetadata);
    LastOfSnoc(seen, token, CountsRows);
  }

  lemma LoginFoldsOfSnoc(seen: seq<Token>, token: Token)
    ensures LastProgram(seen + [token]) == if token.LoginAck? then Some(token.program) else LastProgram(seen)
    ensures SettledSize(seen + [token]) == if SizeOf(token).Some? then SizeOf(token).value else SettledSize(seen)
    ensures !IsError(token) && FirstWhere(seen, IsError).None? ==> FirstWhere(seen + [token], IsError).None?
  {
    LastOfSnoc(seen, token, IsAck);
    LastOfSnoc(seen, token, SettlesSize);
    assert (seen + [token])[..|seen|] == seen;
  }

  lemma NothingSettled()
    ensures FirstWhere([], IsError).None? && LastProgram([]).None? && SettledSize([]) == DEFAULT_PACKET_SIZE
  {
  }

  /** What a login comes to where no more tokens are read. */
  lemma LoginEnds(run: Run, seen: seq<Token>)
    requires FirstWhere(seen, IsError).None?
    ensures run.tokens == seen ==>
              LoginOutcome(run) ==
              if !run.complete then Failure(Protocol)
              else match LastProgram(seen)
                   case None => Failure(NotAcknowledged)
                   case Some(program) => Success(Terms(SettledSize(seen), program))
  {
    hide FirstWhere, LastProgram, SettledSize;
  }

  /** What a login comes to at its first error. */
  lemma LoginRefused(run: Run, seen: seq<Token>, token: Token, more: seq<Token>)
    requires run.tokens == seen + [token] + more && IsError(token) && FirstWhere(seen, IsError).None?
    ensures LoginOutcome(run) == Failure(SqlError(token.note))
  {
    hide FirstWhere;
    FirstStands(seen, token, more);
  }

  lemma NothingCollected()
    ensures NamesOf([]) == [] && RowsOf([]) == [] && CountOf([]) == 0 && LastWhere([], IsError).None?
  {
  }

  /** What a batch comes to where no more tokens are read. */
  lemma QueryEnds(run: Run, seen: seq<Token>)
    ensures run.tokens == seen ==>
              QueryOutcome(run) ==
              if !run.complete then Failure(Protocol)
              else match LastWhere(seen, IsError)
                   case Some(k) => Failure(SqlError(seen[k].note))
                   case None => Success(QueryResult(NamesOf(seen), RowsOf(seen), CountOf(seen)))
  {
    hide LastWhere, NamesOf, RowsOf, CountOf;
  }

  // ----- The client itself

  /** A client as it changes; every call is proved against the bytes that are `Ahead` of it. */
  class Client {
    const d: Dialect
    const ceiling: nat
    const reader: Reader
    /** Everything written to the server so far. */
    var sent: bytes
    var packetSize: u16
    var program: string

    ghost predicate Valid()
      reads this, reader
    {
      reader.Valid()
    }

    /** The bytes of the server's that are still to be read. */
    ghost function Ahead(): bytes
      requires Valid()
      reads this, reader
    {
      reader.Rest()
    }

    constructor (d: Dialect, ceiling: nat, reader: Reader)
      requires reader.Valid()
      ensures Valid() && this.d == d && this.ceiling == ceiling && this.reader == reader
      ensures sent == [] && packetSize == DEFAULT_PACKET_SIZE && program == ""
    {
      this.d := d;
      this.ceiling := ceiling;
      this.reader := reader;
      sent := [];
      packetSize := DEFAULT_PACKET_SIZE;
      program := "";
    }

    method Write(kind: byte, payload: bytes)
      modifies this
      ensures sent == old(sent) + MessageBytes(kind, payload, packetSize)
      ensures packetSize == old(packetSize) && program == old(program)
    {
      var message := Packets(kind, payload, packetSize);
      sent := sent + message;
    }

    /** Takes one message off what is ahead, and yields its payload if it is an answer. */
    method Read() returns (r: Outcome<bytes>)
      requires Valid()
      modifies reader
      ensures Valid()
      ensures r == AnswerBody(ReadMessage(old(Ahead()), ceiling))
      ensures r.Success? ==> Ahead() == ReadMessage(old(Ahead()), ceiling).rest
    {
      var read := ReceiveMessage(reader, ceiling);
      match read {
        case Err => r := Failure(Protocol);
        case Ok(None) => r := Failure(Protocol);
        case Ok(Some((kind, body))) => r := if kind == TABULAR_RESULT then Success(body) else Failure(Protocol);
      }
    }

    /** Take what the login's tokens settle, up to the first error among them. */
    method Settle(body: bytes) returns (r: Outcome<()>)
      requires packetSize == DEFAULT_PACKET_SIZE
      modifies this
      ensures sent == old(sent)
      ensures match LoginOutcome(ReadRun(d, [], body))
              case Failure(fault) => r == Failure(fault)
              case Success(terms) => r.Success? && packetSize == terms.packetSize && program == terms.program
    {
      hide NextToken, ReadRun, SizeOf, LoginOutcome, FirstWhere, LastProgram, SettledSize;
      var tokens := new TokenStream(d, body);
      var acknowledged := false;
      ghost var whole := ReadRun(d, [], body);
      ghost var seen: seq<Token> := [];
      assert [] + whole.tokens == whole.tokens;
      NothingSettled();
      while true
        invariant fresh(tokens) && fresh(tokens.cursor) && tokens.Valid() && tokens.d == d
        invariant sent == old(sent)
        invariant var ahead := ReadRun(d, tokens.columns, tokens.Rest());
                  whole == Run(seen + ahead.tokens, ahead.columns, ahead.complete)
        invariant FirstWhere(seen, IsError).None?
        invariant packetSize == SettledSize(seen)
        invariant if acknowledged then LastProgram(seen) == Some(program) else LastProgram(seen) == None
        decreases |tokens.Rest()|
      {
        RunSplit(d, tokens.columns, tokens.Rest(), seen, whole);
        LoginEnds(whole, seen);
        var next := tokens.Next();
        if next.Err? {
          return Failure(Protocol);
        }
        if next.value.None? {
          break;
        }
        var token := next.value.value;
        LoginFoldsOfSnoc(seen, token);
        if token.LoginAck? {
          program := token.program;
          acknowledged := true;
        } else if token.EnvChange? && token.kind == ENV_PACKET_SIZE {
          var size := SizeOf(token);
          if size.Some? {
            packetSize := size.value;
          }
        } else if token.Error? {
          LoginRefused(whole, seen, token, ReadRun(d, tokens.columns, tokens.Rest()).tokens);
          return Failure(SqlError(token.note));
        }
        SizeOnlyOfEnv(token);
        seen := seen + [token];
      }
      r := if acknowledged then Success(()) else Failure(NotAcknowledged);
    }

    /** Sends and settles what `ConnectRun` says of the bytes ahead. */
    method Connect(login: Login, database: string, processId: u32) returns (r: Outcome<()>)
      requires Valid() && sent == [] && packetSize == DEFAULT_PACKET_SIZE
      modifies this, reader
      ensures Valid()
      ensures var run := ConnectRun(d, ceiling, login, database, processId, old(Ahead()));
              && sent == run.sent
              && match run.outcome
                 case Failure(fault) => r == Failure(fault)
                 case Success(terms) =>
                   r.Success? && packetSize == terms.packetSize && program == terms.program && Ahead() == run.rest
    {
      hide ReadMessage, PreloginBytes, PreloginOf, LoginBytes, MessageBytes, LoginOutcome, ReadRun,
           NewLogin7;
      var hello := EncodePrelogin(DEFAULT);
      Write(PRELOGIN, hello);
      assert sent == Opening();
      var body :- Read();
      var answer := ReadPrelogin(body);
      if answer.Err? {
        return Failure(Protocol);
      }
      if answer.value.encryption != ENCRYPT_NOT_SUP && answer.value.encryption != ENCRYPT_OFF {
        return Failure(EncryptionRequired);
      }
      var message := EncodeLogin7(NewLogin7(login, database), processId);
      Write(LOGIN7, message);
      var tokens :- Read();
      r := Settle(tokens);
    }

    /** Sends one batch, and yields the outcome of the tokens in the next message ahead. */
    method Query(sql: string) returns (r: Outcome<QueryResult>)
      requires Valid()
      modifies this, reader
      ensures Valid()
      ensures sent == old(sent) + MessageBytes(SQL_BATCH, BatchBytes(sql), old(packetSize))
      ensures packetSize == old(packetSize) && program == old(program)
      ensures var incoming := ReadMessage(old(Ahead()), ceiling);
              && r == BatchOutcome(d, incoming)
              && (AnswerBody(incoming).Success? ==> Ahead() == incoming.rest)
    {
      hide NextToken, ReadRun, MessageBytes, ReadMessage, BatchBytes;
      var batch := EncodeBatch(sql);
      Write(SQL_BATCH, batch);
      var body :- Read();
      r := Collect(body);
    }

    /** The result a batch's tokens make, or the last error among them. */
    method Collect(body: bytes) returns (r: Outcome<QueryResult>)
      ensures r == QueryOutcome(ReadRun(d, [], body))
    {
      hide NextToken, ReadRun, QueryOutcome, NamesOf, RowsOf, CountOf, LastWhere;
      var tokens := new TokenStream(d, body);
      var columns: seq<string> := [];
      var rows: seq<seq<Cell>> := [];
      var rowsAffected: u64 := 0;
      var failed: Option<Fault> := None;
      ghost var whole := ReadRun(d, [], body);
      ghost var seen: seq<Token> := [];
      assert [] + whole.tokens == whole.tokens;
      NothingCollected();
      while true
        invariant fresh(tokens) && fresh(tokens.cursor) && tokens.Valid() && tokens.d == d
        invariant var ahead := ReadRun(d, tokens.columns, tokens.Rest());
                  whole == Run(seen + ahead.tokens, ahead.columns, ahead.complete)
        invariant columns == NamesOf(seen) && rows == RowsOf(seen) && rowsAffected == CountOf(seen)
        invariant match LastWhere(seen, IsError)
                  case None => failed == None
                  case Some(k) => failed == Some(SqlError(seen[k].note))
        decreases |tokens.Rest()|
      {
        RunSplit(d, tokens.columns, tokens.Rest(), seen, whole);
        QueryEnds(whole, seen);
        var next := tokens.Next();
        if next.Err? {
          return Failure(Protocol);
        }
        if next.value.None? {
          break;
        }
        var token := next.value.value;
        FoldsOfSnoc(seen, token);
        LastOfSnoc(seen, token, IsError);
        if token.ColMetadata? {
          columns := Names(token.columns);
        } else if token.Row? {
          rows := rows + [token.values];
        } else if token.Error? {
          failed := Some(SqlError(token.note));
        } else if CountsRows(token) {
          rowsAffected := token.rows;
        }
        seen := seen + [token];
      }
      r := if failed.Some? then Failure(failed.value) else Success(QueryResult(columns, rows, rowsAffected));
    }

    /** The count in the outcome `Query` would yield. */
    method Execute(sql: string) returns (r: Outcome<u64>)
      requires Valid()
      modifies this, reader
      ensures Valid()
      ensures sent == old(sent) + MessageBytes(SQL_BATCH, BatchBytes(sql), old(packetSize))
      ensures match BatchOutcome(d, ReadMessage(old(Ahead()), ceiling))
              case Failure(fault) => r == Failure(fault)
              case Success(result) => r == Success(result.rowsAffected)
    {
      hide ReadRun, MessageBytes, ReadMessage, BatchBytes, QueryOutcome;
      var result :- Query(sql);
      r := Success(result.rowsAffected);
    }
  }

  lemma SizeOnlyOfEnv(token: Token)
    ensures SizeOf(token).Some? ==> token.EnvChange? && token.kind == ENV_PACKET_SIZE
  {
  }
}

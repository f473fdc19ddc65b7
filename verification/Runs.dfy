/** Reading a token stream to its end: round trip, progress, and what a cut stream can give. */
module Runs {
  import opened Bytes
  import opened Column
  import opened Dialect
  import opened Parsing
  import opened Streams
  import Text
  import opened Token
  import opened Values
  import opened Wire

  /** What reading a payload gave: the tokens, the columns left in force, and whether it got to the end. */
  datatype Run = Run(tokens: seq<Token>, columns: seq<Column>, complete: bool)

  function ReadRun(d: Dialect, columns: seq<Column>, s: bytes): Run
    decreases |s|
  {
    if |s| == 0 then Run([], columns, true)
    else
      match NextToken(d, columns, s)
      case Bad => Run([], columns, false)
      case Got(reading, rest) =>
        var more := ReadRun(d, reading.columns, rest);
        Run([reading.token] + more.tokens, more.columns, more.complete)
  }

  // ----- Round trip

  ghost predicate AllEncode(d: Dialect, columns: seq<Column>, tokens: seq<Token>)
    decreases |tokens|
  {
    |tokens| > 0 ==> Encodes(d, columns, tokens[0]) && AllEncode(d, InForce(columns, tokens[0]), tokens[1..])
  }

  function NormalTokens(d: Dialect, columns: seq<Column>, tokens: seq<Token>): seq<Token>
    requires AllEncode(d, columns, tokens)
    decreases |tokens|
  {
    if |tokens| == 0 then []
    else [NormalToken(d, columns, tokens[0])] + NormalTokens(d, InForce(columns, tokens[0]), tokens[1..])
  }

  /** The columns the writer is left with. */
  function LastInForce(columns: seq<Column>, tokens: seq<Token>): seq<Column>
    decreases |tokens|
  {
    if |tokens| == 0 then columns else LastInForce(InForce(columns, tokens[0]), tokens[1..])
  }

  lemma TokenTakesBytes(d: Dialect, columns: seq<Column>, token: Token)
    ensures |TokenBytes(d, columns, token)| > 0
  {
  }

  lemma ReadRunStep(d: Dialect, columns: seq<Column>, s: bytes, reading: Reading, rest: bytes)
    requires |s| > 0 && NextToken(d, columns, s) == Got(reading, rest)
    ensures ReadRun(d, columns, s) == Run([reading.token] + ReadRun(d, reading.columns, rest).tokens,
                                          ReadRun(d, reading.columns, rest).columns,
                                          ReadRun(d, reading.columns, rest).complete)
  {
    hide NextToken;
  }

  /**
   * Reading what was written to its end gives every token back in its normal form, the reader's
   * columns in step with the writer's throughout.
   */
  lemma {:induction false} TokensBack(d: Dialect, columns: seq<Column>, tokens: seq<Token>)
    requires AllEncode(d, columns, tokens)
    ensures ReadRun(d, NormalColumns(columns), TokensBytes(d, columns, tokens))
         == Run(NormalTokens(d, columns, tokens), NormalColumns(LastInForce(columns, tokens)), true)
    decreases |tokens|
  {
    hide NextToken, TokenBytes, NormalToken, NormalColumns, Encodes;
    if |tokens| > 0 {
      var next := InForce(columns, tokens[0]);
      var rest := TokensBytes(d, next, tokens[1..]);
      var s := TokenBytes(d, columns, tokens[0]) + rest;
      TokenBack(d, columns, tokens[0], rest);
      TokenTakesBytes(d, columns, tokens[0]);
      ReadRunStep(d, NormalColumns(columns), s,
                  Reading(NormalToken(d, columns, tokens[0]), NormalColumns(next)), rest);
      TokensBack(d, next, tokens[1..]);
    }
  }

  /** The tokens that come back as they went: names the counts can say, cells in canonical form. */
  ghost predicate IsPlain(d: Dialect, columns: seq<Column>, token: Token) {
    match token
    case EnvChange(kind, current, previous) =>
      if NamesValues(kind) then Short(current) && Short(previous) else current == previous == ""
    case Info(note) => IsPlainNote(note)
    case Error(note) => IsPlainNote(note)
    case LoginAck(_, program) => Short(program)
    case ColMetadata(declared) => forall i :: 0 <= i < |declared| ==> Short(declared[i].name)
    case Row(values) =>
      && |values| == |columns|
      && forall i :: 0 <= i < |columns| ==> Canonical(d, columns[i].kind, values[i])
    case _ => true
  }

  /** Short enough for a one-byte count of code units. */
  predicate Short(name: string) {
    |Text.Units(name)| <= 0xFF
  }

  predicate IsPlainNote(note: Note) {
    |Text.Units(note.text)| <= U16_MAX && Short(note.server) && Short(note.procedure)
  }

  lemma ShortIsKept(name: string)
    ensures Short(name) <==> Cut(name, 0xFF) == name
  {
    CutIsExact(name, 0xFF);
  }

  lemma NoteIsKept(note: Note)
    ensures IsPlainNote(note) <==> NormalNote(note) == note
  {
    ShortIsKept(note.server);
    ShortIsKept(note.procedure);
    CutIsExact(note.text, U16_MAX);
  }

  lemma ColumnsAreKept(columns: seq<Column>)
    ensures (forall i :: 0 <= i < |columns| ==> Short(columns[i].name)) <==> NormalColumns(columns) == columns
  {
    hide Short, Cut;
    forall i | 0 <= i < |columns| ensures Short(columns[i].name) <==> NormalColumns(columns)[i] == columns[i] {
      ShortIsKept(columns[i].name);
    }
  }

  lemma CellIsKept(d: Dialect, kind: ColumnType, value: Cell)
    requires (kind.VarBinary? ==> d.Inverse()) && Encodable(d, kind, value)
    ensures Canonical(d, kind, value) <==> Normal(d, kind, value) == value
  {
    if !(kind.IntN? && value.None?) {
      NormalExactly(d, kind, value);
    }
  }

  lemma CellsAreKept(d: Dialect, columns: seq<Column>, values: seq<Cell>)
    requires Invertible(d, columns) && CellsEncode(d, columns, values)
    ensures (|values| == |columns| && forall i :: 0 <= i < |columns| ==> Canonical(d, columns[i].kind, values[i]))
       <==> NormalCells(d, columns, values) == values
  {
    hide Canonical, Normal, Encodable;
    forall i | 0 <= i < |columns|
      ensures Canonical(d, columns[i].kind, values[i]) <==> NormalCells(d, columns, values)[i] == values[i]
    {
      CellIsKept(d, columns[i].kind, values[i]);
    }
  }

  /** A token comes back as it went exactly when it is plain. */
  lemma PlainExactly(d: Dialect, columns: seq<Column>, token: Token)
    requires (token.Row? ==> Invertible(d, columns)) && Encodes(d, columns, token)
    ensures NormalToken(d, columns, token) == token <==> IsPlain(d, columns, token)
  {
    hide Short, Cut, NormalCells, NormalColumns, Canonical, CellsEncode, NormalNote, IsPlainNote;
    match token
    case EnvChange(_, current, previous) =>
      ShortIsKept(current);
      ShortIsKept(previous);
    case Info(note) => NoteIsKept(note);
    case Error(note) => NoteIsKept(note);
    case LoginAck(_, program) => ShortIsKept(program);
    case ColMetadata(declared) => ColumnsAreKept(declared);
    case Row(values) => CellsAreKept(d, columns, values);
    case _ =>
  }

  ghost predicate AllPlain(d: Dialect, columns: seq<Column>, tokens: seq<Token>)
    decreases |tokens|
  {
    |tokens| > 0 ==> IsPlain(d, columns, tokens[0]) && AllPlain(d, InForce(columns, tokens[0]), tokens[1..])
  }

  /** Wherever a binary column comes into force, the binary literal is read back as its bytes. */
  ghost predicate AllInvertible(d: Dialect, columns: seq<Column>, tokens: seq<Token>) {
    && Invertible(d, columns)
    && forall token <- tokens :: token.ColMetadata? ==> Invertible(d, token.columns)
  }

  lemma NextInvertible(d: Dialect, columns: seq<Column>, tokens: seq<Token>)
    requires |tokens| > 0 && AllInvertible(d, columns, tokens)
    ensures AllInvertible(d, InForce(columns, tokens[0]), tokens[1..])
  {
    hide Invertible;
    assert tokens[0] in tokens;
  }

  /** A payload gives its tokens back as they went exactly when every one of them is plain. */
  lemma {:induction false} PlainTokensExactly(d: Dialect, columns: seq<Column>, tokens: seq<Token>)
    requires AllInvertible(d, columns, tokens) && AllEncode(d, columns, tokens)
    ensures NormalTokens(d, columns, tokens) == tokens <==> AllPlain(d, columns, tokens)
    decreases |tokens|
  {
    hide NormalToken, IsPlain, Encodes, Invertible;
    if |tokens| > 0 {
      NextInvertible(d, columns, tokens);
      PlainExactly(d, columns, tokens[0]);
      PlainTokensExactly(d, InForce(columns, tokens[0]), tokens[1..]);
      assert tokens == [tokens[0]] + tokens[1..];
      assert NormalTokens(d, columns, tokens)[1..] == NormalTokens(d, InForce(columns, tokens[0]), tokens[1..]);
    }
  }

  /** For plain tokens: the list comes back, and the reader ends with the writer's columns. */
  lemma PlainRoundTrip(d: Dialect, tokens: seq<Token>)
    requires AllInvertible(d, [], tokens) && AllEncode(d, [], tokens) && AllPlain(d, [], tokens)
    ensures ReadRun(d, [], TokensBytes(d, [], tokens)).tokens == tokens
    ensures ReadRun(d, [], TokensBytes(d, [], tokens)).complete
    ensures ReadRun(d, [], TokensBytes(d, [], tokens)).columns == LastInForce([], tokens)
  {
    hide ReadRun, TokensBytes;
    TokensBack(d, [], tokens);
    PlainTokensExactly(d, [], tokens);
    PlainLast(d, [], tokens);
    assert NormalColumns([]) == [];
  }

  lemma {:induction false} PlainLast(d: Dialect, columns: seq<Column>, tokens: seq<Token>)
    requires AllPlain(d, columns, tokens) && NormalColumns(columns) == columns
    ensures NormalColumns(LastInForce(columns, tokens)) == LastInForce(columns, tokens)
    decreases |tokens|
  {
    if |tokens| > 0 {
      if tokens[0].ColMetadata? {
        ColumnsAreKept(tokens[0].columns);
      }
      PlainLast(d, InForce(columns, tokens[0]), tokens[1..]);
    }
  }

  // ----- Progress

  /** A body of n bytes gives at most n tokens. */
  lemma {:induction false} TokensBounded(d: Dialect, columns: seq<Column>, s: bytes)
    ensures |ReadRun(d, columns, s).tokens| <= |s|
    decreases |s|
  {
    hide NextToken;
    if |s| > 0 && NextToken(d, columns, s).Got? {
      TokensBounded(d, NextToken(d, columns, s).value.columns, NextToken(d, columns, s).rest);
    }
  }

  // ----- Locality

  lemma Ucs2Local(chars: nat, s: bytes) returns (used: bytes)
    requires Ucs2(chars, s).Got?
    ensures s == used + Ucs2(chars, s).rest
    ensures forall t :: Ucs2(chars, used + t) == Got(Ucs2(chars, s).value, t)
  {
    used := s[..2 * chars];
    forall t ensures Ucs2(chars, used + t) == Got(Ucs2(chars, s).value, t) {
      assert (used + t)[..2 * chars] == s[..2 * chars];
    }
  }

  lemma BVarcharLocal(s: bytes) returns (used: bytes)
    requires BVarchar(s).Got?
    ensures s == used + BVarchar(s).rest
    ensures forall t :: BVarchar(used + t) == Got(BVarchar(s).value, t)
  {
    hide Ucs2;
    var tail := Ucs2Local(s[0], s[1..]);
    used := [s[0]] + tail;
    forall t ensures BVarchar(used + t) == Got(BVarchar(s).value, t) {
      assert (used + t)[1..] == tail + t;
    }
  }

  lemma OneColumnLocal(s: bytes) returns (used: bytes)
    requires OneColumn(s).Got?
    ensures s == used + OneColumn(s).rest
    ensures forall t :: OneColumn(used + t) == Got(OneColumn(s).value, t)
  {
    hide TypeInfo, BVarchar;
    var kind := TypeInfoLocal(s[6..]);
    var name := BVarcharLocal(TypeInfo(s[6..]).rest);
    used := s[..6] + (kind + name);
    forall t ensures OneColumn(used + t) == Got(OneColumn(s).value, t) {
      assert (used + t)[6..] == kind + (name + t);
    }
  }

  lemma {:induction false} SomeColumnsLocal(n: nat, s: bytes) returns (used: bytes)
    requires SomeColumns(n, s).Got?
    ensures s == used + SomeColumns(n, s).rest
    ensures forall t :: SomeColumns(n, used + t) == Got(SomeColumns(n, s).value, t)
  {
    hide OneColumn;
    used := [];
    if n == 0 {
      forall t ensures SomeColumns(n, used + t) == Got(SomeColumns(n, s).value, t) {
        assert used + t == t;
      }
    } else {
      var first := OneColumnLocal(s);
      var more := SomeColumnsLocal(n - 1, OneColumn(s).rest);
      used := first + more;
      forall t ensures SomeColumns(n, used + t) == Got(SomeColumns(n, s).value, t) {
        assert used + t == first + (more + t);
      }
    }
  }

  lemma MetadataLocal(s: bytes) returns (used: bytes)
    requires Metadata(s).Got?
    ensures s == used + Metadata(s).rest
    ensures forall t :: Metadata(used + t) == Got(Metadata(s).value, t)
  {
    hide SomeColumns, OfLe;
    var tail: bytes := [];
    if U16Le(s).value != NO_COLUMNS {
      tail := SomeColumnsLocal(U16Le(s).value, s[2..]);
    }
    used := s[..2] + tail;
    forall t ensures Metadata(used + t) == Got(Metadata(s).value, t) {
      assert (used + t)[..2] == s[..2];
      assert (used + t)[2..] == tail + t;
    }
  }

  lemma CellsJoin(d: Dialect, columns: seq<Column>, first: bytes, value: Cell, more: bytes, values: seq<Cell>, t: bytes)
    requires |columns| > 0
    requires Value(d, columns[0].kind, first + (more + t)) == Got(value, more + t)
    requires Cells(d, columns[1..], more + t) == Got(values, t)
    ensures Cells(d, columns, first + more + t) == Got([value] + values, t)
  {
    hide Value;
    assert first + more + t == first + (more + t);
  }

  lemma NoCellsLocal(d: Dialect, s: bytes)
    ensures forall t :: Cells(d, [], [] + t) == Got(Cells(d, [], s).value, t)
  {
    forall t ensures Cells(d, [], [] + t) == Got(Cells(d, [], s).value, t) {
      assert [] + t == t;
    }
  }

  lemma {:induction false} CellsLocal(d: Dialect, columns: seq<Column>, s: bytes) returns (used: bytes)
    requires Cells(d, columns, s).Got?
    ensures s == used + Cells(d, columns, s).rest
    ensures forall t :: Cells(d, columns, used + t) == Got(Cells(d, columns, s).value, t)
  {
    hide Value;
    if |columns| == 0 {
      used := [];
      NoCellsLocal(d, s);
    } else {
      var kind, tail := columns[0].kind, columns[1..];
      var value, s1 := Value(d, kind, s).value, Value(d, kind, s).rest;
      var values := Cells(d, tail, s1).value;
      assert Cells(d, columns, s) == Got([value] + values, Cells(d, tail, s1).rest);
      hide Cells;
      var first := ValueLocal(d, kind, s);
      var more := CellsLocal(d, tail, s1);
      used := first + more;
      forall t ensures Cells(d, columns, used + t) == Got([value] + values, t) {
        CellsJoin(d, columns, first, value, more, values, t);
      }
    }
  }

  lemma {:induction false} BitmapCellsLocal(d: Dialect, columns: seq<Column>, bitmap: bytes, index: nat, s: bytes)
    returns (used: bytes)
    requires index <= |columns| && |bitmap| == BitmapLength(|columns|)
    requires BitmapCells(d, columns, bitmap, index, s).Got?
    ensures s == used + BitmapCells(d, columns, bitmap, index, s).rest
    ensures forall t :: BitmapCells(d, columns, bitmap, index, used + t)
                     == Got(BitmapCells(d, columns, bitmap, index, s).value, t)
    decreases |columns| - index
  {
    hide Value, IsNull;
    used := [];
    if index == |columns| {
      forall t
        ensures BitmapCells(d, columns, bitmap, index, used + t)
             == Got(BitmapCells(d, columns, bitmap, index, s).value, t)
      {
        assert used + t == t;
      }
    } else if IsNull(bitmap, index) {
      used := BitmapCellsLocal(d, columns, bitmap, index + 1, s);
    } else {
      var first := ValueLocal(d, columns[index].kind, s);
      var more := BitmapCellsLocal(d, columns, bitmap, index + 1, Value(d, columns[index].kind, s).rest);
      used := first + more;
      forall t
        ensures BitmapCells(d, columns, bitmap, index, used + t)
             == Got(BitmapCells(d, columns, bitmap, index, s).value, t)
      {
        assert used + t == first + (more + t);
      }
    }
  }

  lemma BitmapRowLocal(d: Dialect, columns: seq<Column>, s: bytes) returns (used: bytes)
    requires BitmapRow(d, columns, s).Got?
    ensures s == used + BitmapRow(d, columns, s).rest
    ensures forall t :: BitmapRow(d, columns, used + t) == Got(BitmapRow(d, columns, s).value, t)
  {
    hide BitmapCells;
    var n := BitmapLength(|columns|);
    var tail := BitmapCellsLocal(d, columns, s[..n], 0, s[n..]);
    used := s[..n] + tail;
    forall t ensures BitmapRow(d, columns, used + t) == Got(BitmapRow(d, columns, s).value, t) {
      assert (used + t)[..n] == s[..n];
      assert (used + t)[n..] == tail + t;
    }
  }

  lemma BodyLocal(s: bytes) returns (used: bytes)
    requires Body(s).Got?
    ensures s == used + Body(s).rest
    ensures forall t :: Body(used + t) == Got(Body(s).value, t)
  {
    hide OfLe;
    var length := U16Le(s).value;
    used := s[..2] + s[2..][..length];
    forall t ensures Body(used + t) == Got(Body(s).value, t) {
      assert (used + t)[..2] == s[..2];
      assert (used + t)[2..] == s[2..][..length] + t;
      assert (s[2..][..length] + t)[..length] == s[2..][..length] && (s[2..][..length] + t)[length..] == t;
    }
  }

  lemma DoneLocal(token: byte, s: bytes) returns (used: bytes)
    requires DoneOf(token, s).Got?
    ensures s == used + DoneOf(token, s).rest
    ensures forall t :: DoneOf(token, used + t) == Got(DoneOf(token, s).value, t)
  {
    hide OfLe;
    used := s[..12];
    forall t ensures DoneOf(token, used + t) == Got(DoneOf(token, s).value, t) {
      assert (used + t)[..2] == s[..2];
      assert (used + t)[2..][2..] == s[4..12] + t;
      assert (s[4..12] + t)[..8] == s[2..][2..][..8];
      assert (s[4..12] + t)[8..] == t;
    }
  }

  lemma I32Local(s: bytes) returns (used: bytes)
    requires I32Le(s).Got?
    ensures s == used + I32Le(s).rest
    ensures forall t :: I32Le(used + t) == Got(I32Le(s).value, t)
  {
    hide OfLe, Signed;
    used := s[..4];
    forall t ensures I32Le(used + t) == Got(I32Le(s).value, t) {
      assert (used + t)[..4] == s[..4];
    }
  }

  lemma AfterByte(b: byte, tail: bytes, t: bytes)
    ensures ([b] + tail + t)[0] == b
    ensures ([b] + tail + t)[1..] == tail + t
  {
  }

  /** A token is read off the bytes it consumes alone: the same token whatever follows them. */
  lemma NextTokenLocal(d: Dialect, columns: seq<Column>, s: bytes) returns (used: bytes)
    requires NextToken(d, columns, s).Got?
    ensures |used| > 0 && s == used + NextToken(d, columns, s).rest
    ensures forall t :: NextToken(d, columns, used + t) == Got(NextToken(d, columns, s).value, t)
  {
    hide Body, Inside, Metadata, Cells, BitmapRow, DoneOf, I32Le;
    var token := s[0];
    var tail: bytes;
    if CarriesLength(token) {
      tail := BodyLocal(s[1..]);
    } else if token == COLMETADATA {
      tail := MetadataLocal(s[1..]);
    } else if token == ROW {
      tail := CellsLocal(d, columns, s[1..]);
    } else if token == NBCROW {
      tail := BitmapRowLocal(d, columns, s[1..]);
    } else if token == RETURNSTATUS {
      tail := I32Local(s[1..]);
    } else {
      tail := DoneLocal(token, s[1..]);
    }
    used := [token] + tail;
    forall t ensures NextToken(d, columns, used + t) == Got(NextToken(d, columns, s).value, t) {
      AfterByte(token, tail, t);
    }
  }

  /** A token cut anywhere after its first byte is refused, never read as another. */
  lemma TokenCutRefused(d: Dialect, columns: seq<Column>, s: bytes, k: nat)
    requires NextToken(d, columns, s).Got?
    requires 0 < k < |s| - |NextToken(d, columns, s).rest|
    ensures NextToken(d, columns, s[..k]).Bad?
  {
    hide NextToken;
    if NextToken(d, columns, s[..k]).Got? {
      var used := NextTokenLocal(d, columns, s[..k]);
      ReadsOn(d, columns, s, s[..k], used);
      assert false;
    }
  }

  /** What was read off a cut stream is what is read off the whole. */
  lemma ReadsOn(d: Dialect, columns: seq<Column>, s: bytes, cut: bytes, used: bytes)
    requires |cut| <= |s| && cut == s[..|cut|]
    requires NextToken(d, columns, cut).Got? && cut == used + NextToken(d, columns, cut).rest
    requires forall t :: NextToken(d, columns, used + t) == Got(NextToken(d, columns, cut).value, t)
    ensures |used| <= |cut|
    ensures NextToken(d, columns, s) == Got(NextToken(d, columns, cut).value, s[|used|..])
    ensures NextToken(d, columns, cut).rest == s[|used|..][..|cut| - |used|]
  {
    hide NextToken;
    assert s == used + s[|used|..];
  }

  /** A cut stream yields a prefix of the tokens of the whole, and never a different token. */
  lemma {:induction false} CutStreamIsPrefix(d: Dialect, columns: seq<Column>, s: bytes, k: nat)
    requires k <= |s|
    ensures ReadRun(d, columns, s[..k]).tokens <= ReadRun(d, columns, s).tokens
    decreases |s|
  {
    hide NextToken;
    var cut := s[..k];
    if |cut| > 0 && NextToken(d, columns, cut).Got? {
      var used := NextTokenLocal(d, columns, cut);
      ReadsOn(d, columns, s, cut, used);
      var rest := s[|used|..];
      CutStreamIsPrefix(d, NextToken(d, columns, cut).value.columns, rest, k - |used|);
    }
  }
}

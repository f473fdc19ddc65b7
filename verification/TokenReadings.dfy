/** What tokens bytes read as, told from the bytes alone. */
module TokenReadings {
  import opened Bits
  import opened Bytes
  import opened Column
  import opened Dialect
  import opened Parsing
  import opened Readings
  import opened Text
  import opened Token
  import opened Values
  import opened Wire
  import opened Wrappers

  lemma FirstByte(b: byte, s: bytes)
    ensures Byte([b] + s) == Got(b, s)
  {
    assert ([b] + s)[1..] == s;
  }

  // ----- Tokens of one length

  /** The three DONE tokens: a status, two bytes of no account, and a count. */
  lemma DoneRead(d: Dialect, columns: seq<Column>, status: bytes, skipped: bytes, rows: bytes, t: bytes)
    requires |status| == 2 && |skipped| == 2 && |rows| == 8
    ensures var s := status + (skipped + (rows + t));
            && NextToken(d, columns, [0xFD] + s) == Got(Reading(Done(Two(status), Eight(rows)), columns), t)
            && NextToken(d, columns, [0xFE] + s) == Got(Reading(DoneProc(Two(status), Eight(rows)), columns), t)
            && NextToken(d, columns, [0xFF] + s) == Got(Reading(DoneInProc(Two(status), Eight(rows)), columns), t)
  {
    hide U16Le, U64Le, Eight, Two;
    var s := status + (skipped + (rows + t));
    FirstByte(0xFD, s);
    FirstByte(0xFE, s);
    FirstByte(0xFF, s);
    NumbersRead(status, skipped + (rows + t));
    Halved(skipped, rows + t);
    NumbersRead(rows, t);
  }

  lemma ReturnRead(d: Dialect, columns: seq<Column>, code: bytes, t: bytes)
    requires |code| == 4
    ensures NextToken(d, columns, [0x79] + (code + t)) == Got(Reading(ReturnStatus(SignedFour(code)), columns), t)
  {
    hide I32Le, SignedFour;
    FirstByte(0x79, code + t);
    SignedRead(code, t);
  }

  // ----- Tokens behind their length

  /** A body behind two bytes saying how long it is. */
  ghost predicate IsBody(s: bytes, body: bytes, t: bytes) {
    exists length :: |length| == 2 && Two(length) == |body| && s == length + (body + t)
  }

  lemma BodyRead(s: bytes, body: bytes, t: bytes)
    requires IsBody(s, body, t)
    ensures Body(s) == Got(body, t)
  {
    hide U16Le;
    var length :| |length| == 2 && Two(length) == |body| && s == length + (body + t);
    NumbersRead(length, body + t);
    Halved(body, t);
  }

  /** 0xE3: a change of the kinds 1 to 6 has a new text and an old one, whatever is behind; another has none. */
  lemma EnvRead(
    d: Dialect, columns: seq<Column>, kind: byte, current: bytes, previous: bytes, more: bytes, s: bytes, t: bytes)
    requires |current| <= 510 && |current| % 2 == 0 && |previous| <= 510 && |previous| % 2 == 0
    ensures 1 <= kind <= 6 && IsBody(s, [kind] + (Counted8(current) + (Counted8(previous) + more)), t) ==>
              NextToken(d, columns, [0xE3] + s)
              == Got(Reading(EnvChange(kind, OfUtf16Lossy(current), OfUtf16Lossy(previous)), columns), t)
    ensures !(1 <= kind <= 6) && IsBody(s, [kind] + more, t) ==>
              NextToken(d, columns, [0xE3] + s) == Got(Reading(EnvChange(kind, "", ""), columns), t)
  {
    hide OfUtf16Lossy, BVarchar, Body, IsBody, Counted8;
    FirstByte(0xE3, s);
    var texts := Counted8(current) + (Counted8(previous) + more);
    FirstByte(kind, texts);
    FirstByte(kind, more);
    Counted8Read(current, Counted8(previous) + more);
    Counted8Read(previous, more);
    if 1 <= kind <= 6 && IsBody(s, [kind] + texts, t) {
      BodyRead(s, [kind] + texts, t);
    }
    if !(1 <= kind <= 6) && IsBody(s, [kind] + more, t) {
      BodyRead(s, [kind] + more, t);
    }
  }

  /** 0xAD: a byte of no account, the version highest byte first, the program, whatever is behind it. */
  lemma AckRead(
    d: Dialect, columns: seq<Column>, skipped: byte, version: bytes, program: bytes, more: bytes, s: bytes, t: bytes)
    requires |version| == 4 && |program| <= 510 && |program| % 2 == 0
    requires IsBody(s, [skipped] + (version + (Counted8(program) + more)), t)
    ensures NextToken(d, columns, [0xAD] + s)
         == Got(Reading(LoginAck(Four(Backwards(version)), OfUtf16Lossy(program)), columns), t)
  {
    hide OfUtf16Lossy, BVarchar, Body, IsBody, Counted8, U32Be, Four;
    FirstByte(0xAD, s);
    var rest := version + (Counted8(program) + more);
    FirstByte(skipped, rest);
    BackwardsRead(version, Counted8(program) + more);
    Counted8Read(program, more);
    BodyRead(s, [skipped] + rest, t);
  }

  function Backwards(s: bytes): (r: bytes)
    requires |s| == 4
    ensures |r| == 4
  {
    [s[3], s[2], s[1], s[0]]
  }

  lemma BackwardsRead(s: bytes, t: bytes)
    requires |s| == 4
    ensures U32Be(s + t) == Got(Four(Backwards(s)), t)
  {
    Halved(s, t);
    var s3, s2, s1 := s[..3], s[..3][..2], s[..3][..2][..1];
    assert s1[..0] == [];
    assert OfBe(s1) == s[0];
    assert OfBe(s2) == 256 * OfBe(s1) + s[1];
    assert OfBe(s3) == 256 * OfBe(s2) + s[2];
    assert OfBe(s) == 256 * OfBe(s3) + s[3];
    assert Backwards(s)[..2] == [s[3], s[2]] && Backwards(s)[2..] == [s[1], s[0]];
  }

  /** 0xAB and 0xAA: number, state, severity, text, server, procedure and line, whatever is behind them. */
  lemma NoteRead(
    d: Dialect, columns: seq<Column>, number: bytes, state: byte, severity: byte, count: bytes, text: bytes,
    server: bytes, procedure: bytes, line: bytes, more: bytes, s: bytes, t: bytes)
    requires |number| == 4 && |count| == 2 && |text| == 2 * Two(count) && |line| == 4
    requires |server| <= 510 && |server| % 2 == 0 && |procedure| <= 510 && |procedure| % 2 == 0
    requires IsBody(s, number + ([state] + ([severity]
                       + (count + text + (Counted8(server) + (Counted8(procedure) + (line + more)))))), t)
    ensures var note := Note(SignedFour(number), state, severity, OfUtf16Lossy(text), OfUtf16Lossy(server),
                             OfUtf16Lossy(procedure), Four(line));
            && NextToken(d, columns, [0xAB] + s) == Got(Reading(Info(note), columns), t)
            && NextToken(d, columns, [0xAA] + s) == Got(Reading(Error(note), columns), t)
  {
    hide OfUtf16Lossy, BVarchar, UsVarchar, Body, IsBody, Counted8, I32Le, U32Le, SignedFour, Four;
    FirstByte(0xAB, s);
    FirstByte(0xAA, s);
    var s7 := line + more;
    var s6 := Counted8(procedure) + s7;
    var s5 := Counted8(server) + s6;
    var s4 := count + text + s5;
    BodyRead(s, number + ([state] + ([severity] + s4)), t);
    SignedRead(number, [state] + ([severity] + s4));
    FirstByte(state, [severity] + s4);
    FirstByte(severity, s4);
    Counted16Read(count, text, s5);
    Counted8Read(server, s6);
    Counted8Read(procedure, s7);
    NumbersRead(line, more);
  }

  /** 0xA9: as many numbers as the body has pairs of bytes; a body with a byte over is refused. */
  lemma {:induction false} OrderRead(body: bytes)
    ensures NumbersOf(body).Got? <==> |body| % 2 == 0
    ensures |body| % 2 == 0 ==>
              && |NumbersOf(body).value| == |body| / 2
              && forall i :: 0 <= i < |body| / 2 ==> NumbersOf(body).value[i] == Two(body[2 * i..2 * i + 2])
    decreases |body|
  {
    hide U16Le;
    if |body| == 1 {
      TooShort(body);
    } else if |body| >= 2 {
      var more := body[2..];
      NumbersRead(body[..2], more);
      assert body == body[..2] + more;
      OrderRead(more);
      forall i | 0 < i < |body| / 2 ensures body[2 * i..2 * i + 2] == more[2 * (i - 1)..2 * (i - 1) + 2] {
      }
      assert body[2 * 0..2 * 0 + 2] == body[..2];
    }
  }

  lemma TooShort(s: bytes)
    requires |s| < 2
    ensures U16Le(s).Bad?
  {
  }

  lemma OrderTokenRead(d: Dialect, columns: seq<Column>, body: bytes, s: bytes, t: bytes)
    requires IsBody(s, body, t)
    ensures |body| % 2 == 0 ==> NextToken(d, columns, [0xA9] + s) == Got(Reading(Order(Pairs(body)), columns), t)
    ensures |body| % 2 != 0 ==> NextToken(d, columns, [0xA9] + s).Bad?
  {
    hide Body, IsBody, NumbersOf, Two;
    FirstByte(0xA9, s);
    BodyRead(s, body, t);
    OrderRead(body);
    if |body| % 2 == 0 {
      assert NumbersOf(body).value == Pairs(body);
    }
  }

  function Pairs(body: bytes): seq<u16>
    requires |body| % 2 == 0
  {
    seq(|body| / 2, i requires 0 <= i < |body| / 2 => Two(body[2 * i..2 * i + 2]))
  }

  // ----- Columns and rows

  /** 0x81: two bytes of count, 65535 for none, then each column; they are in force from there on. */
  lemma ColumnsRead(d: Dialect, columns: seq<Column>, count: bytes, s: bytes)
    requires |count| == 2
    ensures Two(count) == 65535 ==>
              NextToken(d, columns, [0x81] + (count + s)) == Got(Reading(ColMetadata([]), []), s)
    ensures Two(count) != 65535 ==>
              NextToken(d, columns, [0x81] + (count + s)) ==
              match SomeColumns(Two(count), s)
              case Bad => Bad
              case Got(declared, t) => Got(Reading(ColMetadata(declared), declared), t)
  {
    hide U16Le, SomeColumns, Two;
    FirstByte(0x81, count + s);
    NumbersRead(count, s);
  }

  /** A column: six bytes of no account, its type, its name. */
  lemma ColumnRead(skipped: bytes, kind: bytes, read: ColumnType, name: bytes, t: bytes)
    requires |skipped| == 6 && |name| <= 510 && |name| % 2 == 0
    requires TypeInfo(kind + (Counted8(name) + t)) == Got(read, Counted8(name) + t)
    ensures OneColumn(skipped + (kind + (Counted8(name) + t))) == Got(Column(OfUtf16Lossy(name), read), t)
  {
    hide TypeInfo, BVarchar, OfUtf16Lossy, Counted8;
    Halved(skipped, kind + (Counted8(name) + t));
    Counted8Read(name, t);
  }

  /** 0xD1: a cell for each column in force. 0xD2: the same behind a bitmap of a bit for each. */
  lemma RowsRead(d: Dialect, columns: seq<Column>, s: bytes)
    ensures NextToken(d, columns, [0xD1] + s) ==
            match Cells(d, columns, s)
            case Bad => Bad
            case Got(values, t) => Got(Reading(Row(values), columns), t)
    ensures NextToken(d, columns, [0xD2] + s) ==
            match BitmapRow(d, columns, s)
            case Bad => Bad
            case Got(values, t) => Got(Reading(Row(values), columns), t)
  {
    hide Cells, BitmapRow;
    FirstByte(0xD1, s);
    FirstByte(0xD2, s);
  }

  /** Nothing else is a token. */
  lemma OtherTokensRefused(d: Dialect, columns: seq<Column>, s: bytes)
    requires |s| > 0
    requires s[0] !in {0xE3, 0xAA, 0xAB, 0xAD, 0xA9, 0x81, 0xD1, 0xD2, 0xFD, 0xFE, 0xFF, 0x79}
    ensures NextToken(d, columns, s).Bad?
  {
  }
}

/** The option table: its options tile the data, and reading through it gives them back. */
module PreloginTable {
  import opened Bytes
  import opened Parsing
  import opened Prelogin
  import opened Text
  import opened Tiling
  import opened Wrappers

  // ----- The instance name

  /** `text` ahead of its first NUL. */
  function BeforeNul(text: string): string {
    if |text| == 0 || text[0] as int == 0 then "" else [text[0]] + BeforeNul(text[1..])
  }

  predicate HasNul(text: string) {
    exists i :: 0 <= i < |text| && text[i] as int == 0
  }

  /** What a reader keeps of an instance name is the name exactly when it has no NUL. */
  lemma {:induction false} BeforeNulExactly(text: string)
    ensures BeforeNul(text) == text <==> !HasNul(text)
  {
    if |text| > 0 && text[0] as int != 0 {
      BeforeNulExactly(text[1..]);
      assert text == [text[0]] + text[1..];
      if HasNul(text) {
        var i :| 0 <= i < |text| && text[i] as int == 0;
        assert text[1..][i - 1] == text[i];
      } else {
        assert forall i :: 0 <= i < |text[1..]| ==> text[1..][i] == text[i + 1];
      }
    }
  }

  /** Only NUL has a zero byte in UTF-8. */
  lemma CharUtf8Zero(c: char, i: nat)
    requires i < |CharUtf8(c)|
    ensures CharUtf8(c)[i] == 0 <==> c as int == 0
  {
  }

  lemma UpToNulStep(b: byte, s: bytes)
    requires b != 0
    ensures UpToNul([b] + s) == [b] + UpToNul(s)
  {
    assert ([b] + s)[1..] == s;
  }

  lemma {:induction false} UpToNulPast(a: bytes, b: bytes)
    requires forall i :: 0 <= i < |a| ==> a[i] != 0
    ensures UpToNul(a + b) == a + UpToNul(b)
  {
    hide UpToNul;
    if |a| == 0 {
      assert a + b == b;
    } else {
      UpToNulPast(a[1..], b);
      assert a == [a[0]] + a[1..];
      Assoc([a[0]], a[1..], b);
      UpToNulStep(a[0], a[1..] + b);
      Assoc([a[0]], a[1..], UpToNul(b));
    }
  }

  lemma {:induction false} NameUpToNul(text: string)
    ensures UpToNul(Utf8(text) + [0]) == Utf8(BeforeNul(text))
  {
    hide CharUtf8;
    if |text| > 0 {
      var first, rest := CharUtf8(text[0]), Utf8(text[1..]) + [0];
      assert Utf8(text) + [0] == first + rest;
      if text[0] as int == 0 {
        CharUtf8Zero(text[0], 0);
      } else {
        forall i | 0 <= i < |first| ensures first[i] != 0 {
          CharUtf8Zero(text[0], i);
        }
        UpToNulPast(first, rest);
        NameUpToNul(text[1..]);
        assert BeforeNul(text)[1..] == BeforeNul(text[1..]);
      }
    }
  }

  // ----- The table

  /** Where the bytes of option `i` begin. */
  function OptionOffset(choices: seq<Choice>, i: nat): nat
    requires i <= |choices|
  {
    BASE + Before(Datas(choices), i)
  }

  /** Every option of `choices` applied in order. */
  function ApplyAll(p: Prelogin, choices: seq<Choice>): Option<Prelogin>
    decreases |choices|
  {
    if |choices| == 0 then Some(p)
    else
      match Apply(p, choices[0].token, choices[0].data)
      case None => None
      case Some(next) => ApplyAll(next, choices[1..])
  }

  lemma PointedBack(body: bytes, choice: Choice, offset: nat, t: bytes)
    requires offset <= U16_MAX && |choice.data| <= U16_MAX
    requires offset + |choice.data| <= |body| && body[offset..offset + |choice.data|] == choice.data
    ensures (EntryBytes(choice, offset) + t)[0] == choice.token
    ensures Pointed(body, (EntryBytes(choice, offset) + t)[1..]) == Got(choice.data, t)
  {
    hide Be, U16Be;
    var s2 := Be(|choice.data|, 2) + t;
    var s1 := Be(offset, 2) + s2;
    assert EntryBytes(choice, offset) + t == [choice.token] + s1;
    assert ([choice.token] + s1)[1..] == s1;
    U16BeBack(offset, s2);
    U16BeBack(|choice.data|, t);
  }

  lemma OptionStep(body: bytes, choice: Choice, offset: nat, t: bytes, p: Prelogin)
    requires choice.token != TERMINATOR
    requires offset <= U16_MAX && |choice.data| <= U16_MAX
    requires offset + |choice.data| <= |body| && body[offset..offset + |choice.data|] == choice.data
    ensures ReadOptions(body, EntryBytes(choice, offset) + t, p) ==
            match Apply(p, choice.token, choice.data)
            case None => None
            case Some(next) => ReadOptions(body, t, next)
  {
    hide Apply, Pointed, Be;
    PointedBack(body, choice, offset, t);
  }

  /** Options that can be pointed at, the first of them with its bytes at `at`. */
  predicate AllFit(choices: seq<Choice>, at: nat) {
    |choices| > 0 ==>
      && choices[0].token != TERMINATOR
      && at <= U16_MAX && |choices[0].data| <= U16_MAX
      && AllFit(choices[1..], at + |choices[0].data|)
  }

  lemma FirstPiece(body: bytes, at: nat, piece: bytes, more: bytes)
    requires at <= |body| && body[at..] == piece + more
    ensures at + |piece| <= |body| && body[at..at + |piece|] == piece && body[at + |piece|..] == more
  {
    assert body == body[..at] + (piece + more);
  }

  /** Reading the table applies every option it was written for, as long as the offsets fit. */
  lemma {:induction false} OptionsBack(body: bytes, choices: seq<Choice>, at: nat, p: Prelogin, t: bytes)
    requires at <= |body| && body[at..] == DataBytes(choices) && AllFit(choices, at)
    ensures ReadOptions(body, OptionTable(choices, at) + ([TERMINATOR] + t), p) == ApplyAll(p, choices)
    decreases |choices|
  {
    hide Apply, EntryBytes, Concat;
    var end := [TERMINATOR] + t;
    if |choices| == 0 {
      assert OptionTable(choices, at) + end == end;
    } else {
      var c, more := choices[0], choices[1..];
      var tail := OptionTable(more, at + |c.data|);
      OneMorePiece(choices);
      FirstPiece(body, at, c.data, DataBytes(more));
      assert OptionTable(choices, at) + end == EntryBytes(c, at) + (tail + end);
      hide ReadOptions, OptionTable;
      OptionStep(body, c, at, tail + end, p);
      match Apply(p, c.token, c.data)
      case None =>
      case Some(next) => OptionsBack(body, more, at + |c.data|, next, t);
    }
  }

  lemma OneMorePiece(choices: seq<Choice>)
    requires |choices| > 0
    ensures DataBytes(choices) == choices[0].data + DataBytes(choices[1..])
  {
    assert Datas(choices)[1..] == Datas(choices[1..]);
  }

  /** The five options applied to any pre-login make it the one they came from. */
  lemma ApplyAllBack(p: Prelogin, q: Prelogin)
    ensures ApplyAll(q, Choices(p)) == Some(p.(instance := BeforeNul(p.instance)))
  {
    hide UpToNul, OfUtf8Lossy, Utf8, Le, OfLe;
    var choices := Choices(p);
    NameUpToNul(p.instance);
    Utf8Back(BeforeNul(p.instance));
    PowValues();
    LeRoundTrip(p.threadId, 4);
    var q1 := q.(version := p.version);
    assert p.version[..6] + q.version[6..] == p.version;
    var q2 := q1.(encryption := p.encryption);
    var q3 := q2.(instance := BeforeNul(p.instance));
    var q4 := q3.(threadId := p.threadId);
    assert choices[1..][0] == choices[1] && choices[1..][1..] == choices[2..];
    assert choices[2..][0] == choices[2] && choices[2..][1..] == choices[3..];
    assert choices[3..][0] == choices[3] && choices[3..][1..] == choices[4..];
    assert choices[4..][0] == choices[4] && choices[4..][1..] == [];
    assert ApplyAll(q4, choices[4..]) == Some(q4.(mars := p.mars));
    assert ApplyAll(q3, choices[3..]) == ApplyAll(q4, choices[4..]);
    assert ApplyAll(q2, choices[2..]) == ApplyAll(q3, choices[3..]);
    assert ApplyAll(q1, choices[1..]) == ApplyAll(q2, choices[2..]);
  }

  /** How long a name may be for its options' offsets to fit their u16. */
  predicate NameFits(p: Prelogin) {
    |Utf8(p.instance)| <= 65497
  }

  lemma Lengths(p: Prelogin)
    ensures var pieces := Datas(Choices(p)); var n := |Utf8(p.instance)|;
            && Before(pieces, 0) == 0
            && Before(pieces, 1) == 6
            && Before(pieces, 2) == 7
            && Before(pieces, 3) == n + 8
            && Before(pieces, 4) == n + 12
            && Before(pieces, 5) == n + 13
  {
    hide Utf8, Le;
    var pieces := Datas(Choices(p));
    assert Before(pieces, 1) == Before(pieces, 0) + |pieces[0]|;
    assert Before(pieces, 2) == Before(pieces, 1) + |pieces[1]|;
    assert Before(pieces, 3) == Before(pieces, 2) + |pieces[2]|;
    assert Before(pieces, 4) == Before(pieces, 3) + |pieces[3]|;
    assert Before(pieces, 5) == Before(pieces, 4) + |pieces[4]|;
  }

  lemma ChoicesFit(p: Prelogin, i: nat)
    requires NameFits(p) && i < OPTIONS
    ensures OptionOffset(Choices(p), i) <= U16_MAX && |Choices(p)[i].data| <= U16_MAX
  {
    hide Utf8, Le, Before;
    Lengths(p);
  }

  lemma AllChoicesFit(p: Prelogin)
    requires NameFits(p)
    ensures AllFit(Choices(p), BASE)
  {
    hide Utf8, Le;
    var cs, n := Choices(p), |Utf8(p.instance)|;
    assert cs[4..][1..] == [] && cs[4..][0] == cs[4];
    assert AllFit(cs[4..], n + 38);
    assert cs[3..][1..] == cs[4..] && cs[3..][0] == cs[3];
    assert AllFit(cs[3..], n + 34);
    assert cs[2..][1..] == cs[3..] && cs[2..][0] == cs[2];
    assert AllFit(cs[2..], 33);
    assert cs[1..][1..] == cs[2..] && cs[1..][0] == cs[1];
    assert AllFit(cs[1..], 32);
  }

  /** The table and its terminator. */
  function AheadOfData(p: Prelogin): (s: bytes)
    ensures |s| == BASE
  {
    OptionTable(Choices(p), BASE) + [TERMINATOR]
  }

  /** A pre-login is read back, its instance name up to the first NUL. */
  lemma PreloginBack(p: Prelogin)
    requires NameFits(p)
    ensures PreloginOf(PreloginBytes(p)) == Some(p.(instance := BeforeNul(p.instance)))
  {
    hide OptionTable, DataBytes, Choices, ReadOptions, AllFit;
    var choices := Choices(p);
    AllChoicesFit(p);
    assert PreloginBytes(p)[BASE..] == DataBytes(choices);
    OptionsBack(PreloginBytes(p), choices, BASE, DEFAULT, DataBytes(choices));
    assert PreloginBytes(p) == OptionTable(choices, BASE) + ([TERMINATOR] + DataBytes(choices));
    ApplyAllBack(p, DEFAULT);
  }

  /** A pre-login comes back as it went exactly when its instance name has no NUL. */
  lemma PreloginBackExactly(p: Prelogin)
    requires NameFits(p)
    ensures PreloginOf(PreloginBytes(p)) == Some(p) <==> !HasNul(p.instance)
  {
    hide PreloginOf, PreloginBytes;
    PreloginBack(p);
    BeforeNulExactly(p.instance);
  }

  /** Entry `i` of the table: its token, and where it says its option is and how long. */
  function TableEntry(body: bytes, i: nat): (byte, nat, nat)
    requires i < OPTIONS && |body| >= BASE
  {
    var at := 5 * i;
    (body[at], OfBe(body[at + 1..at + 3]), OfBe(body[at + 3..at + 5]))
  }

  lemma ShiftSlice(e: bytes, tail: bytes, at: nat)
    requires |e| == 5 && at + 5 <= |tail|
    ensures (e + tail)[at + 5..at + 10] == tail[at..at + 5]
  {
  }

  lemma TableUncons(choices: seq<Choice>, offset: nat)
    requires |choices| > 0
    ensures OptionTable(choices, offset)
         == EntryBytes(choices[0], offset) + OptionTable(choices[1..], offset + |choices[0].data|)
    ensures Datas(choices)[1..] == Datas(choices[1..])
  {
    hide EntryBytes;
  }

  lemma {:induction false} TableSlice(choices: seq<Choice>, offset: nat, i: nat)
    requires i < |choices|
    ensures OptionTable(choices, offset)[5 * i..5 * i + 5] == EntryBytes(choices[i], offset + Before(Datas(choices), i))
  {
    hide EntryBytes, OptionTable, Datas;
    var first, tail := EntryBytes(choices[0], offset), OptionTable(choices[1..], offset + |choices[0].data|);
    TableUncons(choices, offset);
    if i == 0 {
      assert (first + tail)[0..5] == first;
    } else {
      hide Before;
      TableSlice(choices[1..], offset + |choices[0].data|, i - 1);
      ShiftBefore(Datas(choices), i);
      ShiftSlice(first, tail, 5 * (i - 1));
    }
  }

  lemma SliceOfSlice(s: bytes, a: nat, b: nat, c: nat, d: nat)
    requires a <= b <= |s| && c <= d <= b - a
    ensures s[a..b][c..d] == s[a + c..a + d]
  {
    var x, y := s[a..b][c..d], s[a + c..a + d];
    forall k | 0 <= k < d - c ensures x[k] == y[k] {
      assert x[k] == s[a..b][c + k] == s[a + (c + k)];
    }
  }

  lemma Slices(table: bytes, rest: bytes, at: nat, e: bytes)
    requires at + 5 <= |table| && table[at..at + 5] == e
    ensures var s := table + rest; s[at] == e[0] && s[at + 1..at + 3] == e[1..3] && s[at + 3..at + 5] == e[3..5]
  {
    SliceOfSlice(table, at, at + 5, 1, 3);
    SliceOfSlice(table, at, at + 5, 3, 5);
  }

  lemma EntrySlices(table: bytes, rest: bytes, i: nat, choice: Choice, offset: nat)
    requires 5 * i + 5 <= |table| && table[5 * i..5 * i + 5] == EntryBytes(choice, offset)
    requires offset <= U16_MAX && |choice.data| <= U16_MAX
    ensures var s := table + rest;
            && s[5 * i] == choice.token
            && s[5 * i + 1..5 * i + 3] == Be(offset, 2)
            && s[5 * i + 3..5 * i + 5] == Be(|choice.data|, 2)
  {
    hide Be;
    var e := EntryBytes(choice, offset);
    assert e[0] == choice.token && e[1..3] == Be(offset, 2) && e[3..5] == Be(|choice.data|, 2);
    hide EntryBytes;
    Slices(table, rest, 5 * i, e);
  }

  /** Entry `i` names its option and points at exactly its bytes. */
  ghost predicate PointsAt(body: bytes, i: nat, choice: Choice)
    requires i < OPTIONS && |body| >= BASE
  {
    var (token, at, length) := TableEntry(body, i);
    && token == choice.token
    && at + length <= |body|
    && body[at..at + length] == choice.data
  }

  lemma EntryAt(p: Prelogin, i: nat)
    requires NameFits(p) && i < OPTIONS
    ensures TableEntry(PreloginBytes(p), i) ==
            (Choices(p)[i].token, OptionOffset(Choices(p), i), |Choices(p)[i].data|)
    ensures PointsAt(PreloginBytes(p), i, Choices(p)[i])
  {
    hide OptionTable, Choices, Concat, OfBe, Before, EntryBytes, Datas, Be;
    var choices := Choices(p);
    ChoicesFit(p, i);
    TableSlice(choices, BASE, i);
    var rest := [TERMINATOR] + DataBytes(choices);
    EntrySlices(OptionTable(choices, BASE), rest, i, choices[i], OptionOffset(choices, i));
    assert PreloginBytes(p) == OptionTable(choices, BASE) + rest;
    PowValues();
    BeRoundTrip(OptionOffset(choices, i), 2);
    BeRoundTrip(|choices[i].data|, 2);
    FieldAt(AheadOfData(p), Datas(choices), i);
  }

  /** Entry `i` starts where the entry before it ends. */
  ghost predicate Continues(body: bytes, i: nat)
    requires 0 < i < OPTIONS && |body| >= BASE
  {
    TableEntry(body, i).1 == TableEntry(body, i - 1).1 + TableEntry(body, i - 1).2
  }

  /**
   * The options tile the data: the first at byte 26 behind the terminator, each where the one
   * before it ends, the last ending where the message does, and each entry at its option's bytes.
   */
  lemma PreloginTiles(p: Prelogin)
    requires NameFits(p)
    ensures var body := PreloginBytes(p);
            && body[BASE - 1] == TERMINATOR
            && TableEntry(body, 0).1 == BASE
            && (forall i :: 0 < i < OPTIONS ==> Continues(body, i))
            && TableEntry(body, OPTIONS - 1).1 + TableEntry(body, OPTIONS - 1).2 == |body|
            && forall i :: 0 <= i < OPTIONS ==> PointsAt(body, i, Choices(p)[i])
  {
    hide OptionTable, Choices, TableEntry, Before, Concat;
    var body, pieces := PreloginBytes(p), Datas(Choices(p));
    Lengths(p);
    EntryAt(p, 0);
    EntryAt(p, OPTIONS - 1);
    BeforeIs(pieces, OPTIONS);
    assert pieces[..OPTIONS] == pieces;
    FieldFits(pieces, OPTIONS - 1);
    assert body[BASE - 1] == AheadOfData(p)[BASE - 1];
    forall i | 0 < i < OPTIONS ensures Continues(body, i) {
      EntryAt(p, i);
      EntryAt(p, i - 1);
      FieldFits(pieces, i - 1);
    }
    forall i | 0 <= i < OPTIONS ensures PointsAt(body, i, Choices(p)[i]) {
      EntryAt(p, i);
    }
  }
}

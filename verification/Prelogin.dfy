/** The pre-login: options pointed at from the front of the message (section 2.2.6.5 of [MS-TDS]). */
module Prelogin {
  import opened Bytes
  import opened Cursors
  import opened Parsing
  import opened Text
  import opened Wrappers

  const VERSION: byte := 0x00
  const ENCRYPTION: byte := 0x01
  const INSTOPT: byte := 0x02
  const THREADID: byte := 0x03
  const MARS: byte := 0x04
  const TERMINATOR: byte := 0xFF
  const ENCRYPT_OFF: byte := 0x00
  const ENCRYPT_NOT_SUP: byte := 0x02
  const OPTIONS: nat := 5
  /** Where the options' bytes begin: behind five entries of five bytes and the terminator. */
  const BASE: nat := 26

  type Version = v: bytes | |v| == 6 witness [0, 0, 0, 1, 0, 0]

  datatype Prelogin = Prelogin(version: Version, encryption: byte, instance: string, threadId: u32, mars: bool)

  /** What a client opens with, and what a field is where no option speaks of it. */
  const DEFAULT: Prelogin := Prelogin([0, 0, 0, 1, 0, 0], ENCRYPT_NOT_SUP, "", 0, false)

  datatype Choice = Choice(token: byte, data: bytes)

  /** The five options in the order they are written. */
  function Choices(p: Prelogin): (choices: seq<Choice>)
    ensures |choices| == OPTIONS
  {
    [
      Choice(VERSION, p.version),
      Choice(ENCRYPTION, [p.encryption]),
      Choice(INSTOPT, Utf8(p.instance) + [0]),
      Choice(THREADID, Le(p.threadId, 4)),
      Choice(MARS, [if p.mars then 1 else 0])
    ]
  }

  function EntryBytes(choice: Choice, offset: nat): (s: bytes)
    ensures |s| == 5
  {
    [choice.token] + Be(Min(offset, U16_MAX), 2) + Be(Min(|choice.data|, U16_MAX), 2)
  }

  /** The table for `choices`, the first of them with its bytes at `offset`. */
  function OptionTable(choices: seq<Choice>, offset: nat): (s: bytes)
    ensures |s| == 5 * |choices|
  {
    if |choices| == 0 then []
    else EntryBytes(choices[0], offset) + OptionTable(choices[1..], offset + |choices[0].data|)
  }

  /** The options' bytes, one piece each. */
  function Datas(choices: seq<Choice>): (pieces: seq<bytes>)
    ensures |pieces| == |choices|
    ensures forall i :: 0 <= i < |choices| ==> pieces[i] == choices[i].data
  {
    if |choices| == 0 then [] else [choices[0].data] + Datas(choices[1..])
  }

  function DataBytes(choices: seq<Choice>): bytes {
    Concat(Datas(choices))
  }

  function PreloginBytes(p: Prelogin): bytes {
    OptionTable(Choices(p), BASE) + [TERMINATOR] + DataBytes(Choices(p))
  }

  lemma TableStep(choices: seq<Choice>, i: nat, table: bytes, size: nat)
    requires i < |choices|
    ensures table + [choices[i].token] + Be(Min(BASE + size, U16_MAX), 2) + Be(Min(|choices[i].data|, U16_MAX), 2)
            + OptionTable(choices[i + 1..], BASE + (size + |choices[i].data|))
         == table + OptionTable(choices[i..], BASE + size)
  {
    hide Be;
    var e := EntryBytes(choices[i], BASE + size);
    var tail := OptionTable(choices[i + 1..], BASE + (size + |choices[i].data|));
    assert choices[i..][1..] == choices[i + 1..];
    assert OptionTable(choices[i..], BASE + size) == e + tail;
    assert table + [choices[i].token] + Be(Min(BASE + size, U16_MAX), 2) + Be(Min(|choices[i].data|, U16_MAX), 2)
        == table + e;
    hide EntryBytes;
    assert table + e + tail == table + (e + tail);
  }

  lemma DataStep(choices: seq<Choice>, i: nat, data: bytes)
    requires i < |choices|
    ensures data + choices[i].data + DataBytes(choices[i + 1..]) == data + DataBytes(choices[i..])
  {
    assert choices[i..][1..] == choices[i + 1..];
    assert Datas(choices[i..])[1..] == Datas(choices[i + 1..]);
  }

  /** Grows table and data side by side, each entry saying where its data will be. */
  method EncodePrelogin(p: Prelogin) returns (out: bytes)
    ensures out == PreloginBytes(p)
  {
    hide Be, Le, Utf8, OptionTable, DataBytes, Choices;
    var choices := Choices(p);
    var table: bytes := [];
    var data: bytes := [];
    assert choices[0..] == choices;
    assert [] + OptionTable(choices, BASE) == OptionTable(choices, BASE);
    assert [] + DataBytes(choices) == DataBytes(choices);
    for i := 0 to OPTIONS
      invariant table + OptionTable(choices[i..], BASE + |data|) == OptionTable(choices, BASE)
      invariant data + DataBytes(choices[i..]) == DataBytes(choices)
    {
      TableStep(choices, i, table, |data|);
      DataStep(choices, i, data);
      table := table + [choices[i].token];
      var offset := Min(BASE + |data|, U16_MAX);
      table := table + Be(offset, 2);
      var length := Min(|choices[i].data|, U16_MAX);
      table := table + Be(length, 2);
      data := data + choices[i].data;
    }
    NoChoices(choices[OPTIONS..], BASE + |data|);
    assert table == OptionTable(choices, BASE) && data == DataBytes(choices);
    table := table + [TERMINATOR];
    out := table + data;
  }

  lemma NoChoices(choices: seq<Choice>, offset: nat)
    requires |choices| == 0
    ensures OptionTable(choices, offset) == [] && DataBytes(choices) == []
  {
  }

  // ----- Reading

  /** The bytes ahead of the first zero. */
  function UpToNul(s: bytes): bytes {
    if |s| == 0 || s[0] == 0 then [] else [s[0]] + UpToNul(s[1..])
  }

  /** `p` with what one option says of it; none where the option may not be empty and is. */
  function Apply(p: Prelogin, token: byte, data: bytes): Option<Prelogin> {
    if token == VERSION then
      var n := Min(|data|, 6);
      Some(p.(version := data[..n] + p.version[n..]))
    else if token == ENCRYPTION then
      if |data| == 0 then None else Some(p.(encryption := data[0]))
    else if token == INSTOPT then Some(p.(instance := OfUtf8Lossy(UpToNul(data))))
    else if token == THREADID then
      if |data| == 4 then PowValues(); Some(p.(threadId := OfLe(data))) else Some(p)
    else if token == MARS then Some(p.(mars := |data| > 0 && data[0] != 0))
    else Some(p)
  }

  /** The bytes hold no zero. */
  ghost predicate HasNoZero(s: bytes) {
    forall i :: 0 <= i < |s| ==> s[i] != 0
  }

  lemma {:induction false} UpToNulIs(name: bytes, more: bytes)
    requires HasNoZero(name) && (more == [] || more[0] == 0)
    ensures UpToNul(name + more) == name
  {
    if |name| > 0 {
      assert (name + more)[1..] == name[1..] + more;
      UpToNulIs(name[1..], more);
    } else {
      assert name + more == more;
    }
  }

  /**
   * An option is refused exactly when it is an empty ENCRYPTION. Any other changes at most the
   * field it is for, and an unknown one nothing: a version byte by byte as far as it goes, a
   * thread only by four bytes, an instance to the text ahead of the first zero.
   */
  lemma OptionInItsField(p: Prelogin, token: byte, data: bytes)
    ensures Apply(p, token, data) == None <==> token == 0x01 && data == []
    ensures Apply(p, token, data).Some? ==>
              var next := Apply(p, token, data).value;
              && (token != 0x00 ==> next.version == p.version)
              && (token != 0x01 ==> next.encryption == p.encryption)
              && (token != 0x02 ==> next.instance == p.instance)
              && (token != 0x03 ==> next.threadId == p.threadId)
              && (token != 0x04 ==> next.mars == p.mars)
              && (token == 0x00 ==>
                    forall i :: 0 <= i < 6 ==> next.version[i] == if i < |data| then data[i] else p.version[i])
              && (token == 0x01 ==> next.encryption == data[0])
              && (token == 0x03 && |data| == 4 ==> Le(next.threadId, 4) == data)
              && (token == 0x03 && |data| != 4 ==> next == p)
              && (token == 0x04 ==> (next.mars <==> exists b, more :: data == [b] + more && b != 0))
    ensures token > 0x04 ==> Apply(p, token, data) == Some(p)
    ensures token == 0x02 ==>
              forall name, more :: data == name + more && HasNoZero(name) && (more == [] || more[0] == 0) ==>
                Apply(p, token, data) == Some(p.(instance := OfUtf8Lossy(name)))
  {
    hide OfUtf8Lossy, UpToNul;
    if token == INSTOPT {
      forall name, more | data == name + more && HasNoZero(name) && (more == [] || more[0] == 0)
        ensures Apply(p, token, data) == Some(p.(instance := OfUtf8Lossy(name)))
      {
        UpToNulIs(name, more);
      }
    } else if token == THREADID && |data| == 4 {
      LeOfLe(data);
    } else if token == MARS && |data| > 0 {
      assert data == [data[0]] + data[1..];
    }
  }

  /** Options for different fields may come in either order. */
  lemma OptionsCommute(p: Prelogin, a: Choice, b: Choice)
    requires a.token != b.token
    ensures Chained(Apply(p, a.token, a.data), b) == Chained(Apply(p, b.token, b.data), a)
  {
    hide OfUtf8Lossy, UpToNul, OfLe;
  }

  /** One more option after another, unless that was refused. */
  function Chained(p: Option<Prelogin>, choice: Choice): Option<Prelogin> {
    if p.None? then None else Apply(p.value, choice.token, choice.data)
  }

  /** Offset and length off `s`, and the bytes of `body` they point at. */
  function Pointed(body: bytes, s: bytes): (p: Parse<bytes>)
    ensures p.Got? ==> |p.rest| < |s|
  {
    var (offset, s1) :- U16Be(s);
    var (length, s2) :- U16Be(s1);
    if offset + length > |body| then Bad else Got(body[offset..offset + length], s2)
  }

  /** The table `s` read to its terminator, each option applied to `p`. */
  function ReadOptions(body: bytes, s: bytes, p: Prelogin): Option<Prelogin>
    decreases |s|
  {
    if |s| == 0 then None
    else if s[0] == TERMINATOR then Some(p)
    else
      match Pointed(body, s[1..])
      case Bad => None
      case Got(data, rest) =>
        match Apply(p, s[0], data)
        case None => None
        case Some(next) => ReadOptions(body, rest, next)
  }

  /** Every option of the table applied in turn, beginning with `DEFAULT`. */
  function PreloginOf(body: bytes): Option<Prelogin> {
    ReadOptions(body, body, DEFAULT)
  }

  /** One option into the field it is for. */
  method ApplyOption(p: Prelogin, token: byte, data: bytes) returns (r: Result<Prelogin>)
    ensures r == match Apply(p, token, data) case None => Err case Some(next) => Ok(next)
  {
    hide UpToNul, OfUtf8Lossy, OfLe;
    var next := p;
    if token == VERSION {
      var n := Min(|data|, 6);
      next := next.(version := data[..n] + p.version[n..]);
    } else if token == ENCRYPTION {
      if |data| == 0 {
        return Err;
      }
      next := next.(encryption := data[0]);
    } else if token == INSTOPT {
      next := next.(instance := OfUtf8Lossy(UpToNul(data)));
    } else if token == THREADID {
      if |data| == 4 {
        PowValues();
        next := next.(threadId := OfLe(data));
      }
    } else if token == MARS {
      next := next.(mars := |data| > 0 && data[0] != 0);
    }
    r := Ok(next);
  }

  method ReadPointed(cursor: Cursor, body: bytes) returns (r: Result<bytes>)
    requires cursor.Valid()
    modifies cursor
    ensures cursor.Valid()
    ensures Follows(r, cursor.Rest(), Pointed(body, old(cursor.Rest())))
  {
    hide U16Be, Cursor.Rest;
    var offset :- cursor.U16Be();
    var length :- cursor.U16Be();
    r := if offset + length > |body| then Err else Ok(body[offset..offset + length]);
  }

  method ReadPrelogin(body: bytes) returns (r: Result<Prelogin>)
    ensures r == match PreloginOf(body) case None => Err case Some(p) => Ok(p)
  {
    hide Pointed, Apply, Cursor.Rest;
    var cursor := new Cursor(body);
    var p := DEFAULT;
    while true
      invariant fresh(cursor) && cursor.Valid()
      invariant PreloginOf(body) == ReadOptions(body, cursor.Rest(), p)
      decreases |cursor.Rest()|
    {
      var token :- cursor.Byte();
      if token == TERMINATOR {
        return Ok(p);
      }
      var data :- ReadPointed(cursor, body);
      p :- ApplyOption(p, token, data);
    }
  }
}

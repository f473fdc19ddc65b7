/** LOGIN7: nine UTF-16 fields behind a table that says where each begins (section 2.2.6.4 of [MS-TDS]). */
module Login {
  import opened Bytes
  import opened Cursors
  import opened Parsing
  import opened Text
  import opened Wire
  import opened Wrappers

  const TDS_7_4: u32 := 0x7400_0004
  const FIXED_LENGTH: nat := 94
  const FIELDS: nat := 9
  const MASK: byte := 0xA5

  datatype Login = Login(user: string, password: string)

  datatype Login7 = Login7(
    login: Login,
    database: string,
    hostname: string,
    appName: string,
    serverName: string,
    library: string,
    language: string,
    packetSize: u32)

  /** The login a client sends: only user, password and database vary. */
  function NewLogin7(login: Login, database: string): Login7 {
    Login7(login, database, "xmip", "xmip", "", "xmip-core-transport-mssql", "", DEFAULT_PACKET_SIZE)
  }

  // ----- The password's disguise

  /** A byte with its nibbles swapped. */
  function Swap(b: byte): byte {
    16 * (b % 16) + b / 16
  }

  function XorByte(a: byte, b: byte): byte {
    XorTwice(a, b, 8);
    assert Pow2(8) == 256 by { assert Pow2(4) == 16; }
    Xor(a, b, 8)
  }

  function Obscure(s: bytes): (r: bytes)
    ensures |r| == |s|
  {
    seq(|s|, i requires 0 <= i < |s| => XorByte(Swap(s[i]), MASK))
  }

  function Reveal(s: bytes): (r: bytes)
    ensures |r| == |s|
  {
    seq(|s|, i requires 0 <= i < |s| => Swap(XorByte(s[i], MASK)))
  }

  lemma SwapTwice(b: byte)
    ensures Swap(Swap(b)) == b
  {
    var low: int, high: int := b % 16, b / 16;
    assert (16 * low + high) % 16 == high && (16 * low + high) / 16 == low;
  }

  lemma RevealByte(b: byte)
    ensures Swap(XorByte(XorByte(Swap(b), MASK), MASK)) == b
  {
    assert Pow2(8) == 256 by { assert Pow2(4) == 16; }
    XorTwice(Swap(b), MASK, 8);
    SwapTwice(b);
    hide Xor, Swap, Pow2;
  }

  /** Revealing undoes obscuring, on every byte string. */
  lemma RevealBack(s: bytes)
    ensures Reveal(Obscure(s)) == s
  {
    hide Swap, XorByte;
    forall i | 0 <= i < |s| ensures Reveal(Obscure(s))[i] == s[i] {
      RevealByte(s[i]);
    }
  }

  // ----- Writing

  /** The bytes of the nine fields, field `i` for entry `i` of the table. */
  function Fields(login: Login7): (fields: seq<bytes>)
    ensures |fields| == FIELDS
  {
    [
      Utf16(login.hostname),
      Utf16(login.login.user),
      Obscure(Utf16(login.login.password)),
      Utf16(login.appName),
      Utf16(login.serverName),
      [],
      Utf16(login.library),
      Utf16(login.language),
      Utf16(login.database)
    ]
  }

  /** The table for `fields`, the first of them at `offset`. */
  function FieldTable(fields: seq<bytes>, offset: nat): (s: bytes)
    ensures |s| == 4 * |fields|
  {
    if |fields| == 0 then []
    else
      Le(Min(offset, U16_MAX), 2) + Le(Min(|fields[0]| / 2, U16_MAX), 2)
      + FieldTable(fields[1..], offset + |fields[0]|)
  }

  /** The fixed part ahead of the table. */
  function HeadBytes(length: nat, packetSize: u32, processId: u32): (s: bytes)
    ensures |s| == 36
  {
    Le(Min(length, 0xFFFF_FFFF), 4) + Le(TDS_7_4, 4) + Le(packetSize, 4) + Le(0, 4) + Le(processId, 4) + Le(0, 4)
    + [0xE0, 0x02, 0x00, 0x00] + Le(0, 4) + Le(0, 4)
  }

  /** Between table and tail: the client id, three empty fields at the end, and the long SSPI's length. */
  function MiddleBytes(end: nat): (s: bytes)
    ensures |s| == 22
  {
    var field := Le(Min(end, U16_MAX), 2) + Le(0, 2);
    [0, 0, 0, 0, 0, 0] + field + field + field + Le(0, 4)
  }

  function LoginLength(login: Login7): nat {
    FIXED_LENGTH + |Concat(Fields(login))|
  }

  function LoginBytes(login: Login7, processId: u32): (s: bytes)
    ensures |s| == LoginLength(login)
  {
    HeadBytes(LoginLength(login), login.packetSize, processId)
    + FieldTable(Fields(login), FIXED_LENGTH)
    + MiddleBytes(LoginLength(login))
    + Concat(Fields(login))
  }

  lemma TableStep(fields: seq<bytes>, i: nat, before: bytes, tail: bytes)
    requires i < |fields|
    ensures before + Le(Min(FIXED_LENGTH + |tail|, U16_MAX), 2) + Le(Min(|fields[i]| / 2, U16_MAX), 2)
            + FieldTable(fields[i + 1..], FIXED_LENGTH + |tail + fields[i]|)
         == before + FieldTable(fields[i..], FIXED_LENGTH + |tail|)
    ensures tail + fields[i] + Concat(fields[i + 1..]) == tail + Concat(fields[i..])
  {
    hide Le;
    assert fields[i..][1..] == fields[i + 1..];
  }

  /** Grows table and tail side by side, and patches the length in last. */
  method EncodeLogin7(login: Login7, processId: u32) returns (out: bytes)
    ensures out == LoginBytes(login, processId)
  {
    hide Le, Utf16, Obscure, FieldTable, Concat, Fields;
    out := Le(0, 4) + Le(TDS_7_4, 4) + Le(login.packetSize, 4) + Le(0, 4) + Le(processId, 4) + Le(0, 4);
    out := out + [0xE0, 0x02, 0x00, 0x00] + Le(0, 4) + Le(0, 4);
    ghost var head := out;
    assert head == HeadBytes(0, login.packetSize, processId);
    var fields := Fields(login);
    var tail: bytes := [];
    assert [] + Concat(fields) == Concat(fields);
    assert fields[0..] == fields;
    for i := 0 to FIELDS
      invariant out + FieldTable(fields[i..], FIXED_LENGTH + |tail|) == head + FieldTable(fields, FIXED_LENGTH)
      invariant tail + Concat(fields[i..]) == Concat(fields)
    {
      TableStep(fields, i, out, tail);
      var offset := Min(FIXED_LENGTH + |tail|, U16_MAX);
      var chars := Min(|fields[i]| / 2, U16_MAX);
      out := out + Le(offset, 2);
      out := out + Le(chars, 2);
      tail := tail + fields[i];
    }
    NoFields(fields[FIELDS..], FIXED_LENGTH + |tail|);
    assert tail == Concat(fields) && out == head + FieldTable(fields, FIXED_LENGTH);
    var end := FIXED_LENGTH + |tail|;
    out := out + MiddleBytes(end);
    out := out + tail;
    assert out == head + FieldTable(fields, FIXED_LENGTH) + MiddleBytes(end) + tail;
    var length := Min(|out|, 0xFFFF_FFFF);
    PatchLength(head, FieldTable(fields, FIXED_LENGTH), MiddleBytes(end), tail, Le(length, 4));
    HeadAfterLength(LoginLength(login), login.packetSize, processId);
    out := Le(length, 4) + out[4..];
  }

  /** The fixed part but for its length does not depend on it. */
  lemma HeadAfterLength(length: nat, packetSize: u32, processId: u32)
    ensures HeadBytes(length, packetSize, processId)
         == Le(Min(length, 0xFFFF_FFFF), 4) + HeadBytes(0, packetSize, processId)[4..]
  {
    hide Le;
  }

  lemma PatchLength(head: bytes, a: bytes, b: bytes, c: bytes, patch: bytes)
    requires |head| >= 4
    ensures patch + (head + a + b + c)[4..] == patch + head[4..] + a + b + c
  {
    assert (head + a + b + c)[4..] == head[4..] + a + b + c;
  }

  lemma NoFields(fields: seq<bytes>, offset: nat)
    requires |fields| == 0
    ensures FieldTable(fields, offset) == [] && Concat(fields) == []
  {
  }

  // ----- Reading

  /** `n` table entries off `s`, each the bytes of `body` it points at. */
  function FieldsOf(body: bytes, n: nat, s: bytes): (p: Parse<seq<bytes>>)
    ensures p.Got? ==> |p.value| == n && forall i :: 0 <= i < n ==> |p.value[i]| % 2 == 0
  {
    if n == 0 then Got([], s)
    else
      var (offset, s1) :- U16Le(s);
      var (chars, s2) :- U16Le(s1);
      if offset + 2 * chars > |body| then Bad
      else
        var (more, s3) :- FieldsOf(body, n - 1, s2);
        Got([body[offset..offset + 2 * chars]] + more, s3)
  }

  predicate IsSupported(version: u32) {
    0x72 <= version / 0x100_0000 <= 0x74
  }

  /** A login from its nine fields. */
  function OfFields(fields: seq<bytes>, packetSize: u32): Login7
    requires |fields| == FIELDS && forall i :: 0 <= i < FIELDS ==> |fields[i]| % 2 == 0
  {
    Login7(
      Login(OfUtf16Lossy(fields[1]), OfUtf16Lossy(Reveal(fields[2]))),
      OfUtf16Lossy(fields[8]),
      OfUtf16Lossy(fields[0]),
      OfUtf16Lossy(fields[3]),
      OfUtf16Lossy(fields[4]),
      OfUtf16Lossy(fields[6]),
      OfUtf16Lossy(fields[7]),
      packetSize)
  }

  /** The fixed part ahead of the table: the packet size asked for. */
  function Head(body: bytes): Parse<u32> {
    var (_, s1) :- U32Le(body);
    var (version, s2) :- U32Le(s1);
    if !IsSupported(version) then Bad
    else
      var (packetSize, s3) :- U32Le(s2);
      var (_, s4) :- Skip(12, s3);
      var (_, s5) :- Skip(4, s4);
      var (_, s6) :- Skip(8, s5);
      Got(packetSize, s6)
  }

  function LoginParse(body: bytes): Parse<Login7> {
    var (packetSize, s1) :- Head(body);
    var (fields, s2) :- FieldsOf(body, FIELDS, s1);
    Got(OfFields(fields, packetSize), s2)
  }

  /** What `body` reads as; none where it breaks off, has another version or points past its end. */
  function LoginOf(body: bytes): Option<Login7> {
    match LoginParse(body) case Bad => None case Got(login, _) => Some(login)
  }

  method ReadFields(cursor: Cursor, body: bytes) returns (r: Result<seq<bytes>>)
    requires cursor.Valid()
    modifies cursor
    ensures cursor.Valid()
    ensures Follows(r, cursor.Rest(), FieldsOf(body, FIELDS, old(cursor.Rest())))
  {
    hide U16Le, Cursor.Rest;
    ghost var start := cursor.Rest();
    var fields: seq<bytes> := [];
    assert forall more: seq<bytes> :: [] + more == more;
    for i := 0 to FIELDS
      invariant cursor.Valid()
      invariant FieldsOf(body, FIELDS, start) == match FieldsOf(body, FIELDS - i, cursor.Rest())
                                                 case Bad => Bad
                                                 case Got(more, rest) => Got(fields + more, rest)
    {
      ghost var before := fields;
      var offset :- cursor.U16Le();
      var chars :- cursor.U16Le();
      if offset + chars * 2 > |body| {
        return Err;
      }
      var field := body[offset..offset + chars * 2];
      fields := fields + [field];
      assert forall more: seq<bytes> :: before + ([field] + more) == fields + more;
    }
    assert fields + [] == fields;
    r := Ok(fields);
  }

  method ReadHead(cursor: Cursor) returns (r: Result<u32>)
    requires cursor.Valid()
    modifies cursor
    ensures cursor.Valid()
    ensures Follows(r, cursor.Rest(), Head(old(cursor.Rest())))
  {
    hide U32Le, Cursor.Rest;
    var _ :- cursor.U32Le();
    var version :- cursor.U32Le();
    if !IsSupported(version) {
      return Err;
    }
    var packetSize :- cursor.U32Le();
    var _ :- cursor.Skip(12);
    var _ :- cursor.Skip(4);
    var _ :- cursor.Skip(8);
    r := Ok(packetSize);
  }

  method ReadLogin7(body: bytes) returns (r: Result<Login7>)
    ensures r == match LoginOf(body) case None => Err case Some(login) => Ok(login)
  {
    hide Head, FieldsOf, OfFields, Cursor.Rest;
    var cursor := new Cursor(body);
    var packetSize :- ReadHead(cursor);
    var fields :- ReadFields(cursor, body);
    r := Ok(OfFields(fields, packetSize));
  }
}

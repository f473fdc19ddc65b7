/** The login's offset table: its fields tile the tail, and reading through it gives the login back. */
module LoginTable {
  import opened Bytes
  import opened Login
  import opened Parsing
  import opened Text
  import opened Tiling
  import opened Wrappers

  /** Where field `i` begins; field nine would begin at the end. */
  function FieldOffset(fields: seq<bytes>, i: nat): nat
    requires i <= |fields|
  {
    FIXED_LENGTH + Before(fields, i)
  }

  ghost predicate AreEven(fields: seq<bytes>) {
    forall i :: 0 <= i < |fields| ==> |fields[i]| % 2 == 0
  }

  /** No offset or count in the table for `fields` is more than its u16 can say. */
  ghost predicate FitsTable(fields: seq<bytes>) {
    forall i :: 0 <= i < |fields| ==> FieldOffset(fields, i) <= U16_MAX && |fields[i]| / 2 <= U16_MAX
  }

  /** Reading through the table gives each field, as long as every offset and count fits its u16. */
  lemma {:induction false} TableBack(head: bytes, fields: seq<bytes>, i: nat, t: bytes)
    requires i <= |fields| && |head| == FIXED_LENGTH && AreEven(fields)
    requires FitsTable(fields)
    ensures FieldsOf(head + Concat(fields), |fields| - i, FieldTable(fields[i..], FieldOffset(fields, i)) + t)
         == Got(fields[i..], t)
    decreases |fields| - i
  {
    hide U16Le, Le, Concat, Before;
    var body := head + Concat(fields);
    if i == |fields| {
      assert FieldTable(fields[i..], FieldOffset(fields, i)) + t == t;
    } else {
      var offset, n := FieldOffset(fields, i), |fields[i]|;
      FieldFits(fields, i);
      var s2 := FieldTable(fields[i + 1..], offset + n) + t;
      var s1 := Le(n / 2, 2) + s2;
      assert fields[i..][1..] == fields[i + 1..];
      assert FieldTable(fields[i..], offset) + t == Le(offset, 2) + s1;
      U16LeBack(offset, s1);
      U16LeBack(n / 2, s2);
      FieldAt(head, fields, i);
      TableBack(head, fields, i + 1, t);
      assert fields[i..] == [fields[i]] + fields[i + 1..];
    }
  }

  lemma FieldsAreEven(login: Login7)
    ensures AreEven(Fields(login))
  {
    hide Utf16, Obscure;
  }

  /** Everything ahead of the tail. */
  function AheadOfTail(login: Login7, processId: u32): (s: bytes)
    ensures |s| == FIXED_LENGTH
  {
    HeadBytes(LoginLength(login), login.packetSize, processId)
    + FieldTable(Fields(login), FIXED_LENGTH)
    + MiddleBytes(LoginLength(login))
  }

  lemma HeadBack(length: nat, packetSize: u32, processId: u32, t: bytes)
    ensures Head(HeadBytes(length, packetSize, processId) + t) == Got(packetSize, t)
  {
    hide U32Le, Le;
    var s4 := Le(0, 4) + Le(processId, 4) + Le(0, 4) + [0xE0, 0x02, 0x00, 0x00] + Le(0, 4) + Le(0, 4);
    var s3 := Le(packetSize, 4) + (s4 + t);
    var s2 := Le(TDS_7_4, 4) + s3;
    assert HeadBytes(length, packetSize, processId) + t == Le(Min(length, 0xFFFF_FFFF), 4) + s2;
    U32LeBack(Min(length, 0xFFFF_FFFF), s2);
    U32LeBack(TDS_7_4, s3);
    U32LeBack(packetSize, s4 + t);
    SkipsBack(s4, t);
  }

  lemma SkipsBack(s: bytes, t: bytes)
    requires |s| == 24
    ensures (s + t)[12..][4..][8..] == t
  {
  }

  /** The fields of a login, read back as text, are the login. */
  lemma OfFieldsBack(login: Login7)
    ensures AreEven(Fields(login))
    ensures OfFields(Fields(login), login.packetSize) == login
  {
    FieldsAreEven(login);
    hide Utf16, OfUtf16Lossy, Obscure, Reveal, OfUtf16;
    Utf16Back(login.hostname);
    Utf16Back(login.login.user);
    Utf16Back(login.login.password);
    RevealBack(Utf16(login.login.password));
    Utf16Back(login.appName);
    Utf16Back(login.serverName);
    Utf16Back(login.library);
    Utf16Back(login.language);
    Utf16Back(login.database);
  }

  /** A login whose table can say where every field begins and how long it is. */
  ghost predicate Addressable(login: Login7) {
    FitsTable(Fields(login))
  }

  /** Every login of at most 65535 bytes is one. */
  lemma ShortIsAddressable(login: Login7)
    requires LoginLength(login) <= U16_MAX
    ensures Addressable(login)
  {
    hide Fields, Concat, Before;
    LoginOffsets(login);
    var fields := Fields(login);
    forall i | 0 <= i < FIELDS ensures FieldOffset(fields, i) <= U16_MAX && |fields[i]| / 2 <= U16_MAX {
      FieldFits(fields, i);
    }
  }

  /** Every addressable login is read back, whichever process wrote it, though it run past byte 65535. */
  lemma LoginBack(login: Login7, processId: u32)
    requires Addressable(login)
    ensures LoginOf(LoginBytes(login, processId)) == Some(login)
  {
    hide Head, FieldsOf, OfFields, HeadBytes, FieldTable, MiddleBytes, Concat, Fields, FieldOffset;
    var fields := Fields(login);
    var body := LoginBytes(login, processId);
    var middle := MiddleBytes(LoginLength(login));
    var s1 := FieldTable(fields, FIXED_LENGTH) + (middle + Concat(fields));
    OfFieldsBack(login);
    HeadBack(LoginLength(login), login.packetSize, processId, s1);
    LoginOffsets(login);
    assert body == HeadBytes(LoginLength(login), login.packetSize, processId) + s1;
    assert fields[0..] == fields;
    TableBack(AheadOfTail(login, processId), fields, 0, middle + Concat(fields));
  }

  lemma LoginOffsets(login: Login7)
    ensures FieldOffset(Fields(login), 0) == FIXED_LENGTH
    ensures FieldOffset(Fields(login), FIELDS) == LoginLength(login)
  {
    BeforeIs(Fields(login), FIELDS);
    assert Fields(login)[..FIELDS] == Fields(login);
  }

  /** Entry `i` of the table: where it says its field is, and how many characters it says it has. */
  function Entry(body: bytes, i: nat): (nat, nat)
    requires i < FIELDS && |body| >= FIXED_LENGTH
  {
    var at := 36 + 4 * i;
    (OfLe(body[at..at + 2]), OfLe(body[at + 2..at + 4]))
  }

  lemma {:induction false} TableEntry(fields: seq<bytes>, offset: nat, i: nat)
    requires i < |fields|
    ensures FieldTable(fields, offset)[4 * i..4 * i + 4]
         == Le(Min(offset + Before(fields, i), U16_MAX), 2) + Le(Min(|fields[i]| / 2, U16_MAX), 2)
  {
    hide Le;
    var s := FieldTable(fields, offset);
    var first := Le(Min(offset, U16_MAX), 2) + Le(Min(|fields[0]| / 2, U16_MAX), 2);
    var tail := FieldTable(fields[1..], offset + |fields[0]|);
    assert s == first + tail;
    if i == 0 {
      assert s[0..4] == first;
    } else {
      TableEntry(fields[1..], offset + |fields[0]|, i - 1);
      ShiftBefore(fields, i);
      assert s[4 * i..4 * i + 4] == tail[4 * (i - 1)..4 * (i - 1) + 4];
    }
  }

  lemma EntrySlices(head: bytes, table: bytes, rest: bytes, i: nat, x: bytes, y: bytes)
    requires |head| == 36 && 4 * i + 4 <= |table| && |x| == |y| == 2
    requires table[4 * i..4 * i + 4] == x + y
    ensures (head + table + rest)[36 + 4 * i..36 + 4 * i + 2] == x
    ensures (head + table + rest)[36 + 4 * i + 2..36 + 4 * i + 4] == y
  {
    assert table[4 * i..4 * i + 2] == (x + y)[..2];
    assert table[4 * i + 2..4 * i + 4] == (x + y)[2..];
  }

  lemma LoginEntry(login: Login7, processId: u32, i: nat)
    requires Addressable(login) && i < FIELDS
    ensures Entry(LoginBytes(login, processId), i) == (FieldOffset(Fields(login), i), |Fields(login)[i]| / 2)
  {
    hide Le, HeadBytes, FieldTable, MiddleBytes, Concat, Fields, OfLe, Before;
    var fields := Fields(login);
    LoginOffsets(login);
    BeforeGrows(fields, i, FIELDS);
    FieldFits(fields, i);
    TableEntry(fields, FIXED_LENGTH, i);
    var head := HeadBytes(LoginLength(login), login.packetSize, processId);
    var rest := MiddleBytes(LoginLength(login)) + Concat(fields);
    var x, y := Le(FieldOffset(fields, i), 2), Le(|fields[i]| / 2, 2);
    EntrySlices(head, FieldTable(fields, FIXED_LENGTH), rest, i, x, y);
    assert LoginBytes(login, processId) == head + FieldTable(fields, FIXED_LENGTH) + rest;
    PowValues();
    LeRoundTrip(FieldOffset(fields, i), 2);
    LeRoundTrip(|fields[i]| / 2, 2);
  }

  /** Entry `i` points at exactly its field's bytes. */
  lemma LoginField(login: Login7, processId: u32, i: nat)
    requires Addressable(login) && i < FIELDS
    ensures var body := LoginBytes(login, processId);
            var (at, chars) := Entry(body, i);
            && at == FieldOffset(Fields(login), i)
            && at + 2 * chars == FieldOffset(Fields(login), i + 1) <= |body|
            && body[at..at + 2 * chars] == Fields(login)[i]
  {
    hide Entry, Concat, Fields, Before;
    LoginEntry(login, processId, i);
    FieldsAreEven(login);
    FieldFits(Fields(login), i);
    LoginOffsets(login);
    FieldAt(AheadOfTail(login, processId), Fields(login), i);
  }

  /** Entry `i` points at `field`, inside the message. */
  ghost predicate PointsAt(body: bytes, i: nat, field: bytes)
    requires i < FIELDS && |body| >= FIXED_LENGTH
  {
    var (at, chars) := Entry(body, i);
    at + 2 * chars <= |body| && body[at..at + 2 * chars] == field
  }

  /** Entry `i` starts where the entry before it ends. */
  ghost predicate Continues(body: bytes, i: nat)
    requires 0 < i < FIELDS && |body| >= FIXED_LENGTH
  {
    Entry(body, i).0 == Entry(body, i - 1).0 + 2 * Entry(body, i - 1).1
  }

  /**
   * The fields tile the tail: the first at 94, each where the one before it ends, the last
   * ending where the message does, and each entry at its field's bytes.
   */
  lemma LoginTiles(login: Login7, processId: u32)
    requires Addressable(login)
    ensures var body := LoginBytes(login, processId);
            && OfLe(body[..4]) == |body|
            && Entry(body, 0).0 == FIXED_LENGTH
            && (forall i :: 0 < i < FIELDS ==> Continues(body, i))
            && Entry(body, FIELDS - 1).0 + 2 * Entry(body, FIELDS - 1).1 == |body|
            && forall i :: 0 <= i < FIELDS ==> PointsAt(body, i, Fields(login)[i])
  {
    hide LoginBytes, Fields, OfLe, Entry, FieldOffset;
    var body := LoginBytes(login, processId);
    AddressableLength(login);
    LengthField(login, processId);
    LoginOffsets(login);
    LoginField(login, processId, 0);
    LoginField(login, processId, FIELDS - 1);
    forall i | 0 < i < FIELDS ensures Continues(body, i) {
      LoginField(login, processId, i);
      LoginField(login, processId, i - 1);
    }
    forall i | 0 <= i < FIELDS ensures PointsAt(body, i, Fields(login)[i]) {
      LoginField(login, processId, i);
    }
  }

  /** An addressable login runs at most one field past the last offset there is. */
  lemma AddressableLength(login: Login7)
    requires Addressable(login)
    ensures LoginLength(login) <= 3 * U16_MAX + 1
  {
    hide Fields, Concat, Before;
    LoginOffsets(login);
    FieldFits(Fields(login), FIELDS - 1);
  }

  lemma LengthField(login: Login7, processId: u32)
    requires LoginLength(login) <= 0xFFFF_FFFF
    ensures OfLe(LoginBytes(login, processId)[..4]) == LoginLength(login)
  {
    hide Le, FieldTable, MiddleBytes, Concat, Fields, OfLe;
    var body := LoginBytes(login, processId);
    assert body[..4] == HeadBytes(LoginLength(login), login.packetSize, processId)[..4] == Le(LoginLength(login), 4);
    PowValues();
    LeRoundTrip(LoginLength(login), 4);
  }
}

/** A login on the wire, told byte by byte: the password's disguise, the fixed part, and what any bytes read as. */
module LoginWire {
  import opened Bits
  import opened Bytes
  import opened Login
  import opened LoginTable
  import opened Parsing
  import opened Text
  import opened Tiling
  import opened Wrappers

  // ----- The password's disguise

  /** Bit `j` of a disguised byte is bit `j + 4` of the byte, counted round, turned over where 0xA5 has a bit. */
  lemma ObscureBits(s: bytes, i: nat, j: nat)
    requires i < |s| && j < 8
    ensures Bit(Obscure(s)[i], j) <==> Bit(s[i], (j + 4) % 8) != Bit(0xA5, j)
  {
    hide Bit;
    var swapped := Swap(s[i]);
    SwappedBits(s[i], swapped, j);
    XorBits(swapped, 0xA5, Obscure(s)[i], j);
  }

  /** So stands the password in a login: where its entry, at byte 44, points. */
  lemma PasswordOnWire(login: Login7, processId: u32, i: nat, j: nat)
    requires Addressable(login) && i < |Utf16(login.login.password)| && j < 8
    ensures var body := LoginBytes(login, processId);
            && |body| >= 48
            && var at, chars := OfLe(body[44..46]), OfLe(body[46..48]);
            && 2 * chars == |Utf16(login.login.password)| && at + 2 * chars <= |body|
            && (Bit(body[at + i], j) <==> Bit(Utf16(login.login.password)[i], (j + 4) % 8) != Bit(0xA5, j))
  {
    hide LoginBytes, Obscure, Utf16, OfLe, Bit, FieldOffset;
    var body, password := LoginBytes(login, processId), Utf16(login.login.password);
    LoginTiles(login, processId);
    assert Fields(login)[2] == Obscure(password);
    assert PointsAt(body, 2, Fields(login)[2]);
    ObscureBits(password, i, j);
    var (at, chars) := Entry(body, 2);
    assert body[at..at + 2 * chars][i] == body[at + i];
  }

  // ----- The fixed part

  /** What stands ahead of the table: the length, version 7.4, the packet size, the process. */
  ghost predicate IsHead(s: bytes, length: nat, packetSize: u32, processId: u32) {
    && |s| == 36
    && s[..4] == Le(length, 4) && s[4..8] == [0x04, 0x00, 0x00, 0x74] && s[8..12] == Le(packetSize, 4)
    && s[12..16] == [0, 0, 0, 0] && s[16..20] == Le(processId, 4)
    && s[20..36] == [0, 0, 0, 0, 0xE0, 0x02, 0, 0, 0, 0, 0, 0, 0, 0, 0, 0]
  }

  /** What stands behind it: no client, then three fields of nothing at the end, and no long ticket. */
  ghost predicate IsMiddle(s: bytes, end: nat) {
    && |s| == 22
    && s[..6] == [0, 0, 0, 0, 0, 0]
    && s[6..8] == Le(Min(end, 65535), 2) && s[8..10] == [0, 0]
    && s[10..12] == Le(Min(end, 65535), 2) && s[12..14] == [0, 0]
    && s[14..16] == Le(Min(end, 65535), 2) && s[16..18] == [0, 0]
    && s[18..22] == [0, 0, 0, 0]
  }

  /** The fixed part of a login, byte by byte. */
  lemma FixedPart(login: Login7, processId: u32)
    requires Addressable(login)
    ensures var body := LoginBytes(login, processId);
            && |body| >= 94
            && IsHead(body[..36], |body|, login.packetSize, processId)
            && IsMiddle(body[72..94], |body|)
  {
    AddressableLength(login);
    var length := LoginLength(login);
    HeadIs(length, login.packetSize, processId);
    MiddleIs(length);
    hide HeadBytes, MiddleBytes, FieldTable, Concat, Fields, Addressable, IsHead, IsMiddle, LoginBytes;
    var head, middle := HeadBytes(length, login.packetSize, processId), MiddleBytes(length);
    LoginParts(login, processId);
    FourParts(head, FieldTable(Fields(login), 94), middle, Concat(Fields(login)));
  }

  lemma LoginParts(login: Login7, processId: u32)
    ensures LoginBytes(login, processId)
         == HeadBytes(LoginLength(login), login.packetSize, processId) + FieldTable(Fields(login), 94)
            + MiddleBytes(LoginLength(login)) + Concat(Fields(login))
  {
  }

  lemma FourParts(a: bytes, b: bytes, c: bytes, d: bytes)
    requires |a| == 36 && |b| == 36 && |c| == 22
    ensures var s := a + b + c + d; |s| >= 94 && s[..36] == a && s[72..94] == c
  {
  }

  lemma HeadIs(length: nat, packetSize: u32, processId: u32)
    requires length <= 0xFFFF_FFFF
    ensures IsHead(HeadBytes(length, packetSize, processId), length, packetSize, processId)
  {
    Zeros();
    assert Le(0x7400_0004, 4) == [0x04, 0x00, 0x00, 0x74] by {
      assert Le(0x74, 1) == [0x74] && Le(0x7400, 2) == [0x00, 0x74] && Le(0x74_0000, 3) == [0x00, 0x00, 0x74];
    }
    hide Le;
  }

  lemma MiddleIs(end: nat)
    ensures IsMiddle(MiddleBytes(end), end)
  {
    Zeros();
    hide Le;
  }

  lemma Zeros()
    ensures Le(0, 2) == [0, 0] && Le(0, 4) == [0, 0, 0, 0]
  {
    assert Le(0, 1) == [0] && Le(0, 3) == [0, 0, 0];
  }

  // ----- What any bytes read as

  /** Where entry `i` of the table behind byte 36 says its field begins. */
  function At(body: bytes, i: nat): nat {
    if 40 + 4 * i <= |body| then OfLe(body[36 + 4 * i..38 + 4 * i]) else 0
  }

  /** How many bytes it says the field takes: two for each character. */
  function Taking(body: bytes, i: nat): nat {
    if 40 + 4 * i <= |body| then 2 * OfLe(body[38 + 4 * i..40 + 4 * i]) else 0
  }

  /** Entry `i` is there and points inside. */
  predicate IsInside(body: bytes, i: nat) {
    40 + 4 * i <= |body| && At(body, i) + Taking(body, i) <= |body|
  }

  /** The bytes it points at. */
  function Piece(body: bytes, i: nat): (r: bytes)
    ensures |r| % 2 == 0
  {
    if IsInside(body, i) then body[At(body, i)..At(body, i) + Taking(body, i)] else []
  }

  /** The version is 7.2 to 7.4, and nine entries are there, none of which points past the end. */
  ghost predicate IsLogin(body: bytes) {
    && |body| >= 72
    && 0x72 <= body[7] <= 0x74
    && forall i :: 0 <= i < 9 ==> IsInside(body, i)
  }

  /** The table from entry `i` on, and whatever is behind it. */
  function TableFrom(body: bytes, i: nat): bytes {
    if 36 + 4 * i <= |body| then body[36 + 4 * i..] else []
  }

  /** Entry `i`, read off its four bytes. */
  lemma EntryRead(body: bytes, i: nat, n: nat)
    requires n > 0 && |body| >= 36 + 4 * i
    ensures !IsInside(body, i) ==> FieldsOf(body, n, TableFrom(body, i)).Bad?
    ensures IsInside(body, i) ==>
              && |body| >= 40 + 4 * i
              && FieldsOf(body, n, TableFrom(body, i)) ==
                 match FieldsOf(body, n - 1, TableFrom(body, i + 1))
                 case Bad => Bad
                 case Got(more, rest) => Got([Piece(body, i)] + more, rest)
  {
    hide OfLe;
    var s := body[36 + 4 * i..];
    if |body| >= 40 + 4 * i {
      assert s[..2] == body[36 + 4 * i..38 + 4 * i] && s[2..][..2] == body[38 + 4 * i..40 + 4 * i];
      assert s[2..][2..] == body[36 + 4 * (i + 1)..];
    }
  }

  /** The pieces from `i` to eight. */
  function Pieces(body: bytes, i: nat): (r: seq<bytes>)
    requires i <= 9
    ensures |r| == 9 - i
    decreases 9 - i
  {
    if i == 9 then [] else [Piece(body, i)] + Pieces(body, i + 1)
  }

  lemma {:induction false} PieceAt(body: bytes, i: nat, k: nat)
    requires i + k < 9
    ensures Pieces(body, i)[k] == Piece(body, i + k)
    decreases k
  {
    hide Piece;
    if k > 0 {
      PieceAt(body, i + 1, k - 1);
    }
  }

  predicate AllInside(body: bytes, i: nat)
    requires i <= 9
    decreases 9 - i
  {
    i < 9 ==> IsInside(body, i) && AllInside(body, i + 1)
  }

  lemma {:induction false} AllInsideIs(body: bytes, i: nat)
    requires i <= 9
    ensures AllInside(body, i) <==> forall k :: i <= k < 9 ==> IsInside(body, k)
    decreases 9 - i
  {
    hide IsInside;
    if i < 9 {
      AllInsideIs(body, i + 1);
    }
  }

  lemma NoEntries(body: bytes, s: bytes)
    ensures FieldsOf(body, 0, s) == Got([], s)
  {
  }

  lemma {:induction false} FieldsExactly(body: bytes, i: nat)
    requires i <= 9 && |body| >= 36 + 4 * i
    ensures FieldsOf(body, 9 - i, TableFrom(body, i)).Got? <==> AllInside(body, i)
    ensures AllInside(body, i) ==> FieldsOf(body, 9 - i, TableFrom(body, i)).value == Pieces(body, i)
    decreases 9 - i
  {
    hide FieldsOf, TableFrom, IsInside, Piece;
    if i == 9 {
      NoEntries(body, TableFrom(body, 9));
    } else {
      EntryRead(body, i, 9 - i);
      if IsInside(body, i) {
        FieldsExactly(body, i + 1);
      }
    }
  }

  lemma LongEnough(body: bytes, i: nat)
    requires IsInside(body, i)
    ensures |body| >= 40 + 4 * i
  {
    hide At, Taking;
  }

  /** The parts of a login are what the entries of `body` point at. */
  ghost predicate IsReadOff(login: Login7, body: bytes) {
    && login.hostname == OfUtf16Lossy(Piece(body, 0))
    && login.login.user == OfUtf16Lossy(Piece(body, 1))
    && login.login.password == OfUtf16Lossy(Reveal(Piece(body, 2)))
    && login.appName == OfUtf16Lossy(Piece(body, 3))
    && login.serverName == OfUtf16Lossy(Piece(body, 4))
    && login.library == OfUtf16Lossy(Piece(body, 6))
    && login.language == OfUtf16Lossy(Piece(body, 7))
    && login.database == OfUtf16Lossy(Piece(body, 8))
  }

  lemma ReadOff(body: bytes, packetSize: u32)
    ensures forall k :: 0 <= k < 9 ==> |Pieces(body, 0)[k]| % 2 == 0
    ensures IsReadOff(OfFields(Pieces(body, 0), packetSize), body)
    ensures OfFields(Pieces(body, 0), packetSize).packetSize == packetSize
  {
    hide OfUtf16Lossy, Reveal, Piece, Pieces;
    forall k | 0 <= k < 9 ensures Pieces(body, 0)[k] == Piece(body, k) {
      PieceAt(body, 0, k);
    }
  }

  /** Bytes are a login exactly so, and then its parts are what the entries point at. */
  lemma LoginReadExactly(body: bytes)
    ensures LoginOf(body).Some? <==> IsLogin(body)
    ensures IsLogin(body) ==>
              IsReadOff(LoginOf(body).value, body) && LoginOf(body).value.packetSize == OfLe(body[8..12])
  {
    hide OfLe, OfFields, FieldsOf, Head, IsInside, AllInside, Pieces, IsReadOff, TableFrom;
    HeadExactly(body);
    AllInsideIs(body, 0);
    if |body| >= 36 {
      FieldsExactly(body, 0);
      TableBegins(body);
      if AllInside(body, 0) {
        LongEnough(body, 8);
      }
    }
    if Head(body).Got? {
      ReadOff(body, Head(body).value);
    }
  }

  lemma TableBegins(body: bytes)
    requires |body| >= 36
    ensures TableFrom(body, 0) == body[36..]
  {
  }

  lemma HeadExactly(body: bytes)
    ensures Head(body).Got? <==> |body| >= 36 && 0x72 <= body[7] <= 0x74
    ensures Head(body).Got? ==> Head(body) == Got(OfLe(body[8..12]), body[36..])
  {
    if |body| >= 8 {
      var version := body[4..][..4];
      FourIs(version);
      assert version[3] == body[7];
      TopByte(version);
      assert body[4..][4..] == body[8..];
    }
    hide OfLe;
    if |body| >= 36 {
      assert body[8..][..4] == body[8..12];
      assert body[8..][4..][12..][4..][8..] == body[36..];
    }
  }

  lemma TopByte(s: bytes)
    requires |s| == 4
    ensures Four(s) / 0x100_0000 == s[3]
  {
    var low: nat := Two(s[..2]) + 0x1_0000 * (s[2] as int);
    assert Two(s[2..]) == s[2] + 0x100 * (s[3] as int);
    DivUnique(Four(s), 0x100_0000, s[3], low);
  }
}

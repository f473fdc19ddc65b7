/** A pre-login on the wire: what any bytes read as, and the two this model's parties send. */
module PreloginWire {
  import opened Bytes
  import opened Parsing
  import opened Prelogin
  import opened Session
  import opened Text
  import opened Wrappers

  // ----- What any bytes read as

  /** Where entry `i` of the table at the front says its option's bytes begin. */
  function At(body: bytes, i: nat): nat {
    if 5 * i + 5 <= |body| then OfBe(body[5 * i + 1..5 * i + 3]) else 0
  }

  function Length(body: bytes, i: nat): nat {
    if 5 * i + 5 <= |body| then OfBe(body[5 * i + 3..5 * i + 5]) else 0
  }

  /** Entry `i` is there, and points inside. */
  predicate IsInside(body: bytes, i: nat) {
    5 * i + 5 <= |body| && At(body, i) + Length(body, i) <= |body|
  }

  function Data(body: bytes, i: nat): bytes {
    if IsInside(body, i) then body[At(body, i)..At(body, i) + Length(body, i)] else []
  }

  /** Entry `i` can be read: it is not the terminator, it points inside, and an encryption is not empty. */
  predicate IsOption(body: bytes, i: nat) {
    IsInside(body, i) && body[5 * i] != 0xFF && (body[5 * i] == 0x01 ==> Data(body, i) != [])
  }

  /** The table has `n` entries that can be read, then the terminator. */
  ghost predicate IsTable(body: bytes, n: nat) {
    5 * n < |body| && body[5 * n] == 0xFF && forall i :: 0 <= i < n ==> IsOption(body, i)
  }

  function TableFrom(body: bytes, i: nat): bytes {
    if 5 * i <= |body| then body[5 * i..] else []
  }

  /** The token of entry `i`, or a terminator where there is none. */
  function TokenAt(body: bytes, i: nat): byte {
    if 5 * i < |body| then body[5 * i] else 0xFF
  }

  lemma PointedIs(body: bytes, i: nat)
    requires 5 * i < |body|
    ensures IsInside(body, i) ==> Pointed(body, TableFrom(body, i)[1..]) == Got(Data(body, i), TableFrom(body, i + 1))
    ensures !IsInside(body, i) ==> Pointed(body, TableFrom(body, i)[1..]).Bad?
  {
    hide OfBe;
    var s := TableFrom(body, i)[1..];
    if 5 * i + 5 <= |body| {
      assert s[..2] == body[5 * i + 1..5 * i + 3] && s[2..][..2] == body[5 * i + 3..5 * i + 5];
      assert s[2..][2..] == TableFrom(body, i + 1);
    }
  }

  /** Reading on from entry `i`. */
  lemma OptionRead(body: bytes, i: nat, p: Prelogin)
    ensures 5 * i >= |body| ==> ReadOptions(body, TableFrom(body, i), p) == None
    ensures 5 * i < |body| && body[5 * i] == 0xFF ==> ReadOptions(body, TableFrom(body, i), p) == Some(p)
    ensures 5 * i < |body| && body[5 * i] != 0xFF && !IsOption(body, i) ==>
              ReadOptions(body, TableFrom(body, i), p) == None
    ensures IsOption(body, i) ==>
              && Apply(p, TokenAt(body, i), Data(body, i)).Some?
              && ReadOptions(body, TableFrom(body, i), p)
                 == ReadOptions(body, TableFrom(body, i + 1), Apply(p, TokenAt(body, i), Data(body, i)).value)
  {
    hide Apply, Pointed, At, Length;
    if 5 * i < |body| {
      PointedIs(body, i);
      OptionInItsField(p, body[5 * i], Data(body, i));
      hide Data;
    }
  }

  /** What was read has a table: from entry `i` on there are entries, then the terminator. */
  lemma {:induction false} TableFound(body: bytes, i: nat, p: Prelogin) returns (n: nat)
    requires ReadOptions(body, TableFrom(body, i), p).Some?
    ensures i <= n && 5 * n < |body| && body[5 * n] == 0xFF && forall k :: i <= k < n ==> IsOption(body, k)
    decreases |body| - 5 * i
  {
    hide ReadOptions, TableFrom, IsOption, Apply;
    OptionRead(body, i, p);
    if body[5 * i] == 0xFF {
      n := i;
    } else {
      n := TableFound(body, i + 1, Apply(p, TokenAt(body, i), Data(body, i)).value);
    }
  }

  /** The last of the options `i` to `n` that is for `token` is the one at `k`. */
  ghost predicate IsLastFor(body: bytes, i: nat, n: nat, token: byte, k: nat) {
    i <= k < n && TokenAt(body, k) == token && forall j :: k < j < n ==> TokenAt(body, j) != token
  }

  ghost predicate NoneFor(body: bytes, i: nat, n: nat, token: byte) {
    forall j :: i <= j < n ==> TokenAt(body, j) != token
  }

  /** What options `i` to `n` make of `p`: each field is what the last option for it says, or what it was. */
  ghost predicate IsMadeOf(body: bytes, i: nat, n: nat, p: Prelogin, r: Prelogin) {
    && (NoneFor(body, i, n, 0x00) ==> r.version == p.version)
    && (NoneFor(body, i, n, 0x01) ==> r.encryption == p.encryption)
    && (NoneFor(body, i, n, 0x02) ==> r.instance == p.instance)
    && (NoneFor(body, i, n, 0x03) ==> r.threadId == p.threadId)
    && (NoneFor(body, i, n, 0x04) ==> r.mars == p.mars)
    && (forall k :: IsLastFor(body, i, n, 0x00, k) && |Data(body, k)| == 6 ==> r.version == Data(body, k))
    && (forall k :: IsLastFor(body, i, n, 0x01, k) && Data(body, k) != [] ==> r.encryption == Data(body, k)[0])
    && (forall k :: IsLastFor(body, i, n, 0x02, k) ==> r.instance == OfUtf8Lossy(UpToNul(Data(body, k))))
    && (forall k :: IsLastFor(body, i, n, 0x03, k) && |Data(body, k)| == 4 ==> Le(r.threadId, 4) == Data(body, k))
    && (forall k :: IsLastFor(body, i, n, 0x04, k) ==>
          (r.mars <==> exists b, more :: Data(body, k) == [b] + more && b != 0))
  }

  lemma MadeOfOne(body: bytes, i: nat, n: nat, p: Prelogin, r: Prelogin)
    requires i < n && IsOption(body, i)
    requires Apply(p, TokenAt(body, i), Data(body, i)).Some?
    requires IsMadeOf(body, i + 1, n, Apply(p, TokenAt(body, i), Data(body, i)).value, r)
    ensures IsMadeOf(body, i, n, p, r)
  {
    hide IsOption, Apply, OfUtf8Lossy, Data;
    var token, data := TokenAt(body, i), Data(body, i);
    OptionInItsField(p, token, data);
    var next := Apply(p, token, data).value;
    InstanceIs(p, token, data);
    hide TokenAt, UpToNul;
    FieldsFrom(body, i, n);
    if token == 0x00 && |data| == 6 {
      assert next.version == data;
    }
  }

  lemma InstanceIs(p: Prelogin, token: byte, data: bytes)
    ensures token == 0x02 ==> Apply(p, token, data) == Some(p.(instance := OfUtf8Lossy(UpToNul(data))))
  {
  }

  /** What is last from `i + 1` on is last from `i` on, and option `i` where there is no other. */
  lemma FieldsFrom(body: bytes, i: nat, n: nat)
    requires i < n
    ensures forall token, k :: IsLastFor(body, i, n, token, k) ==>
              IsLastFor(body, i + 1, n, token, k) || (k == i && NoneFor(body, i + 1, n, token))
    ensures forall token :: NoneFor(body, i, n, token) ==> NoneFor(body, i + 1, n, token) && TokenAt(body, i) != token
    ensures forall token, k :: IsLastFor(body, i, n, token, k) ==> TokenAt(body, k) == token
  {
    hide TokenAt;
  }

  lemma {:induction false} ReadsTable(body: bytes, i: nat, n: nat, p: Prelogin)
    requires i <= n && IsTable(body, n)
    ensures ReadOptions(body, TableFrom(body, i), p).Some?
    ensures IsMadeOf(body, i, n, p, ReadOptions(body, TableFrom(body, i), p).value)
    decreases n - i
  {
    hide ReadOptions, TableFrom, IsOption, Apply, Data;
    OptionRead(body, i, p);
    if i < n {
      assert IsOption(body, i);
      var next := Apply(p, TokenAt(body, i), Data(body, i)).value;
      ReadsTable(body, i + 1, n, next);
      MadeOfOne(body, i, n, p, ReadOptions(body, TableFrom(body, i), p).value);
    }
  }

  /** Bytes are a pre-login exactly where they open with a table; each field is then the last option's for it. */
  lemma PreloginReadExactly(body: bytes)
    ensures PreloginOf(body).Some? <==> exists n :: IsTable(body, n)
    ensures forall n :: IsTable(body, n) ==>
              IsMadeOf(body, 0, n, Prelogin([0, 0, 0, 1, 0, 0], 0x02, "", 0, false), PreloginOf(body).value)
  {
    hide ReadOptions, IsOption, IsMadeOf;
    assert TableFrom(body, 0) == body;
    hide TableFrom;
    if PreloginOf(body).Some? {
      var n := TableFound(body, 0, DEFAULT);
      assert IsTable(body, n);
    }
    forall n | IsTable(body, n)
      ensures PreloginOf(body).Some?
      ensures IsMadeOf(body, 0, n, Prelogin([0, 0, 0, 1, 0, 0], 0x02, "", 0, false), PreloginOf(body).value)
    {
      ReadsTable(body, 0, n, DEFAULT);
    }
  }
}

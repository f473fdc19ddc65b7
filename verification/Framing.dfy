/** What the packet framing accepts, and what it guarantees of what was written through it. */
module Framing {
  import opened Bytes
  import opened Wire
  import opened Wrappers

  /** Any one packet: its header fields may be anything but its length, which is its own. */
  datatype Parcel = Parcel(kind: byte, status: byte, spid: u16, id: byte, window: byte, body: bytes) {
    function ToBytes(): (s: bytes) {
      [kind, status] + Be(8 + |body|, 2) + Be(spid, 2) + [id, window] + body
    }

    predicate EndsMessage() {
      status % 2 == 1
    }
  }

  function Flat(ps: seq<Parcel>): bytes {
    if |ps| == 0 then [] else ps[0].ToBytes() + Flat(ps[1..])
  }

  function Bodies(ps: seq<Parcel>): bytes {
    if |ps| == 0 then [] else ps[0].body + Bodies(ps[1..])
  }

  /**
   * A message as the protocol has it: at least one packet, all of one packet type, each as
   * long as a length field may say, the last and only the last marked, the whole within the
   * ceiling.
   */
  ghost predicate IsMessage(ps: seq<Parcel>, kind: byte, ceiling: nat) {
    && (1 <= kind <= 4 || 6 <= kind <= 8 || kind == 14 || 16 <= kind <= 18)
    && IsParcels(ps, kind)
    && |Bodies(ps)| <= ceiling
  }

  ghost predicate IsParcels(ps: seq<Parcel>, kind: byte) {
    && |ps| > 0
    && (forall p <- ps :: p.kind == kind && 8 + |p.body| <= 32767)
    && (forall i :: 0 <= i < |ps| ==> (ps[i].EndsMessage() <==> i == |ps| - 1))
  }

  lemma HeaderParts(a: bytes, b: bytes, c: bytes, d: bytes, body: bytes, t: bytes)
    requires |a| == |b| == |c| == |d| == 2
    ensures var s := a + b + c + d + body + t;
            && s[0] == a[0] && s[1] == a[1] && s[2..4] == b
            && s[HEADER_LENGTH..HEADER_LENGTH + |body|] == body && s[HEADER_LENGTH + |body|..] == t
  {
  }

  lemma ParcelHeader(p: Parcel, t: bytes)
    requires HEADER_LENGTH + |p.body| <= MAX_PACKET_SIZE
    ensures var s := p.ToBytes() + t; var n := HEADER_LENGTH + |p.body|;
            && |s| >= n
            && s[0] == p.kind && s[1] == p.status
            && OfBe(s[2..4]) == n
            && s[HEADER_LENGTH..n] == p.body
            && s[n..] == t
  {
    hide Be, OfBe, Pow256;
    PowValues();
    BeRoundTrip(HEADER_LENGTH + |p.body|, 2);
    HeaderParts([p.kind, p.status], Be(8 + |p.body|, 2), Be(p.spid, 2), [p.id, p.window], p.body, t);
  }

  /** Reading on past one packet that its header and the ceiling allow. */
  lemma ReadOne(p: Parcel, ceiling: nat, seen: Option<byte>, payload: bytes, t: bytes)
    requires HEADER_LENGTH + |p.body| <= MAX_PACKET_SIZE
    requires if seen.None? then IsPacketType(p.kind) else seen.value == p.kind
    requires |payload| + |p.body| <= ceiling
    ensures ReadPackets(p.ToBytes() + t, ceiling, seen, payload) ==
            if p.EndsMessage() then Message(p.kind, payload + p.body, t)
            else ReadPackets(t, ceiling, Some(p.kind), payload + p.body)
  {
    ParcelHeader(p, t);
  }

  lemma ParcelsCons(p: Parcel, more: seq<Parcel>, kind: byte)
    requires p.kind == kind && HEADER_LENGTH + |p.body| <= MAX_PACKET_SIZE
    requires if |more| == 0 then p.EndsMessage() else !p.EndsMessage() && IsParcels(more, kind)
    ensures IsParcels([p] + more, kind)
    ensures Flat([p] + more) == p.ToBytes() + Flat(more)
    ensures Bodies([p] + more) == p.body + Bodies(more)
  {
    var ps := [p] + more;
    assert ps[1..] == more;
    forall i | 0 <= i < |ps| ensures ps[i].EndsMessage() <==> i == |ps| - 1 {
      if i > 0 {
        assert ps[i] == more[i - 1];
      }
    }
  }

  lemma ParcelsUncons(ps: seq<Parcel>, kind: byte)
    requires IsParcels(ps, kind)
    ensures ps[0].kind == kind && HEADER_LENGTH + |ps[0].body| <= MAX_PACKET_SIZE
    ensures if |ps| == 1 then ps[0].EndsMessage() else !ps[0].EndsMessage() && IsParcels(ps[1..], kind)
    ensures |ps| == 1 ==> Flat(ps) == ps[0].ToBytes() && Bodies(ps) == ps[0].body
  {
    assert ps[0] in ps;
    forall i | 0 <= i < |ps[1..]| ensures ps[1..][i].EndsMessage() <==> i == |ps[1..]| - 1 {
      assert ps[1..][i] == ps[i + 1];
    }
  }

  /** The first of several packets, and the rest of them. */
  lemma ParcelsSplit(ps: seq<Parcel>, payload: bytes, t: bytes)
    requires |ps| > 1
    ensures Flat(ps) + t == ps[0].ToBytes() + (Flat(ps[1..]) + t)
    ensures Bodies(ps) == ps[0].body + Bodies(ps[1..])
    ensures payload + Bodies(ps) == (payload + ps[0].body) + Bodies(ps[1..])
  {
    hide Parcel.ToBytes;
    Assoc(ps[0].ToBytes(), Flat(ps[1..]), t);
    Assoc(payload, ps[0].body, Bodies(ps[1..]));
  }

  /** Every sequence of packets that is a message is read as that message, whatever follows it. */
  lemma {:induction false} ReadParcels(
    ps: seq<Parcel>, kind: byte, ceiling: nat, seen: Option<byte>, payload: bytes, t: bytes)
    requires IsParcels(ps, kind)
    requires if seen.None? then IsPacketType(kind) else seen.value == kind
    requires |payload| + |Bodies(ps)| <= ceiling
    ensures ReadPackets(Flat(ps) + t, ceiling, seen, payload) == Message(kind, payload + Bodies(ps), t)
  {
    var p := ps[0];
    hide ReadPackets, Flat, Bodies, IsParcels, Parcel.ToBytes, Parcel.EndsMessage;
    ParcelsUncons(ps, kind);
    if |ps| == 1 {
      ReadOne(p, ceiling, seen, payload, t);
    } else {
      ParcelsSplit(ps, payload, t);
      ReadOne(p, ceiling, seen, payload, Flat(ps[1..]) + t);
      ReadParcels(ps[1..], kind, ceiling, Some(kind), payload + p.body, t);
    }
  }

  /** What one packet must have been for the reader to have gone past it. */
  lemma StepSound(s: bytes, ceiling: nat, seen: Option<byte>, payload: bytes) returns (p: Parcel, rest: bytes)
    requires ReadPackets(s, ceiling, seen, payload).Message?
    ensures s == p.ToBytes() + rest
    ensures |rest| < |s|
    ensures HEADER_LENGTH + |p.body| <= MAX_PACKET_SIZE
    ensures if seen.None? then IsPacketType(p.kind) else seen.value == p.kind
    ensures |payload| + |p.body| <= ceiling
    ensures ReadPackets(s, ceiling, seen, payload) ==
            if p.EndsMessage() then Message(p.kind, payload + p.body, rest)
            else ReadPackets(rest, ceiling, Some(p.kind), payload + p.body)
  {
    var length := OfBe(s[2..4]);
    p := Parcel(s[0], s[1], SpidOf(s), s[6], s[7], s[HEADER_LENGTH..length]);
    rest := s[length..];
    SplitHeader(s, length, p);
  }

  /** Whatever is read as a message opened with packets that are one. */
  lemma {:induction false} ReadSound(s: bytes, ceiling: nat, seen: Option<byte>, payload: bytes)
    returns (ps: seq<Parcel>)
    requires ReadPackets(s, ceiling, seen, payload).Message?
    ensures var m := ReadPackets(s, ceiling, seen, payload);
            && IsParcels(ps, m.kind)
            && (if seen.None? then IsPacketType(m.kind) else seen.value == m.kind)
            && s == Flat(ps) + m.rest
            && m.payload == payload + Bodies(ps)
            && |m.payload| <= ceiling
    decreases |s|
  {
    hide ReadPackets;
    var p, rest := StepSound(s, ceiling, seen, payload);
    if p.EndsMessage() {
      ps := [p];
      ParcelsCons(p, [], p.kind);
      assert [p] + [] == [p];
    } else {
      var more := ReadSound(rest, ceiling, Some(p.kind), payload + p.body);
      ps := [p] + more;
      ParcelsCons(p, more, p.kind);
    }
  }

  function SpidOf(s: bytes): u16
    requires |s| >= HEADER_LENGTH
  {
    PowValues();
    OfBe(s[4..6])
  }

  lemma BeOfTwo(s: bytes)
    requires |s| == 2
    ensures OfBe(s) == 256 * (s[0] as int) + s[1]
    ensures Be(OfBe(s), 2) == s
  {
    assert s[..1][..0] == [];
    assert OfBe(s[..1]) == s[0];
    assert Be(OfBe(s), 2) == Be(OfBe(s) / 256, 1) + [OfBe(s) % 256];
    assert Be(s[0], 1) == Be(s[0] / 256, 0) + [s[0] % 256];
  }

  lemma HeaderPieces(s: bytes, length: nat)
    requires HEADER_LENGTH <= length <= |s|
    ensures s[..length] == [s[0], s[1]] + s[2..4] + s[4..6] + [s[6], s[7]] + s[HEADER_LENGTH..length]
    ensures s == s[..length] + s[length..]
  {
  }

  lemma SplitHeader(s: bytes, length: nat, p: Parcel)
    requires HEADER_LENGTH <= length <= |s|
    requires length == OfBe(s[2..4])
    requires p == Parcel(s[0], s[1], SpidOf(s), s[6], s[7], s[HEADER_LENGTH..length])
    ensures p.ToBytes() == s[..length]
    ensures s == p.ToBytes() + s[length..]
  {
    hide Be, OfBe;
    BeOfTwo(s[2..4]);
    BeOfTwo(s[4..6]);
    HeaderPieces(s, length);
  }

  // ----- Exactly what is accepted

  /** The reader answers with a message exactly when the bytes open with packets that are one. */
  lemma AcceptsExactly(s: bytes, ceiling: nat, kind: byte, payload: bytes, rest: bytes)
    ensures ReadMessage(s, ceiling) == Message(kind, payload, rest)
       <==> exists ps: seq<Parcel> :: IsMessage(ps, kind, ceiling) && s == Flat(ps) + rest && payload == Bodies(ps)
  {
    if ReadMessage(s, ceiling) == Message(kind, payload, rest) {
      var ps := ReadSound(s, ceiling, None, []);
      assert [] + Bodies(ps) == Bodies(ps);
      assert IsMessage(ps, kind, ceiling);
    }
    forall ps: seq<Parcel> | IsMessage(ps, kind, ceiling) && s == Flat(ps) + rest && payload == Bodies(ps)
      ensures ReadMessage(s, ceiling) == Message(kind, payload, rest)
    {
      ReadParcels(ps, kind, ceiling, None, [], rest);
      assert [] + Bodies(ps) == Bodies(ps);
    }
  }

  /** A message is read off the bytes it consumes alone. */
  lemma MessageLocal(s: bytes, ceiling: nat) returns (used: bytes)
    requires ReadMessage(s, ceiling).Message?
    ensures s == used + ReadMessage(s, ceiling).rest
    ensures |used| >= HEADER_LENGTH
    ensures forall t :: ReadMessage(used + t, ceiling) ==
                        Message(ReadMessage(s, ceiling).kind, ReadMessage(s, ceiling).payload, t)
  {
    var m := ReadMessage(s, ceiling);
    AcceptsExactly(s, ceiling, m.kind, m.payload, m.rest);
    var ps: seq<Parcel> :| IsMessage(ps, m.kind, ceiling) && s == Flat(ps) + m.rest && m.payload == Bodies(ps);
    used := Flat(ps);
    assert |ps[0].ToBytes()| >= HEADER_LENGTH;
    forall t ensures ReadMessage(used + t, ceiling) == Message(m.kind, m.payload, t) {
      AcceptsExactly(used + t, ceiling, m.kind, m.payload, t);
    }
  }

  /** No strict prefix of a message is read as a message; only the empty one is a clean close. */
  lemma PrefixRefused(s: bytes, ceiling: nat, k: nat)
    requires ReadMessage(s, ceiling).Message?
    requires k < |s| - |ReadMessage(s, ceiling).rest|
    ensures ReadMessage(s[..k], ceiling) == if k == 0 then Closed else Refused
  {
    if k > 0 {
      ClosedOnlyWhenEmpty(s[..k], ceiling, None, []);
      if ReadMessage(s[..k], ceiling).Message? {
        var short := MessageLocal(s[..k], ceiling);
        ReadsSame(s, s[..k], short, ceiling);
        assert false;
      }
    }
  }

  lemma ReadsSame(s: bytes, cut: bytes, short: bytes, ceiling: nat)
    requires |cut| <= |s| && cut == s[..|cut|] && |short| <= |cut| && short == cut[..|short|]
    requires forall t :: ReadMessage(short + t, ceiling).Message? && ReadMessage(short + t, ceiling).rest == t
    ensures ReadMessage(s, ceiling).Message? && |ReadMessage(s, ceiling).rest| == |s| - |short|
  {
    assert s == short + s[|short|..];
  }

  lemma {:induction false} ClosedOnlyWhenEmpty(s: bytes, ceiling: nat, kind: Option<byte>, payload: bytes)
    ensures ReadPackets(s, ceiling, kind, payload).Closed? <==> s == [] && kind.None?
    decreases |s|
  {
    if |s| >= HEADER_LENGTH {
      var length := OfBe(s[2..4]);
      if HEADER_LENGTH <= length <= |s| {
        ClosedOnlyWhenEmpty(s[length..], ceiling, Some(s[0]), payload + s[HEADER_LENGTH..length]);
      }
    }
  }

  // ----- What is written is read

  /** The packets a message is written in. */
  function Parcels(kind: byte, chunks: seq<bytes>, index: nat): (ps: seq<Parcel>)
    requires index <= |chunks|
    ensures |ps| == |chunks| - index
    decreases |chunks| - index
  {
    if index == |chunks| then []
    else
      [Parcel(kind, if index == |chunks| - 1 then END_OF_MESSAGE else 0, 0, index % 256, 0, chunks[index])]
      + Parcels(kind, chunks, index + 1)
  }

  lemma {:induction false} ParcelsAre(kind: byte, chunks: seq<bytes>, index: nat)
    requires index <= |chunks|
    requires forall i :: 0 <= i < |chunks| ==> |chunks[i]| <= MAX_PACKET_SIZE - HEADER_LENGTH
    ensures var ps := Parcels(kind, chunks, index);
            && Flat(ps) == PacketsFrom(kind, chunks, index)
            && Bodies(ps) == Concat(chunks[index..])
            && (forall i :: 0 <= i < |ps| ==>
                 ps[i].kind == kind && ps[i].body == chunks[index + i] && (ps[i].EndsMessage() <==> i == |ps| - 1))
    decreases |chunks| - index
  {
    var ps := Parcels(kind, chunks, index);
    if index < |chunks| {
      ParcelsAre(kind, chunks, index + 1);
      assert ps[1..] == Parcels(kind, chunks, index + 1);
      assert chunks[index..][1..] == chunks[index + 1..];
      assert ps[0].ToBytes() == Packet(kind, ps[0].status, chunks[index], index % 256);
      forall i | 0 < i < |ps| ensures ps[i] == ps[1..][i - 1] {}
    }
  }

  lemma SplitConcat(payload: bytes, packetSize: u16)
    ensures Concat(Split(payload, packetSize)) == payload
  {
    if |payload| > 0 {
      ChunksConcat(payload, Room(packetSize));
    } else {
      assert Concat([[]]) == [] + Concat([[]][1..]);
    }
  }

  /** A message written in packets of any size is read back whole, and nothing after it is touched. */
  lemma MessageBack(kind: byte, payload: bytes, packetSize: u16, ceiling: nat, t: bytes)
    requires IsPacketType(kind) && |payload| <= ceiling
    ensures ReadMessage(MessageBytes(kind, payload, packetSize) + t, ceiling) == Message(kind, payload, t)
  {
    hide ReadPackets, Chunks, PacketsFrom, Parcels, Flat, Bodies;
    var chunks := Split(payload, packetSize);
    var ps := Parcels(kind, chunks, 0);
    ParcelsAre(kind, chunks, 0);
    assert chunks[0..] == chunks;
    SplitConcat(payload, packetSize);
    forall p | p in ps ensures p.kind == kind && HEADER_LENGTH + |p.body| <= MAX_PACKET_SIZE {
      var i :| 0 <= i < |ps| && ps[i] == p;
    }
    ReadParcels(ps, kind, ceiling, None, [], t);
    assert [] + Bodies(ps) == payload;
  }

  /** Packet `i` of a message as it is written, its size the one settled but for the last. */
  ghost predicate IsWritten(ps: seq<Parcel>, i: nat, packetSize: u16)
    requires i < |ps|
  {
    var size := 8 + |ps[i].body|;
    var settled: int := if packetSize < 512 then 512 else if packetSize > 32767 then 32767 else packetSize;
    && ps[i].spid == 0 && ps[i].window == 0 && ps[i].id == i % 256
    && (i < |ps| - 1 ==> size == settled && ps[i].status == 0)
    && (i == |ps| - 1 ==> size <= settled && ps[i].status == 1)
    && (|ps| > 1 ==> |ps[i].body| > 0)
  }

  lemma {:induction false} ParcelAt(kind: byte, chunks: seq<bytes>, index: nat, i: nat)
    requires index + i < |chunks|
    ensures Parcels(kind, chunks, index)[i]
         == Parcel(kind, if index + i == |chunks| - 1 then END_OF_MESSAGE else 0, 0, (index + i) % 256, 0,
                   chunks[index + i])
    decreases i
  {
    var tail := Parcels(kind, chunks, index + 1);
    var first := Parcel(kind, if index == |chunks| - 1 then END_OF_MESSAGE else 0, 0, index % 256, 0, chunks[index]);
    assert Parcels(kind, chunks, index) == [first] + tail;
    hide Parcels;
    if i > 0 {
      ParcelAt(kind, chunks, index + 1, i - 1);
      assert index + 1 + (i - 1) == index + i;
    }
  }

  /**
   * A message is written as packets that carry its payload in order: numbered from zero, every
   * one but the last as long as was settled, and only the last marked.
   */
  lemma WrittenAs(kind: byte, payload: bytes, packetSize: u16)
    ensures exists ps: seq<Parcel> ::
              && MessageBytes(kind, payload, packetSize) == Flat(ps) && payload == Bodies(ps)
              && IsParcels(ps, kind)
              && forall i :: 0 <= i < |ps| ==> IsWritten(ps, i, packetSize)
  {
    hide Chunks, Flat, Bodies, PacketsFrom, Parcels;
    var chunks := Split(payload, packetSize);
    var ps := Parcels(kind, chunks, 0);
    ParcelsAre(kind, chunks, 0);
    SplitConcat(payload, packetSize);
    assert chunks[0..] == chunks;
    forall i | 0 <= i < |ps| ensures IsWritten(ps, i, packetSize) {
      ParcelAt(kind, chunks, 0, i);
    }
    forall p | p in ps ensures p.kind == kind && HEADER_LENGTH + |p.body| <= MAX_PACKET_SIZE {
      var i :| 0 <= i < |ps| && ps[i] == p;
    }
  }

  lemma MessageNotEmpty(kind: byte, payload: bytes, packetSize: u16)
    ensures |MessageBytes(kind, payload, packetSize)| >= HEADER_LENGTH
  {
    hide Chunks, Be;
    var chunks := Split(payload, packetSize);
    assert |PacketsFrom(kind, chunks, 0)| >= HEADER_LENGTH + |PacketsFrom(kind, chunks, 1)|;
  }

  /** A message cut anywhere inside is refused; cut before its first byte it is a clean close. */
  lemma CutMessageRefused(kind: byte, payload: bytes, packetSize: u16, ceiling: nat, k: nat)
    requires IsPacketType(kind) && |payload| <= ceiling
    requires k < |MessageBytes(kind, payload, packetSize)|
    ensures ReadMessage(MessageBytes(kind, payload, packetSize)[..k], ceiling) == if k == 0 then Closed else Refused
  {
    var s := MessageBytes(kind, payload, packetSize);
    MessageBack(kind, payload, packetSize, ceiling, []);
    assert s + [] == s;
    PrefixRefused(s, ceiling, k);
  }

  // ----- A stream of messages

  /** One message to be written, at a packet size of its own. */
  datatype Outgoing = Outgoing(kind: byte, payload: bytes, packetSize: u16)

  function StreamBytes(ms: seq<Outgoing>): bytes {
    if |ms| == 0 then [] else MessageBytes(ms[0].kind, ms[0].payload, ms[0].packetSize) + StreamBytes(ms[1..])
  }

  /** Reading message after message until the peer closes; none where one is refused. */
  function ReadStream(s: bytes, ceiling: nat): Option<seq<(byte, bytes)>>
    decreases |s|
  {
    match ReadMessage(s, ceiling)
    case Closed => Some([])
    case Refused => None
    case Message(kind, payload, rest) =>
      MessageShrinks(s, ceiling);
      match ReadStream(rest, ceiling)
      case None => None
      case Some(more) => Some([(kind, payload)] + more)
  }

  /** Every message read took at least a header, and its payload stayed within the ceiling. */
  lemma {:induction false} ReadShrinks(s: bytes, ceiling: nat, kind: Option<byte>, payload: bytes)
    requires ReadPackets(s, ceiling, kind, payload).Message?
    ensures var m := ReadPackets(s, ceiling, kind, payload);
            |m.payload| + |m.rest| + HEADER_LENGTH <= |payload| + |s| && |payload| <= |m.payload| <= ceiling
    decreases |s|
  {
    var p, rest := StepSound(s, ceiling, kind, payload);
    if !p.EndsMessage() {
      ReadShrinks(rest, ceiling, Some(p.kind), payload + p.body);
    }
  }

  /** Reading a message takes at least a header off the bytes and never more than the ceiling. */
  lemma MessageShrinks(s: bytes, ceiling: nat)
    requires ReadMessage(s, ceiling).Message?
    ensures |ReadMessage(s, ceiling).rest| + HEADER_LENGTH <= |s|
    ensures |ReadMessage(s, ceiling).payload| <= ceiling
  {
    ReadShrinks(s, ceiling, None, []);
  }

  function Sent(ms: seq<Outgoing>): seq<(byte, bytes)> {
    if |ms| == 0 then [] else [(ms[0].kind, ms[0].payload)] + Sent(ms[1..])
  }

  /** Any messages, each in packets of its own size, are read back in order and then the close is. */
  lemma {:induction false} StreamBack(ms: seq<Outgoing>, ceiling: nat)
    requires forall i :: 0 <= i < |ms| ==> IsPacketType(ms[i].kind) && |ms[i].payload| <= ceiling
    ensures ReadStream(StreamBytes(ms), ceiling) == Some(Sent(ms))
  {
    if |ms| > 0 {
      MessageBack(ms[0].kind, ms[0].payload, ms[0].packetSize, ceiling, StreamBytes(ms[1..]));
      StreamBack(ms[1..], ceiling);
    }
  }
}

/**
 * Messages as packets (section 2.2.3 of [MS-TDS]): what is written, what is read of any bytes,
 * and the counted strings inside a payload.
 */
module Wire {
  import opened Bytes
  import opened Cursors
  import opened Parsing
  import opened Text
  import opened Wrappers

  const SQL_BATCH: byte := 0x01
  const TABULAR_RESULT: byte := 0x04
  const LOGIN7: byte := 0x10
  const PRELOGIN: byte := 0x12
  const END_OF_MESSAGE: byte := 0x01
  const HEADER_LENGTH: nat := 8
  const DEFAULT_PACKET_SIZE: u16 := 4096
  const MIN_PACKET_SIZE: u16 := 512
  const MAX_PACKET_SIZE: u16 := 32767

  // ----- Writing a message

  function Packet(kind: byte, status: byte, payload: bytes, id: byte): bytes {
    [kind, status] + Be(Min(HEADER_LENGTH + |payload|, U16_MAX), 2) + Be(0, 2) + [id, 0] + payload
  }

  function Clamp(n: u16, low: u16, high: u16): (m: u16)
    requires low <= high
    ensures low <= m <= high
    ensures low <= n <= high ==> m == n
  {
    if n < low then low else if n > high then high else n
  }

  /** How much payload a packet of `packetSize` carries. */
  function Room(packetSize: u16): (n: nat)
    ensures 504 <= n <= MAX_PACKET_SIZE - HEADER_LENGTH
  {
    Clamp(packetSize, MIN_PACKET_SIZE, MAX_PACKET_SIZE) - HEADER_LENGTH
  }

  /** The bodies a payload is split into; an empty payload is one empty body. */
  function Split(payload: bytes, packetSize: u16): (chunks: seq<bytes>)
    ensures |chunks| > 0
    ensures forall i :: 0 <= i < |chunks| ==> |chunks[i]| <= Room(packetSize)
  {
    if |payload| == 0 then [[]] else Chunks(payload, Room(packetSize))
  }

  /** The packets for `chunks` from the one at `index` on. */
  function PacketsFrom(kind: byte, chunks: seq<bytes>, index: nat): bytes
    requires index <= |chunks|
    decreases |chunks| - index
  {
    if index == |chunks| then []
    else
      Packet(kind, if index == |chunks| - 1 then END_OF_MESSAGE else 0, chunks[index], index % 256)
      + PacketsFrom(kind, chunks, index + 1)
  }

  /** The packets of one message, one behind the other. */
  function MessageBytes(kind: byte, payload: bytes, packetSize: u16): bytes {
    PacketsFrom(kind, Split(payload, packetSize), 0)
  }

  /** Writes `MessageBytes` chunk by chunk. */
  method Packets(kind: byte, payload: bytes, packetSize: u16) returns (out: bytes)
    ensures out == MessageBytes(kind, payload, packetSize)
  {
    hide Packet;
    var room := Clamp(packetSize, MIN_PACKET_SIZE, MAX_PACKET_SIZE) - HEADER_LENGTH;
    var chunks := if |payload| == 0 then [[]] else Chunks(payload, room);
    var last := |chunks| - 1;
    out := [];
    for index := 0 to |chunks|
      invariant out + PacketsFrom(kind, chunks, index) == MessageBytes(kind, payload, packetSize)
    {
      var status := if index == last then END_OF_MESSAGE else 0;
      var id := index % 256;
      Assoc(out, Packet(kind, status, chunks[index], id), PacketsFrom(kind, chunks, index + 1));
      out := out + Packet(kind, status, chunks[index], id);
    }
  }

  // ----- Reading a message

  predicate IsPacketType(kind: byte) {
    kind in {0x01, 0x02, 0x03, 0x04, 0x06, 0x07, 0x08, 0x0E, 0x10, 0x11, 0x12}
  }

  /** What is at the front of a stream: its end, a whole message, or neither. */
  datatype Incoming = Closed | Message(kind: byte, payload: bytes, rest: bytes) | Refused

  /** The message `s` opens with, `ceiling` the most its packets may carry together. */
  function ReadMessage(s: bytes, ceiling: nat): Incoming {
    ReadPackets(s, ceiling, None, [])
  }

  /** What one packet makes of a message under way. */
  datatype Progress = Ends(incoming: Incoming) | Continues(kind: byte, payload: bytes, rest: bytes)

  /** One packet off `s`, the packets before it having had type `kind` and carried `payload`. */
  function ReadPacket(s: bytes, ceiling: nat, kind: Option<byte>, payload: bytes): (p: Progress)
    ensures p.Continues? ==> |p.rest| < |s|
  {
    if |s| == 0 then Ends(if kind.None? then Closed else Refused)
    else if |s| < HEADER_LENGTH then Ends(Refused)
    else if kind.None? && !IsPacketType(s[0]) then Ends(Refused)
    else if kind.Some? && kind.value != s[0] then Ends(Refused)
    else
      var length := OfBe(s[2..4]);
      if length > MAX_PACKET_SIZE || length < HEADER_LENGTH then Ends(Refused)
      else if |payload| + (length - HEADER_LENGTH) > ceiling then Ends(Refused)
      else if |s| < length then Ends(Refused)
      else
        var whole := payload + s[HEADER_LENGTH..length];
        if s[1] % 2 == 1 then Ends(Message(s[0], whole, s[length..]))
        else Continues(s[0], whole, s[length..])
  }

  /** The rest of a message whose packets so far had type `kind` and carried `payload`. */
  function ReadPackets(s: bytes, ceiling: nat, kind: Option<byte>, payload: bytes): Incoming
    decreases |s|
  {
    match ReadPacket(s, ceiling, kind, payload)
    case Ends(incoming) => incoming
    case Continues(k, whole, rest) => ReadPackets(rest, ceiling, Some(k), whole)
  }

  /** A byte stream and how far it has been read; its end is the peer's close. */
  class Reader {
    const stream: bytes
    var pos: nat

    ghost predicate Valid()
      reads this
    {
      pos <= |stream|
    }

    ghost function Rest(): (s: bytes)
      requires Valid()
      reads this
      ensures |s| == |stream| - pos
    {
      stream[pos..]
    }

    constructor (s: bytes)
      ensures Valid() && stream == s && Rest() == s
    {
      stream := s;
      pos := 0;
    }

    /** At most `n` bytes, none only at the end: here as many as there are. */
    method Read(n: nat) returns (got: bytes)
      requires Valid()
      modifies this
      ensures Valid()
      ensures got == old(Rest())[..Min(n, |old(Rest())|)]
      ensures Rest() == old(Rest())[Min(n, |old(Rest())|)..]
    {
      var end := Min(n, |stream| - pos);
      got := stream[pos..pos + end];
      pos := pos + end;
    }

    /** Exactly `n` bytes, or an error where the stream ends first. */
    method ReadExact(n: nat) returns (r: Result<bytes>)
      requires Valid()
      modifies this
      ensures Valid()
      ensures Follows(r, Rest(), Parsing.Take(n, old(Rest())))
    {
      var got := Read(n);
      r := if |got| == n then Ok(got) else Err;
    }
  }

  /** How a message that was read answers for `incoming`. */
  ghost predicate Delivers(r: Result<Option<(byte, bytes)>>, after: bytes, incoming: Incoming) {
    match incoming
    case Closed => r == Ok(None) && after == []
    case Refused => r.Err?
    case Message(kind, payload, rest) => r == Ok(Some((kind, payload))) && after == rest
  }

  /** What one packet makes of a message, told from its header and what is ahead of it. */
  lemma PacketByHeader(s: bytes, ceiling: nat, kind: Option<byte>, payload: bytes, header: bytes, ahead: bytes)
    requires |header| == HEADER_LENGTH && s == header + ahead
    ensures var length := OfBe(header[2..4]);
            var body := length - HEADER_LENGTH;
            ReadPacket(s, ceiling, kind, payload) ==
            if (if kind.None? then !IsPacketType(header[0]) else kind.value != header[0]) then Ends(Refused)
            else if length > MAX_PACKET_SIZE || length < HEADER_LENGTH then Ends(Refused)
            else if |payload| + body > ceiling || |ahead| < body then Ends(Refused)
            else if header[1] % 2 == 1 then Ends(Message(header[0], payload + ahead[..body], ahead[body..]))
            else Continues(header[0], payload + ahead[..body], ahead[body..])
  {
    hide OfBe, IsPacketType;
    assert s[2..4] == header[2..4];
    var length := OfBe(header[2..4]);
    if HEADER_LENGTH <= length <= |s| {
      assert s[HEADER_LENGTH..length] == ahead[..length - HEADER_LENGTH];
      assert s[length..] == ahead[length - HEADER_LENGTH..];
    }
  }

  lemma HeaderAhead(s: bytes)
    requires |s| >= HEADER_LENGTH
    ensures s == s[..1] + s[1..][..HEADER_LENGTH - 1] + s[1..][HEADER_LENGTH - 1..]
  {
  }

  lemma ShortPacket(s: bytes, ceiling: nat, kind: Option<byte>, payload: bytes)
    requires |s| < HEADER_LENGTH
    ensures ReadPacket(s, ceiling, kind, payload) == Ends(if s == [] && kind.None? then Closed else Refused)
  {
  }

  /** One whole message off the reader: its type and payload, or none where the stream has ended. */
  method ReceiveMessage(reader: Reader, ceiling: nat) returns (r: Result<Option<(byte, bytes)>>)
    requires reader.Valid()
    modifies reader
    ensures reader.Valid()
    ensures Delivers(r, reader.Rest(), ReadMessage(old(reader.Rest()), ceiling))
  {
    hide OfBe, ReadPacket, IsPacketType, Reader.Rest;
    var payload: bytes := [];
    var kind: Option<byte> := None;
    while true
      invariant reader.Valid()
      invariant ReadMessage(old(reader.Rest()), ceiling) == ReadPackets(reader.Rest(), ceiling, kind, payload)
      decreases |reader.Rest()|
    {
      ghost var s := reader.Rest();
      if |s| < HEADER_LENGTH {
        ShortPacket(s, ceiling, kind, payload);
      }
      var first := reader.Read(1);
      if |first| == 0 {
        return if kind.None? then Ok(None) else Err;
      }
      var tail :- reader.ReadExact(HEADER_LENGTH - 1);
      var header := first + tail;
      HeaderAhead(s);
      PacketByHeader(s, ceiling, kind, payload, header, reader.Rest());
      if kind.None? {
        if !IsPacketType(header[0]) {
          return Err;
        }
        kind := Some(header[0]);
      } else if kind.value != header[0] {
        return Err;
      }
      var length := OfBe(header[2..4]);
      if length > MAX_PACKET_SIZE {
        return Err;
      }
      if length < HEADER_LENGTH {
        return Err;
      }
      var body := length - HEADER_LENGTH;
      if |payload| + body > ceiling {
        return Err;
      }
      var more :- reader.ReadExact(body);
      payload := payload + more;
      if header[1] % 2 == 1 {
        return Ok(Some((kind.value, payload)));
      }
    }
  }

  // ----- Counted strings

  /** `text` in UTF-16, cut at `most` code units. */
  function Counted(text: string, most: nat): (s: bytes)
    ensures |s| == 2 * Min(|Units(text)|, most)
  {
    Utf16(text)[..2 * Min(|Units(text)|, most)]
  }

  /** A byte counting code units, then the text. */
  function BVarcharBytes(text: string): (s: bytes)
    ensures 1 <= |s| <= 511
  {
    var units := Counted(text, 0xFF);
    [|units| / 2] + units
  }

  /** A u16 counting code units, then the text. */
  function UsVarcharBytes(text: string): (s: bytes)
    ensures |s| == 2 + 2 * Min(|Units(text)|, U16_MAX)
  {
    var units := Counted(text, U16_MAX);
    Le(|units| / 2, 2) + units
  }

  function Ucs2(chars: nat, s: bytes): (p: Parse<string>)
    ensures p.Got? ==> |p.rest| <= |s|
  {
    var (b, rest) :- Take(2 * chars, s);
    Got(OfUtf16Lossy(b), rest)
  }

  function BVarchar(s: bytes): (p: Parse<string>)
    ensures p.Got? ==> |p.rest| <= |s|
  {
    var (chars, rest) :- Byte(s);
    Ucs2(chars, rest)
  }

  function UsVarchar(s: bytes): (p: Parse<string>)
    ensures p.Got? ==> |p.rest| <= |s|
  {
    var (chars, rest) :- U16Le(s);
    Ucs2(chars, rest)
  }

  method ReadUcs2(cursor: Cursor, chars: nat) returns (r: Result<string>)
    requires cursor.Valid()
    modifies cursor
    ensures cursor.Valid()
    ensures Follows(r, cursor.Rest(), Ucs2(chars, old(cursor.Rest())))
  {
    hide Cursor.Rest;
    var b :- cursor.Take(chars * 2);
    r := Ok(OfUtf16Lossy(b));
  }

  method ReadBVarchar(cursor: Cursor) returns (r: Result<string>)
    requires cursor.Valid()
    modifies cursor
    ensures cursor.Valid()
    ensures Follows(r, cursor.Rest(), BVarchar(old(cursor.Rest())))
  {
    hide Cursor.Rest;
    var chars :- cursor.Byte();
    r := ReadUcs2(cursor, chars);
  }

  method ReadUsVarchar(cursor: Cursor) returns (r: Result<string>)
    requires cursor.Valid()
    modifies cursor
    ensures cursor.Valid()
    ensures Follows(r, cursor.Rest(), UsVarchar(old(cursor.Rest())))
  {
    hide Cursor.Rest;
    var chars :- cursor.U16Le();
    r := ReadUcs2(cursor, chars);
  }

  /** What a counted string keeps of `text`: a surrogate pair cut in two leaves U+FFFD. */
  function Cut(text: string, most: nat): string {
    OfUnitsLossy(Units(text)[..Min(|Units(text)|, most)])
  }

  lemma CountedBack(text: string, most: nat, t: bytes)
    ensures Ucs2(|Counted(text, most)| / 2, Counted(text, most) + t) == Got(Cut(text, most), t)
  {
    var u := Units(text);
    var n := Min(|u|, most);
    UnitBytesCut(u, n);
    UnitBytesBack(u[..n]);
    assert (Counted(text, most) + t)[..2 * n] == Counted(text, most);
  }

  /** A counted string reads back cut at what its count can say, and leaves what follows alone. */
  lemma BVarcharBack(text: string, t: bytes)
    ensures BVarchar(BVarcharBytes(text) + t) == Got(Cut(text, 0xFF), t)
  {
    hide Ucs2, Counted, Cut;
    CountedBack(text, 0xFF, t);
    assert (BVarcharBytes(text) + t)[1..] == Counted(text, 0xFF) + t;
  }

  lemma UsVarcharBack(text: string, t: bytes)
    ensures UsVarchar(UsVarcharBytes(text) + t) == Got(Cut(text, U16_MAX), t)
  {
    hide Ucs2, Counted, Cut, U16Le, Le;
    var units := Counted(text, U16_MAX);
    CountedBack(text, U16_MAX, t);
    U16LeBack(|units| / 2, units + t);
    assert UsVarcharBytes(text) + t == Le(|units| / 2, 2) + (units + t);
  }

  lemma {:induction false} LossyKeepsLength(u: seq<u16>)
    ensures |Units(OfUnitsLossy(u))| == |u|
  {
    if |u| > 0 {
      var f := UnitsFront(u);
      LossyKeepsLength(u[f.used..]);
      assert OfUnitsLossy(u)[1..] == OfUnitsLossy(u[f.used..]);
    }
  }

  /** The cut leaves a text as it was exactly when the count can say its length. */
  lemma CutIsExact(text: string, most: nat)
    ensures Cut(text, most) == text <==> |Units(text)| <= most
  {
    var u := Units(text);
    if |u| <= most {
      assert u[..|u|] == u;
      UnitsBack(text);
    } else {
      LossyKeepsLength(u[..most]);
    }
  }
}

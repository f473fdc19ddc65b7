/** A SQL batch: ALL_HEADERS, then the SQL in UTF-16 (section 2.2.6.7 of [MS-TDS]). */
module Batch {
  import opened Bytes
  import opened Cursors
  import opened Parsing
  import opened Text
  import opened Wrappers

  const TRANSACTION_HEADER: u16 := 0x0002
  const HEADERS_LENGTH: u32 := 22

  /** The header block `BatchBytes` opens with, which says its own length. */
  function HeaderBytes(): (s: bytes)
    ensures |s| == HEADERS_LENGTH
  {
    Le(HEADERS_LENGTH, 4) + Le(HEADERS_LENGTH - 4, 4) + Le(TRANSACTION_HEADER, 2) + Le(0, 8) + Le(1, 4)
  }

  function BatchBytes(sql: string): bytes {
    HeaderBytes() + Utf16(sql)
  }

  /** The UTF-16 text behind a header block that says its own length, or none. */
  function BatchText(body: bytes): Option<string> {
    match U32Le(body)
    case Bad => None
    case Got(total, s1) => if total < 4 || total - 4 > |s1| then None else OfUtf16(s1[total - 4..])
  }

  method EncodeBatch(sql: string) returns (out: bytes)
    ensures out == BatchBytes(sql)
  {
    out := Le(HEADERS_LENGTH, 4);
    out := out + Le(HEADERS_LENGTH - 4, 4);
    out := out + Le(TRANSACTION_HEADER, 2);
    out := out + Le(0, 8);
    out := out + Le(1, 4);
    out := out + Utf16(sql);
  }

  method ReadBatch(body: bytes) returns (r: Result<string>)
    ensures r == match BatchText(body) case None => Err case Some(sql) => Ok(sql)
  {
    hide U32Le, OfUtf16, Cursor.Rest;
    var cursor := new Cursor(body);
    var total :- cursor.U32Le();
    if total < 4 {
      return Err;
    }
    var _ :- cursor.Skip(total - 4);
    var rest := cursor.Remaining();
    var text := OfUtf16(rest);
    r := if text.None? then Err else Ok(text.value);
  }

  /** A payload is a batch of `sql` exactly when a header block that says its own length stands before its UTF-16. */
  lemma BatchExactly(body: bytes, sql: string)
    ensures BatchText(body) == Some(sql) <==>
            |body| >= 4 && 4 <= OfLe(body[..4]) <= |body| && body[OfLe(body[..4])..] == Utf16(sql)
  {
    hide OfLe, OfUtf16, Utf16;
    if |body| >= 4 {
      var total := OfLe(body[..4]);
      if 4 <= total <= |body| {
        assert body[4..][total - 4..] == body[total..];
        OfUtf16Exactly(body[total..], sql);
      }
    }
  }

  /** What stands in a header block does not matter as long as it says its own length. */
  lemma HeadersIgnored(headers: bytes, text: bytes)
    requires 4 <= |headers| == OfLe(headers[..4])
    ensures BatchText(headers + text) == OfUtf16(text)
  {
    hide OfLe, OfUtf16;
    var body := headers + text;
    assert body[..4] == headers[..4];
    assert body[4..][|headers| - 4..] == text;
  }

  /** Every batch is read back as the SQL it was written for. */
  lemma BatchBack(sql: string)
    ensures BatchText(BatchBytes(sql)) == Some(sql)
  {
    hide OfUtf16, Utf16;
    PowValues();
    LeRoundTrip(HEADERS_LENGTH, 4);
    assert HeaderBytes()[..4] == Le(HEADERS_LENGTH, 4);
    HeadersIgnored(HeaderBytes(), Utf16(sql));
    Utf16Back(sql);
  }
}

/** The byte cursor a payload is read through and the growing buffer one is written into. */
module Cursors {
  import opened Bytes
  import opened Parsing
  import opened Wrappers

  /** A fallible read did what `spec` says of the bytes that were ahead of it. */
  ghost predicate Follows<T>(r: Result<T>, after: bytes, spec: Parse<T>) {
    match spec
    case Bad => r.Err?
    case Got(v, rest) => r == Ok(v) && after == rest
  }

  /** A position in a body. A read past the end is an error; where that leaves the position nobody looks. */
  class Cursor {
    const body: bytes
    var pos: nat

    ghost predicate Valid()
      reads this
    {
      pos <= |body|
    }

    ghost function Rest(): (s: bytes)
      requires Valid()
      reads this
      ensures |s| == |body| - pos
    {
      body[pos..]
    }

    constructor (b: bytes)
      ensures Valid() && body == b && Rest() == b
    {
      body := b;
      pos := 0;
    }

    method IsEmpty() returns (empty: bool)
      requires Valid()
      ensures empty <==> Rest() == []
    {
      empty := pos == |body|;
    }

    method Remaining() returns (s: bytes)
      requires Valid()
      ensures s == Rest()
    {
      s := body[pos..];
    }

    method Take(n: nat) returns (r: Result<bytes>)
      requires Valid()
      modifies this
      ensures Valid()
      ensures Follows(r, Rest(), Parsing.Take(n, old(Rest())))
    {
      if n > |body| - pos {
        return Err;
      }
      r := Ok(body[pos..pos + n]);
      assert r.value == Rest()[..n];
      pos := pos + n;
      assert body[pos..] == old(Rest())[n..];
    }

    method Skip(n: nat) returns (r: Result<()>)
      requires Valid()
      modifies this
      ensures Valid()
      ensures Follows(r, Rest(), Parsing.Skip(n, old(Rest())))
    {
      var _ :- Take(n);
      r := Ok(());
    }

    method Byte() returns (r: Result<byte>)
      requires Valid()
      modifies this
      ensures Valid()
      ensures Follows(r, Rest(), Parsing.Byte(old(Rest())))
    {
      var b :- Take(1);
      r := Ok(b[0]);
    }

    method U16Le() returns (r: Result<u16>)
      requires Valid()
      modifies this
      ensures Valid()
      ensures Follows(r, Rest(), Parsing.U16Le(old(Rest())))
    {
      PowValues();
      var b :- Take(2);
      r := Ok(OfLe(b));
    }

    method U16Be() returns (r: Result<u16>)
      requires Valid()
      modifies this
      ensures Valid()
      ensures Follows(r, Rest(), Parsing.U16Be(old(Rest())))
    {
      PowValues();
      var b :- Take(2);
      r := Ok(OfBe(b));
    }

    method U32Le() returns (r: Result<u32>)
      requires Valid()
      modifies this
      ensures Valid()
      ensures Follows(r, Rest(), Parsing.U32Le(old(Rest())))
    {
      PowValues();
      var b :- Take(4);
      r := Ok(OfLe(b));
    }

    method U32Be() returns (r: Result<u32>)
      requires Valid()
      modifies this
      ensures Valid()
      ensures Follows(r, Rest(), Parsing.U32Be(old(Rest())))
    {
      PowValues();
      var b :- Take(4);
      r := Ok(OfBe(b));
    }

    method U64Le() returns (r: Result<u64>)
      requires Valid()
      modifies this
      ensures Valid()
      ensures Follows(r, Rest(), Parsing.U64Le(old(Rest())))
    {
      PowValues();
      var b :- Take(8);
      r := Ok(OfLe(b));
    }

    method I32Le() returns (r: Result<i32>)
      requires Valid()
      modifies this
      ensures Valid()
      ensures Follows(r, Rest(), Parsing.I32Le(old(Rest())))
    {
      PowValues();
      var b :- Take(4);
      r := Ok(Signed(OfLe(b), 4));
    }
  }

  /** The buffer writers append to. */
  class ByteWriter {
    var out: bytes

    constructor ()
      ensures out == []
    {
      out := [];
    }

    method Append(s: bytes)
      modifies this
      ensures out == old(out) + s
    {
      out := out + s;
    }
  }
}

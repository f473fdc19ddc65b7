/** Pieces laid end to end behind a head: where each begins, and that it is there. */
module Tiling {
  import opened Bytes

  /** How many bytes the pieces before piece `i` take. */
  function Before(pieces: seq<bytes>, i: nat): nat
    requires i <= |pieces|
  {
    if i == 0 then 0 else Before(pieces, i - 1) + |pieces[i - 1]|
  }

  lemma {:induction false} ConcatAppend(a: seq<bytes>, b: seq<bytes>)
    ensures Concat(a + b) == Concat(a) + Concat(b)
  {
    if |a| == 0 {
      assert a + b == b;
    } else {
      ConcatAppend(a[1..], b);
      assert (a + b)[1..] == a[1..] + b;
      assert Concat(a + b) == a[0] + (Concat(a[1..]) + Concat(b));
    }
  }

  lemma {:induction false} BeforeIs(pieces: seq<bytes>, i: nat)
    requires i <= |pieces|
    ensures Before(pieces, i) == |Concat(pieces[..i])|
  {
    if i > 0 {
      BeforeIs(pieces, i - 1);
      assert pieces[..i] == pieces[..i - 1] + [pieces[i - 1]];
      ConcatSnoc(pieces[..i - 1], pieces[i - 1]);
    }
  }

  lemma {:induction false} BeforeGrows(pieces: seq<bytes>, i: nat, j: nat)
    requires i <= j <= |pieces|
    ensures Before(pieces, i) <= Before(pieces, j)
    decreases j
  {
    if i < j {
      BeforeGrows(pieces, i, j - 1);
    }
  }

  lemma {:induction false} ShiftBefore(pieces: seq<bytes>, i: nat)
    requires 0 < i <= |pieces|
    ensures Before(pieces, i) == |pieces[0]| + Before(pieces[1..], i - 1)
  {
    if i > 1 {
      ShiftBefore(pieces, i - 1);
    }
  }

  lemma PieceInside(head: bytes, a: bytes, b: bytes, c: bytes)
    ensures |head| + |a| + |b| <= |head + (a + b + c)|
    ensures (head + (a + b + c))[|head| + |a|..|head| + |a| + |b|] == b
  {
    var s := a + b + c;
    assert (head + s)[|head|..] == s;
    assert s[|a|..|a| + |b|] == b;
  }

  lemma ConcatAt(pieces: seq<bytes>, i: nat)
    requires i < |pieces|
    ensures Concat(pieces) == Concat(pieces[..i]) + pieces[i] + Concat(pieces[i + 1..])
  {
    assert pieces == pieces[..i] + pieces[i..];
    ConcatAppend(pieces[..i], pieces[i..]);
    assert pieces[i..][1..] == pieces[i + 1..];
  }

  /** Behind any head, piece `i` is where the pieces before it end. */
  lemma FieldAt(head: bytes, pieces: seq<bytes>, i: nat)
    requires i < |pieces|
    ensures var s := head + Concat(pieces); var at := |head| + Before(pieces, i);
            at + |pieces[i]| <= |s| && s[at..at + |pieces[i]|] == pieces[i]
  {
    hide Concat, Before;
    BeforeIs(pieces, i);
    ConcatAt(pieces, i);
    PieceInside(head, Concat(pieces[..i]), pieces[i], Concat(pieces[i + 1..]));
  }

  /** Where piece `i` ends the next begins, and none reaches past the end. */
  lemma FieldFits(pieces: seq<bytes>, i: nat)
    requires i < |pieces|
    ensures Before(pieces, i) + |pieces[i]| == Before(pieces, i + 1) <= Before(pieces, |pieces|)
  {
    BeforeGrows(pieces, i + 1, |pieces|);
  }
}

/** NBCROW: the null cells of a row are left out and marked ahead of it. */
module NullRows {
  import opened Bits
  import opened Bytes
  import opened Column
  import opened Dialect
  import opened Parsing
  import opened Streams
  import opened Token
  import opened Values
  import opened Wrappers

  /**
   * A bitmap as the format has it: bytes for at least so many bits, and no byte more, the bit of
   * a cell, counted from the lowest of the first byte, set exactly where the cell is null.
   */
  ghost predicate Marks(bitmap: bytes, values: seq<Cell>) {
    && |values| <= 8 * |bitmap| < |values| + 8
    && forall i :: 0 <= i < |values| ==> (bitmap[i / 8] / Pow2(i % 8) % 2 == 1 <==> values[i].None?)
  }

  /** The same, in the reader's terms. */
  ghost predicate IsMarked(bitmap: bytes, values: seq<Cell>) {
    && |bitmap| == BitmapLength(|values|)
    && forall i :: 0 <= i < |values| ==> (IsNull(bitmap, i) <==> values[i].None?)
  }

  lemma MarksExactly(bitmap: bytes, values: seq<Cell>)
    ensures Marks(bitmap, values) <==> IsMarked(bitmap, values)
  {
    hide Bit, Pow2;
    if |values| <= 8 * |bitmap| < |values| + 8 {
      forall i | 0 <= i < |values| ensures IsNull(bitmap, i) <==> bitmap[i / 8] / Pow2(i % 8) % 2 == 1 {
        BitIs(bitmap[i / 8], i % 8);
      }
    }
  }

  /** The cells from `index` on that are not null. */
  function PresentBytes(d: Dialect, columns: seq<Column>, values: seq<Cell>, index: nat): bytes
    requires index <= |columns| == |values|
    decreases |columns| - index
  {
    if index == |columns| then []
    else
      (if values[index].None? then [] else ValueBytes(d, columns[index].kind, values[index]))
      + PresentBytes(d, columns, values, index + 1)
  }

  function NullRowBytes(d: Dialect, columns: seq<Column>, bitmap: bytes, values: seq<Cell>): bytes
    requires |columns| == |values|
  {
    [NBCROW] + bitmap + PresentBytes(d, columns, values, 0)
  }

  /** A cell as it is read off a null-bitmap row: null stays null in every type. */
  function NormalOrNull(d: Dialect, kind: ColumnType, value: Cell): Cell {
    if value.None? then None else Normal(d, kind, value)
  }

  function NormalFrom(d: Dialect, columns: seq<Column>, values: seq<Cell>, index: nat): (r: seq<Cell>)
    requires index <= |columns| == |values|
    ensures |r| == |columns| - index
    ensures forall i :: 0 <= i < |r| ==> r[i] == NormalOrNull(d, columns[index + i].kind, values[index + i])
    decreases |columns| - index
  {
    if index == |columns| then []
    else [NormalOrNull(d, columns[index].kind, values[index])] + NormalFrom(d, columns, values, index + 1)
  }

  ghost predicate PresentEncode(d: Dialect, columns: seq<Column>, values: seq<Cell>)
    requires |columns| == |values|
  {
    forall i :: 0 <= i < |columns| && values[i].Some? ==> Encodable(d, columns[i].kind, values[i])
  }

  lemma {:induction false} BitmapCellsBack(
    d: Dialect, columns: seq<Column>, bitmap: bytes, values: seq<Cell>, index: nat, t: bytes)
    requires index <= |columns| == |values|
    requires IsMarked(bitmap, values) && PresentEncode(d, columns, values)
    ensures BitmapCells(d, columns, bitmap, index, PresentBytes(d, columns, values, index) + t)
         == Got(NormalFrom(d, columns, values, index), t)
    decreases |columns| - index
  {
    hide Value, ValueBytes, Normal, Encodable, IsNull;
    if index == |columns| {
      assert PresentBytes(d, columns, values, index) + t == t;
    } else {
      var s1 := PresentBytes(d, columns, values, index + 1) + t;
      BitmapCellsBack(d, columns, bitmap, values, index + 1, t);
      if values[index].None? {
        assert PresentBytes(d, columns, values, index) + t == s1;
      } else {
        ValueBack(d, columns[index].kind, values[index], s1);
        assert PresentBytes(d, columns, values, index) + t == ValueBytes(d, columns[index].kind, values[index]) + s1;
      }
    }
  }

  lemma BitmapRowBack(d: Dialect, columns: seq<Column>, bitmap: bytes, values: seq<Cell>, t: bytes)
    requires |columns| == |values|
    requires IsMarked(bitmap, values) && PresentEncode(d, columns, values)
    ensures BitmapRow(d, columns, bitmap + PresentBytes(d, columns, values, 0) + t)
         == Got(NormalFrom(d, columns, values, 0), t)
  {
    hide BitmapCells, PresentBytes, NormalFrom, PresentEncode;
    var present := PresentBytes(d, columns, values, 0);
    BitmapCellsBack(d, columns, bitmap, values, 0, t);
    var s := bitmap + present + t;
    assert s[..|bitmap|] == bitmap && s[|bitmap|..] == present + t;
  }

  /** A null-bitmap row reads as the row it stands for, the nulls of fixed-width columns included. */
  lemma NullRowBack(d: Dialect, columns: seq<Column>, bitmap: bytes, values: seq<Cell>, t: bytes)
    requires |columns| == |values|
    requires Marks(bitmap, values) && PresentEncode(d, columns, values)
    ensures NextToken(d, columns, NullRowBytes(d, columns, bitmap, values) + t)
         == Got(Reading(Row(NormalFrom(d, columns, values, 0)), columns), t)
  {
    hide BitmapRow, PresentBytes, NormalFrom, PresentEncode, Marks, IsMarked;
    MarksExactly(bitmap, values);
    BitmapRowBack(d, columns, bitmap, values, t);
    var s1 := bitmap + PresentBytes(d, columns, values, 0) + t;
    assert NullRowBytes(d, columns, bitmap, values) + t == [NBCROW] + s1;
    assert ([NBCROW] + s1)[1..] == s1;
  }

  /** Where the cells that are there are canonical the row comes back as it went. */
  lemma NullRowKept(d: Dialect, columns: seq<Column>, bitmap: bytes, values: seq<Cell>, t: bytes)
    requires |columns| == |values| && Invertible(d, columns)
    requires Marks(bitmap, values) && PresentEncode(d, columns, values)
    requires forall i :: 0 <= i < |columns| && values[i].Some? ==> Canonical(d, columns[i].kind, values[i])
    ensures NextToken(d, columns, NullRowBytes(d, columns, bitmap, values) + t)
         == Got(Reading(Row(values), columns), t)
  {
    hide NextToken, Marks, NullRowBytes, Canonical, Normal;
    NullRowBack(d, columns, bitmap, values, t);
    var read := NormalFrom(d, columns, values, 0);
    forall i | 0 <= i < |read| ensures read[i] == values[i] {
      if values[i].Some? {
        assert Encodable(d, columns[i].kind, values[i]);
        NormalExactly(d, columns[i].kind, values[i]);
      }
    }
    assert read == values;
  }

  predicate HasNull(kind: ColumnType) {
    !(kind.Int? || kind.BigInt? || kind.BitType?)
  }

  lemma {:induction false} PresentByKinds(d: Dialect, columns: seq<Column>, values: seq<Cell>, index: nat)
    requires index <= |columns| == |values|
    ensures PresentBytes(d, NormalColumns(columns), values, index) == PresentBytes(d, columns, values, index)
    decreases |columns| - index
  {
    hide ValueBytes, NormalColumns;
    if index < |columns| {
      assert NormalColumns(columns)[index].kind == columns[index].kind;
      PresentByKinds(d, columns, values, index + 1);
    }
  }

  /** A cell has one normal form in both forms of a row unless it is a null its column has no form for. */
  lemma CellFormsAgree(d: Dialect, kind: ColumnType, value: Cell)
    ensures NormalOrNull(d, kind, value) == Normal(d, kind, value) <==> HasNull(kind) || value.Some?
  {
  }

  lemma CellsFormsAgree(d: Dialect, columns: seq<Column>, values: seq<Cell>)
    requires |columns| == |values|
    ensures NormalFrom(d, NormalColumns(columns), values, 0) == NormalCells(d, columns, values)
       <==> forall i :: 0 <= i < |columns| && values[i].None? ==> HasNull(columns[i].kind)
  {
    hide Normal, NormalOrNull, HasNull;
    var a, b := NormalFrom(d, NormalColumns(columns), values, 0), NormalCells(d, columns, values);
    forall i | 0 <= i < |columns| ensures a[i] == b[i] <==> HasNull(columns[i].kind) || values[i].Some? {
      assert NormalColumns(columns)[i].kind == columns[i].kind;
      CellFormsAgree(d, columns[i].kind, values[i]);
    }
  }

  /**
   * The two forms of a row, read by columns of the same types, give the same token exactly when
   * no null of the row stands in a fixed-width column.
   */
  lemma FormsAgree(d: Dialect, columns: seq<Column>, bitmap: bytes, values: seq<Cell>, t: bytes)
    requires |columns| == |values|
    requires Marks(bitmap, values) && CellsEncode(d, columns, values)
    ensures NextToken(d, NormalColumns(columns), NullRowBytes(d, columns, bitmap, values) + t)
         == NextToken(d, NormalColumns(columns), TokenBytes(d, columns, Row(values)) + t)
       <==> forall i :: 0 <= i < |columns| && values[i].None? ==> HasNull(columns[i].kind)
  {
    hide NextToken, TokenBytes, PresentBytes, HasNull, Encodable, Marks, NormalCells, NormalFrom;
    var read := NormalColumns(columns);
    PresentByKinds(d, columns, values, 0);
    assert PresentEncode(d, read, values) by {
      forall i | 0 <= i < |read| ensures Encodable(d, read[i].kind, values[i]) {
        assert Encodable(d, columns[i].kind, values[i]);
      }
    }
    NullRowBack(d, read, bitmap, values, t);
    RowTokenBack(d, columns, values, t);
    CellsFormsAgree(d, columns, values);
  }

  // ----- A bitmap there is

  function Mark(values: seq<Cell>, i: nat): (b: nat)
    ensures b <= 1
    ensures i < |values| ==> (b == 1 <==> values[i].None?)
  {
    if i < |values| && values[i].None? then 1 else 0
  }

  function MarkByte(values: seq<Cell>, from: nat): byte {
    Mark(values, from) + 2 * Mark(values, from + 1) + 4 * Mark(values, from + 2) + 8 * Mark(values, from + 3)
    + 16 * Mark(values, from + 4) + 32 * Mark(values, from + 5) + 64 * Mark(values, from + 6)
    + 128 * Mark(values, from + 7)
  }

  /** The bitmap of a row, its spare bits clear. */
  function BitmapOf(values: seq<Cell>): (bitmap: bytes)
    ensures |bitmap| == BitmapLength(|values|)
  {
    seq(BitmapLength(|values|), j requires j >= 0 => MarkByte(values, 8 * j))
  }

  lemma MarkByteBits(values: seq<Cell>, from: nat, i: nat)
    requires i < 8
    ensures Bit(MarkByte(values, from), i) <==> Mark(values, from + i) == 1
  {
    var n := MarkByte(values, from);
    var b0, b1, b2, b3 := Mark(values, from), Mark(values, from + 1), Mark(values, from + 2), Mark(values, from + 3);
    var b4, b5 := Mark(values, from + 4), Mark(values, from + 5);
    var b6, b7 := Mark(values, from + 6), Mark(values, from + 7);
    var high := b4 + 2 * b5 + 4 * b6 + 8 * b7;
    assert n == b0 + 2 * b1 + 4 * b2 + 8 * b3 + 16 * high;
    hide Mark, MarkByte;
    LowFour(n, b0, b1, b2, b3, high);
    HighFour(n, b4, b5, b6, b7);
  }

  /** Every row has a bitmap that marks its nulls. */
  lemma BitmapMarks(values: seq<Cell>)
    ensures Marks(BitmapOf(values), values)
  {
    hide Mark, MarkByte, Bit;
    MarksExactly(BitmapOf(values), values);
    forall i | 0 <= i < |values| ensures IsNull(BitmapOf(values), i) <==> values[i].None? {
      MarkByteBits(values, 8 * (i / 8), i % 8);
      assert 8 * (i / 8) + i % 8 == i;
    }
  }
}

/// Structural edits at the value level: splicing a size in or out of a size
/// list, and the table that inserting or removing a row or column leaves once
/// indices are re-stamped and every merge is cleared.

module Structure {
  import opened Cells

  /** `s` with `v` spliced in at index `i`. */
  function Inserted<T>(s: seq<T>, i: int, v: T): (t: seq<T>)
    requires 0 <= i <= |s|
    ensures |t| == |s| + 1 && t[i] == v
    ensures forall k :: 0 <= k < i ==> t[k] == s[k]
    ensures forall k :: i < k < |t| ==> t[k] == s[k - 1]
  {
    s[..i] + [v] + s[i..]
  }

  /** `s` with the element at index `i` spliced out. */
  function Removed<T>(s: seq<T>, i: int): (t: seq<T>)
    requires 0 <= i < |s|
    ensures |t| == |s| - 1
    ensures forall k :: 0 <= k < i ==> t[k] == s[k]
    ensures forall k :: i <= k < |t| ==> t[k] == s[k + 1]
  {
    s[..i] + s[i + 1..]
  }

  /** Splicing out what was spliced in gives the list back. */
  lemma {:induction false} RemoveInserted<T>(s: seq<T>, i: int, v: T)
    requires 0 <= i <= |s|
    ensures Removed(Inserted(s, i, v), i) == s
  {
    var t := Removed(Inserted(s, i, v), i);
    assert forall k :: 0 <= k < |s| ==> t[k] == s[k];
  }

  /** Re-stamping row indices: every cell's `r` set to its row. */
  function RowsStamped(d: Table): (e: Table)
    ensures |e| == |d| && forall a :: 0 <= a < |d| ==> |e[a]| == |d[a]|
  {
    seq(|d|, a requires 0 <= a < |d| => seq(|d[a]|, b requires 0 <= b < |d[a]| => d[a][b].(r := a)))
  }

  /** Re-stamping column indices: every cell's `c` set to its column. */
  function ColsStamped(d: Table): (e: Table)
    ensures |e| == |d| && forall a :: 0 <= a < |d| ==> |e[a]| == |d[a]|
  {
    seq(|d|, a requires 0 <= a < |d| => seq(|d[a]|, b requires 0 <= b < |d[a]| => d[a][b].(c := b)))
  }

  /** A cell turned into a visible single cell anchored at (a, b), keeping
      its text and style. */
  function Normalized(cell: Cell, a: int, b: int): Cell
  {
    cell.(r := a, c := b, rowspan := 1, colspan := 1, hidden := false)
  }

  /** The empty cell a new row or column starts with. */
  function BlankCell(a: int, b: int, st: Style): Cell
  {
    Cell(a, b, 1, 1, false, "", st)
  }

  /** The row of blank cells a row insertion at `i` splices in. */
  function BlankRow(i: int, cols: nat, st: Style): (row: seq<Cell>)
    ensures |row| == cols
  {
    seq(cols, b requires 0 <= b < cols => BlankCell(i, b, st))
  }

  /** Every row with a blank cell spliced in at column `i`. */
  function ColSpliced(d: Table, i: int, cols: int, st: Style): (e: Table)
    requires 0 <= i <= cols && Shaped(d, |d|, cols)
    ensures Shaped(e, |d|, cols + 1)
  {
    seq(|d|, a requires 0 <= a < |d| => Inserted(d[a], i, BlankCell(a, i, st)))
  }

  /** Every row with its cell at column `i` spliced out. */
  function ColCut(d: Table, i: int, cols: int): (e: Table)
    requires 0 <= i < cols && Shaped(d, |d|, cols)
    ensures Shaped(e, |d|, cols - 1)
  {
    seq(|d|, a requires 0 <= a < |d| => Removed(d[a], i))
  }

  /** The table after inserting a row at `i`: blank cells in the new row,
      the old rows in their old order around it, all stamped and unmerged. */
  function RowInserted(d: Table, i: int, cols: int, st: Style): (e: Table)
    requires 0 <= i <= |d| && cols >= 0 && Shaped(d, |d|, cols)
    ensures Shaped(e, |d| + 1, cols)
  {
    seq(|d| + 1, a requires 0 <= a <= |d| =>
      seq(cols, b requires 0 <= b < cols =>
        if a < i then Normalized(d[a][b], a, b)
        else if a == i then BlankCell(a, b, st)
        else Normalized(d[a - 1][b], a, b)))
  }

  /** The table after inserting a column at `i`. */
  function ColInserted(d: Table, i: int, cols: int, st: Style): (e: Table)
    requires 0 <= i <= cols && Shaped(d, |d|, cols)
    ensures Shaped(e, |d|, cols + 1)
  {
    seq(|d|, a requires 0 <= a < |d| =>
      seq(cols + 1, b requires 0 <= b <= cols =>
        if b < i then Normalized(d[a][b], a, b)
        else if b == i then BlankCell(a, b, st)
        else Normalized(d[a][b - 1], a, b)))
  }

  /** The table after removing row `i`. */
  function RowRemoved(d: Table, i: int, cols: int): (e: Table)
    requires 0 <= i < |d| && cols >= 0 && Shaped(d, |d|, cols)
    ensures Shaped(e, |d| - 1, cols)
  {
    seq(|d| - 1, a requires 0 <= a < |d| - 1 =>
      seq(cols, b requires 0 <= b < cols =>
        if a < i then Normalized(d[a][b], a, b) else Normalized(d[a + 1][b], a, b)))
  }

  /** The table after removing column `i`. */
  function ColRemoved(d: Table, i: int, cols: int): (e: Table)
    requires 0 <= i < cols && Shaped(d, |d|, cols)
    ensures Shaped(e, |d|, cols - 1)
  {
    seq(|d|, a requires 0 <= a < |d| =>
      seq(cols - 1, b requires 0 <= b < cols - 1 =>
        if b < i then Normalized(d[a][b], a, b) else Normalized(d[a][b + 1], a, b)))
  }

  // ---------------------------------------------------------------------
  // The splice, re-stamp and reset steps compose to these tables

  lemma {:induction false} RowInsertSteps(d: Table, i: int, cols: int, st: Style)
    requires 0 <= i <= |d| && cols >= 0 && Shaped(d, |d|, cols) && Stamped(d)
    ensures Cleared(RowsStamped(Inserted(d, i, BlankRow(i, cols, st))), Whole(|d| + 1, cols)) == RowInserted(d, i, cols, st)
  {
    var newRow := BlankRow(i, cols, st);
    var lhs := Cleared(RowsStamped(Inserted(d, i, newRow)), Whole(|d| + 1, cols));
    var rhs := RowInserted(d, i, cols, st);
    forall a | 0 <= a <= |d|
      ensures lhs[a] == rhs[a]
    {
      RowInsertStepsRow(d, i, cols, st, a);
    }
  }

  lemma {:induction false} RowInsertStepsRow(d: Table, i: int, cols: int, st: Style, a: int)
    requires 0 <= i <= |d| && cols >= 0 && Shaped(d, |d|, cols) && Stamped(d)
    requires 0 <= a <= |d|
    ensures Cleared(RowsStamped(Inserted(d, i, BlankRow(i, cols, st))), Whole(|d| + 1, cols))[a] == RowInserted(d, i, cols, st)[a]
  {
    var newRow := BlankRow(i, cols, st);
    var spliced := Inserted(d, i, newRow);
    var stamped := RowsStamped(spliced);
    var lhs := Cleared(stamped, Whole(|d| + 1, cols));
    var rhs := RowInserted(d, i, cols, st);
    var old_row := if a < i then d[a] else if a == i then newRow else d[a - 1];
    assert spliced[a] == old_row;
    assert |old_row| == cols;
    forall b | 0 <= b < cols
      ensures lhs[a][b] == rhs[a][b]
    {
      assert lhs[a][b] == Unmerged(stamped[a][b]);
      assert stamped[a][b] == old_row[b].(r := a);
      assert rhs[a][b] == (if a < i then Normalized(d[a][b], a, b) else if a == i then BlankCell(a, b, st) else Normalized(d[a - 1][b], a, b));
      if a < i {
        assert InTable(d, a, b);
      } else if a > i {
        assert InTable(d, a - 1, b);
      }
    }
  }

  lemma {:induction false} ColInsertSteps(d: Table, i: int, cols: int, st: Style)
    requires 0 <= i <= cols && Shaped(d, |d|, cols) && Stamped(d)
    ensures Cleared(ColsStamped(ColSpliced(d, i, cols, st)), Whole(|d|, cols + 1)) == ColInserted(d, i, cols, st)
  {
    var spliced := ColSpliced(d, i, cols, st);
    var stamped := ColsStamped(spliced);
    var lhs := Cleared(stamped, Whole(|d|, cols + 1));
    var rhs := ColInserted(d, i, cols, st);
    forall a | 0 <= a < |d|
      ensures lhs[a] == rhs[a]
    {
      assert spliced[a] == Inserted(d[a], i, BlankCell(a, i, st));
      forall b | 0 <= b <= cols
        ensures lhs[a][b] == rhs[a][b]
      {
        assert lhs[a][b] == Unmerged(stamped[a][b]);
        assert stamped[a][b] == spliced[a][b].(c := b);
        assert rhs[a][b] == (if b < i then Normalized(d[a][b], a, b) else if b == i then BlankCell(a, b, st) else Normalized(d[a][b - 1], a, b));
        if b < i {
          assert spliced[a][b] == d[a][b] && InTable(d, a, b);
        } else if b > i {
          assert spliced[a][b] == d[a][b - 1] && InTable(d, a, b - 1);
        }
      }
    }
  }

  lemma {:induction false} RowRemoveSteps(d: Table, i: int, cols: int)
    requires 0 <= i < |d| && cols >= 0 && Shaped(d, |d|, cols) && Stamped(d)
    ensures Cleared(RowsStamped(Removed(d, i)), Whole(|d| - 1, cols)) == RowRemoved(d, i, cols)
  {
    var spliced := Removed(d, i);
    var stamped := RowsStamped(spliced);
    var lhs := Cleared(stamped, Whole(|d| - 1, cols));
    var rhs := RowRemoved(d, i, cols);
    forall a | 0 <= a < |d| - 1
      ensures lhs[a] == rhs[a]
    {
      assert |spliced[a]| == cols;
      forall b | 0 <= b < cols
        ensures lhs[a][b] == rhs[a][b]
      {
        assert lhs[a][b] == Unmerged(stamped[a][b]);
        assert stamped[a][b] == spliced[a][b].(r := a);
        assert rhs[a][b] == (if a < i then Normalized(d[a][b], a, b) else Normalized(d[a + 1][b], a, b));
        if a < i {
          assert spliced[a][b] == d[a][b] && InTable(d, a, b);
        } else {
          assert spliced[a][b] == d[a + 1][b] && InTable(d, a + 1, b);
        }
      }
    }
  }

  lemma {:induction false} ColRemoveSteps(d: Table, i: int, cols: int)
    requires 0 <= i < cols && Shaped(d, |d|, cols) && Stamped(d)
    ensures Cleared(ColsStamped(ColCut(d, i, cols)), Whole(|d|, cols - 1)) == ColRemoved(d, i, cols)
  {
    var spliced := ColCut(d, i, cols);
    var stamped := ColsStamped(spliced);
    var lhs := Cleared(stamped, Whole(|d|, cols - 1));
    var rhs := ColRemoved(d, i, cols);
    forall a | 0 <= a < |d|
      ensures lhs[a] == rhs[a]
    {
      assert spliced[a] == Removed(d[a], i);
      forall b | 0 <= b < cols - 1
        ensures lhs[a][b] == rhs[a][b]
      {
        assert lhs[a][b] == Unmerged(stamped[a][b]);
        assert stamped[a][b] == spliced[a][b].(c := b);
        assert rhs[a][b] == (if b < i then Normalized(d[a][b], a, b) else Normalized(d[a][b + 1], a, b));
        if b < i {
          assert spliced[a][b] == d[a][b] && InTable(d, a, b);
        } else {
          assert spliced[a][b] == d[a][b + 1] && InTable(d, a, b + 1);
        }
      }
    }
  }

  // ---------------------------------------------------------------------
  // Properties of the structural edits

  /** A table of visible single cells stamped with their positions. */
  ghost predicate Flat(d: Table, rows: int, cols: int)
  {
    Shaped(d, rows, cols) && Stamped(d) &&
    forall a, b :: InTable(d, a, b) ==> !d[a][b].hidden && d[a][b].rowspan == 1 && d[a][b].colspan == 1
  }

  /** After any structural edit the table is flat, so it tiles its grid. */
  lemma {:induction false} FlatTiles(d: Table, rows: int, cols: int)
    requires Flat(d, rows, cols)
    ensures Tiles(d, rows, cols) && SpansFit(d, rows, cols)
  {
    UnitGridTiles(d, rows, cols);
  }

  lemma {:induction false} RowInsertedFlat(d: Table, i: int, cols: int, st: Style)
    requires 0 <= i <= |d| && cols >= 0 && Shaped(d, |d|, cols)
    ensures Flat(RowInserted(d, i, cols, st), |d| + 1, cols)
  {
    var e := RowInserted(d, i, cols, st);
    forall a, b | InTable(e, a, b)
      ensures e[a][b].r == a && e[a][b].c == b && !e[a][b].hidden && e[a][b].rowspan == 1 && e[a][b].colspan == 1
    {
      assert |e| == |d| + 1;
      assert |e[a]| == cols;
      assert e[a][b] == (if a < i then Normalized(d[a][b], a, b) else if a == i then BlankCell(a, b, st) else Normalized(d[a - 1][b], a, b));
    }
  }

  lemma {:induction false} ColInsertedFlat(d: Table, i: int, cols: int, st: Style)
    requires 0 <= i <= cols && Shaped(d, |d|, cols)
    ensures Flat(ColInserted(d, i, cols, st), |d|, cols + 1)
  {
    var e := ColInserted(d, i, cols, st);
    forall a, b | InTable(e, a, b)
      ensures e[a][b].r == a && e[a][b].c == b && !e[a][b].hidden && e[a][b].rowspan == 1 && e[a][b].colspan == 1
    {
      assert e[a][b] == (if b < i then Normalized(d[a][b], a, b) else if b == i then BlankCell(a, b, st) else Normalized(d[a][b - 1], a, b));
    }
  }

  lemma {:induction false} RowRemovedFlat(d: Table, i: int, cols: int)
    requires 0 <= i < |d| && cols >= 0 && Shaped(d, |d|, cols)
    ensures Flat(RowRemoved(d, i, cols), |d| - 1, cols)
  {
    var e := RowRemoved(d, i, cols);
    forall a, b | InTable(e, a, b)
      ensures e[a][b].r == a && e[a][b].c == b && !e[a][b].hidden && e[a][b].rowspan == 1 && e[a][b].colspan == 1
    {
      assert e[a][b] == (if a < i then Normalized(d[a][b], a, b) else Normalized(d[a + 1][b], a, b));
    }
  }

  lemma {:induction false} ColRemovedFlat(d: Table, i: int, cols: int)
    requires 0 <= i < cols && Shaped(d, |d|, cols)
    ensures Flat(ColRemoved(d, i, cols), |d|, cols - 1)
  {
    var e := ColRemoved(d, i, cols);
    forall a, b | InTable(e, a, b)
      ensures e[a][b].r == a && e[a][b].c == b && !e[a][b].hidden && e[a][b].rowspan == 1 && e[a][b].colspan == 1
    {
      assert e[a][b] == (if b < i then Normalized(d[a][b], a, b) else Normalized(d[a][b + 1], a, b));
    }
  }

  /** Removing a row just inserted gives back the old table with its merges
      cleared: insertion keeps every old cell's text and style in order. */
  lemma {:induction false} RemoveInsertedRow(d: Table, i: int, cols: int, st: Style)
    requires 0 <= i <= |d| && cols >= 0 && Shaped(d, |d|, cols) && Stamped(d)
    ensures RowRemoved(RowInserted(d, i, cols, st), i, cols) == Cleared(d, Whole(|d|, cols))
  {
    var lhs := RowRemoved(RowInserted(d, i, cols, st), i, cols);
    var rhs := Cleared(d, Whole(|d|, cols));
    forall a | 0 <= a < |d|
      ensures lhs[a] == rhs[a]
    {
      forall b | 0 <= b < cols
        ensures lhs[a][b] == rhs[a][b]
      {
        assert InTable(d, a, b);
        RemoveInsertedRowAt(d, i, cols, st, a, b);
      }
    }
  }

  lemma {:induction false} RemoveInsertedRowAt(d: Table, i: int, cols: int, st: Style, a: int, b: int)
    requires 0 <= i <= |d| && cols >= 0 && Shaped(d, |d|, cols)
    requires 0 <= a < |d| && 0 <= b < cols && d[a][b].r == a && d[a][b].c == b
    ensures RowRemoved(RowInserted(d, i, cols, st), i, cols)[a][b] == Cleared(d, Whole(|d|, cols))[a][b]
  {
    var ins := RowInserted(d, i, cols, st);
    var cell := d[a][b];
    var a' := if a < i then a else a + 1;
    RowRemovedCell(ins, i, cols, a, b);
    RowInsertedCell(d, i, cols, st, a', b);
    assert (if a' < i then a' else a' - 1) == a;
    assert ins[a'][b] == Normalized(cell, a', b);
    assert Normalized(Normalized(cell, a', b), a, b) == Unmerged(cell);
    assert Cleared(d, Whole(|d|, cols))[a][b] == Unmerged(cell);
  }

  lemma {:induction false} RowInsertedCell(d: Table, i: int, cols: int, st: Style, a: int, b: int)
    requires 0 <= i <= |d| && cols >= 0 && Shaped(d, |d|, cols)
    requires 0 <= a <= |d| && 0 <= b < cols && a != i
    ensures RowInserted(d, i, cols, st)[a][b] == Normalized(d[if a < i then a else a - 1][b], a, b)
  {
  }

  lemma {:induction false} RowRemovedCell(d: Table, i: int, cols: int, a: int, b: int)
    requires 0 <= i < |d| && cols >= 0 && Shaped(d, |d|, cols)
    requires 0 <= a < |d| - 1 && 0 <= b < cols
    ensures RowRemoved(d, i, cols)[a][b] == Normalized(d[if a < i then a else a + 1][b], a, b)
  {
  }

  /** Removing a column just inserted gives back the old table with its merges cleared. */
  lemma {:induction false} RemoveInsertedCol(d: Table, i: int, cols: int, st: Style)
    requires 0 <= i <= cols && Shaped(d, |d|, cols) && Stamped(d)
    ensures ColRemoved(ColInserted(d, i, cols, st), i, cols + 1) == Cleared(d, Whole(|d|, cols))
  {
    var lhs := ColRemoved(ColInserted(d, i, cols, st), i, cols + 1);
    var rhs := Cleared(d, Whole(|d|, cols));
    forall a | 0 <= a < |d|
      ensures lhs[a] == rhs[a]
    {
      forall b | 0 <= b < cols
        ensures lhs[a][b] == rhs[a][b]
      {
        assert InTable(d, a, b);
        RemoveInsertedColAt(d, i, cols, st, a, b);
      }
    }
  }

  lemma {:induction false} RemoveInsertedColAt(d: Table, i: int, cols: int, st: Style, a: int, b: int)
    requires 0 <= i <= cols && Shaped(d, |d|, cols)
    requires 0 <= a < |d| && 0 <= b < cols && d[a][b].r == a && d[a][b].c == b
    ensures ColRemoved(ColInserted(d, i, cols, st), i, cols + 1)[a][b] == Cleared(d, Whole(|d|, cols))[a][b]
  {
    var ins := ColInserted(d, i, cols, st);
    var cell := d[a][b];
    var b' := if b < i then b else b + 1;
    ColRemovedCell(ins, i, cols + 1, a, b);
    ColInsertedCell(d, i, cols, st, a, b');
    assert (if b' < i then b' else b' - 1) == b;
    assert ins[a][b'] == Normalized(cell, a, b');
    NormalizedStamped(cell, a, b, b');
    assert Cleared(d, Whole(|d|, cols))[a][b] == Unmerged(cell);
  }

  /** Re-anchoring a cell twice, the second time at its own position, only
      clears its merge state. */
  lemma {:induction false} NormalizedStamped(cell: Cell, a: int, b: int, b': int)
    requires cell.r == a && cell.c == b
    ensures Normalized(Normalized(cell, a, b'), a, b) == Unmerged(cell)
  {
  }

  lemma {:induction false} ColInsertedCell(d: Table, i: int, cols: int, st: Style, a: int, b: int)
    requires 0 <= i <= cols && Shaped(d, |d|, cols)
    requires 0 <= a < |d| && 0 <= b <= cols && b != i
    ensures ColInserted(d, i, cols, st)[a][b] == Normalized(d[a][if b < i then b else b - 1], a, b)
  {
  }

  lemma {:induction false} ColRemovedCell(d: Table, i: int, cols: int, a: int, b: int)
    requires 0 <= i < cols && Shaped(d, |d|, cols)
    requires 0 <= a < |d| && 0 <= b < cols - 1
    ensures ColRemoved(d, i, cols)[a][b] == Normalized(d[a][if b < i then b else b + 1], a, b)
  {
  }
}

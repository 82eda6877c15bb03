/// Structural removal as the handlers are written: the selection is left
/// holding the removed cell, so a second removal reads that cell's stale
/// index. The corrected handlers, `FabricTablePlugin.RemoveRow` and
/// `FabricTablePlugin.RemoveCol`, drop the selection.

module Findings {
  import opened Cells
  import opened Structure

  /** The state removal reads and writes. `selected` holds the selected
      cell records; the removed cell is never re-stamped again, so its
      record keeps the index it had when it was removed. */
  datatype Snapshot = Snapshot(rows: int, cols: int, rowHeights: seq<real>, colWidths: seq<real>,
                               data: Table, selected: seq<Cell>)

  /** `Array.prototype.splice(i, 1)` for `i >= 0`: removes element `i`, or
      nothing when `i` is past the end. */
  function SpliceOut<T>(s: seq<T>, i: nat): (t: seq<T>)
    ensures i < |s| ==> t == Removed(s, i)
    ensures i >= |s| ==> t == s
  {
    if i < |s| then Removed(s, i) else s
  }

  /** The loops bounded by the counts: every cell at row `a < n` and column
      `c < m` gets row index `a` (or column index `c`, when `cols` is set)
      and unit span, and is made visible; cells past the counts are not
      visited. A cell the counts reach but that lies past the end of `d`
      is skipped here, where the source would throw a TypeError on the
      missing record; this never arises in the removal, because there the
      counts only drop below the real lengths. */
  function RestampedUpTo(d: Table, n: int, m: int, cols: bool): (e: Table)
    ensures |e| == |d| && forall a :: 0 <= a < |d| ==> |e[a]| == |d[a]|
    ensures forall a, c :: InTable(d, a, c) && a < n && c < m ==>
      && e[a][c].rowspan == 1 && e[a][c].colspan == 1 && !e[a][c].hidden
      && (if cols then e[a][c].c == c && e[a][c].r == d[a][c].r else e[a][c].r == a && e[a][c].c == d[a][c].c)
    ensures forall a, c :: InTable(d, a, c) && !(a < n && c < m) ==> e[a][c] == d[a][c]
  {
    seq(|d|, a requires 0 <= a < |d| =>
      seq(|d[a]|, c requires 0 <= c < |d[a]| =>
        if a < n && c < m then Unmerged(if cols then d[a][c].(c := c) else d[a][c].(r := a)) else d[a][c]))
  }

  /** Every row with element `i` spliced out, for the first `n` rows. */
  function SpliceOutOfRows(d: Table, n: int, i: nat): (e: Table)
    ensures |e| == |d|
    ensures forall a :: 0 <= a < |d| && a < n && i < |d[a]| ==> e[a] == Removed(d[a], i)
    ensures forall a :: 0 <= a < |d| && (a >= n || i >= |d[a]|) ==> e[a] == d[a]
  {
    seq(|d|, a requires 0 <= a < |d| => if a < n then SpliceOut(d[a], i) else d[a])
  }

  /** Removing a row as written: the count drops whether or not the splice
      removed anything, and the selection is kept. */
  function RemoveRowAsWritten(s: Snapshot): (t: Snapshot)
    requires forall k :: 0 <= k < |s.selected| ==> s.selected[k].r >= 0
    ensures t.selected == s.selected && t.cols == s.cols
    ensures |s.selected| > 0 ==> t.rows == s.rows - 1
  {
    if |s.selected| == 0 then s
    else
      var target := s.selected[0].r;
      var d := SpliceOut(s.data, target);
      var rows := s.rows - 1;
      s.(rows := rows, rowHeights := SpliceOut(s.rowHeights, target), data := RestampedUpTo(d, rows, s.cols, false))
  }

  /** Removing a column as written. */
  function RemoveColAsWritten(s: Snapshot): (t: Snapshot)
    requires forall k :: 0 <= k < |s.selected| ==> s.selected[k].c >= 0
    ensures t.selected == s.selected && t.rows == s.rows
    ensures |s.selected| > 0 ==> t.cols == s.cols - 1
  {
    if |s.selected| == 0 then s
    else
      var target := s.selected[0].c;
      var d := SpliceOutOfRows(s.data, s.rows, target);
      var cols := s.cols - 1;
      s.(cols := cols, colWidths := SpliceOut(s.colWidths, target), data := RestampedUpTo(d, s.rows, cols, true))
  }

  /** A fresh 2 x 2 table with one cell selected. */
  function TwoByTwo(selected: Cell): Snapshot
  {
    Snapshot(2, 2, [40.0, 40.0], [100.0, 100.0], InitialGrid(2, 2, InitialStyle), [selected])
  }

  /** Select a cell of the bottom row and delete its row twice: the first
      removal is right, the second splices nothing out (the stale index 1
      is past the end) yet the row count drops to 0 while one row of cells
      and one row height remain. */
  lemma {:induction false} SecondRowRemovalDesynchronises()
    ensures var s1 := RemoveRowAsWritten(TwoByTwo(InitialCell(1, 0, InitialStyle)));
      && s1.rows == |s1.data| == |s1.rowHeights| == 1
      && s1.selected[0].r == 1
    ensures var s2 := RemoveRowAsWritten(RemoveRowAsWritten(TwoByTwo(InitialCell(1, 0, InitialStyle))));
      && s2.rows == 0 && |s2.data| == 1 && |s2.rowHeights| == 1
  {
    var s0 := TwoByTwo(InitialCell(1, 0, InitialStyle));
    var s1 := RemoveRowAsWritten(s0);
    assert |SpliceOut(s0.data, 1)| == 1;
    assert |SpliceOut(s1.data, 1)| == 1;
  }

  /** Select a cell of the right column and delete its column twice: after
      the second removal the column count is 0 while every row still holds
      one cell. */
  lemma {:induction false} SecondColRemovalDesynchronises()
    ensures var s1 := RemoveColAsWritten(TwoByTwo(InitialCell(0, 1, InitialStyle)));
      && s1.cols == |s1.colWidths| == 1 && |s1.data| == 2 && |s1.data[0]| == |s1.data[1]| == 1
    ensures var s2 := RemoveColAsWritten(RemoveColAsWritten(TwoByTwo(InitialCell(0, 1, InitialStyle))));
      && s2.cols == 0 && |s2.colWidths| == 1 && |s2.data| == 2 && |s2.data[0]| == 1
  {
    var s0 := TwoByTwo(InitialCell(0, 1, InitialStyle));
    var d0 := SpliceOutOfRows(s0.data, 2, 1);
    assert |s0.data[0]| == 2 && |s0.data[1]| == 2;
    assert |d0[0]| == 1 && |d0[1]| == 1;
    var s1 := RemoveColAsWritten(s0);
    var d1 := SpliceOutOfRows(s1.data, 2, 1);
    assert |s1.data[0]| == 1;
    assert |d1[0]| == 1;
  }
}

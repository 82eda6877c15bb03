/// The selection engine: the drag box between two cells, the one-pass scan
/// that picks every visible cell whose covered rectangle meets that box, and
/// the box a merge of the picked cells spans.

module Selection {
  import opened Cells

  function Min(x: int, y: int): int
  {
    if x <= y then x else y
  }

  function Max(x: int, y: int): int
  {
    if x >= y then x else y
  }

  /** The grid-index box between the drag anchor and the cell under the
      mouse: from the smaller anchor row to the larger last covered row,
      and the same for columns. */
  function DragBox(start: Cell, end: Cell): (b: Box)
    ensures Contains(b, SpanBox(start)) && Contains(b, SpanBox(end))
    ensures b.minR == start.r || b.minR == end.r
    ensures b.minC == start.c || b.minC == end.c
    ensures b.maxR == start.r + start.rowspan - 1 || b.maxR == end.r + end.rowspan - 1
    ensures b.maxC == start.c + start.colspan - 1 || b.maxC == end.c + end.colspan - 1
  {
    Box(Min(start.r, end.r), Max(start.r + start.rowspan - 1, end.r + end.rowspan - 1),
        Min(start.c, end.c), Max(start.c + start.colspan - 1, end.c + end.colspan - 1))
  }

  /** The drag box is the least box holding both end cells' rectangles. */
  lemma {:induction false} DragBoxLeast(start: Cell, end: Cell, o: Box)
    requires Contains(o, SpanBox(start)) && Contains(o, SpanBox(end))
    ensures Contains(o, DragBox(start, end))
  {
  }

  /** The scan's test for one cell: not hidden, and its covered rectangle meets the box. */
  predicate Picked(cell: Cell, b: Box)
  {
    !cell.hidden && Overlaps(SpanBox(cell), b)
  }

  /** `p` comes before `q` in row-major order. */
  predicate Before(p: Pos, q: Pos)
  {
    p.r < q.r || (p.r == q.r && p.c < q.c)
  }

  /** Strictly increasing in row-major order (so also free of duplicates). */
  predicate RowMajor(s: seq<Pos>)
  {
    forall k, l :: 0 <= k < l < |s| ==> Before(s[k], s[l])
  }

  /** The positions picked among the first `n` cells of row `i`, in column order. */
  function RowPicks(d: Table, i: int, b: Box, n: nat): (ps: seq<Pos>)
    requires 0 <= i < |d| && n <= |d[i]|
    ensures forall p :: p in ps <==> p.r == i && 0 <= p.c < n && Picked(d[i][p.c], b)
    ensures RowMajor(ps)
  {
    if n == 0 then []
    else RowPicks(d, i, b, n - 1) + (if Picked(d[i][n - 1], b) then [Pos(i, n - 1)] else [])
  }

  /** The positions picked among the first `m` rows, in row-major order. */
  function Picks(d: Table, b: Box, m: nat): (ps: seq<Pos>)
    requires m <= |d|
    ensures forall p :: p in ps <==> 0 <= p.r < m && 0 <= p.c < |d[p.r]| && Picked(d[p.r][p.c], b)
    ensures RowMajor(ps)
  {
    if m == 0 then []
    else
      var front, last := Picks(d, b, m - 1), RowPicks(d, m - 1, b, |d[m - 1]|);
      assert forall k :: 0 <= k < |front| ==> front[k] in front && front[k].r < m - 1;
      assert forall k :: 0 <= k < |last| ==> last[k] in last && last[k].r == m - 1;
      front + last
  }

  /** The selection a drag box produces over the whole table. */
  function Selected(d: Table, b: Box): seq<Pos>
  {
    Picks(d, b, |d|)
  }

  /** The smallest box holding both boxes. */
  function Hull(x: Box, y: Box): Box
  {
    Box(Min(x.minR, y.minR), Max(x.maxR, y.maxR), Min(x.minC, y.minC), Max(x.maxC, y.maxC))
  }

  /** The box a merge spans: the union of the covered rectangles of the
      selected cells, accumulated in selection order. */
  function SelectionBox(d: Table, sel: seq<Pos>): (b: Box)
    requires |sel| >= 1
    requires forall k :: 0 <= k < |sel| ==> InTable(d, sel[k].r, sel[k].c)
    ensures forall k :: 0 <= k < |sel| ==> Contains(b, SpanBox(At(d, sel[k])))
    decreases |sel|
  {
    if |sel| == 1 then SpanBox(At(d, sel[0]))
    else Hull(SelectionBox(d, sel[..|sel| - 1]), SpanBox(At(d, sel[|sel| - 1])))
  }

  /** Extending the selection by its next position widens the box by that
      cell's rectangle. */
  lemma {:induction false} SelectionBoxStep(d: Table, sel: seq<Pos>, k: int)
    requires 1 <= k < |sel|
    requires forall p :: p in sel ==> InTable(d, p.r, p.c)
    ensures SelectionBox(d, sel[..k + 1]) == Hull(SelectionBox(d, sel[..k]), SpanBox(At(d, sel[k])))
  {
    assert sel[..k + 1][..k] == sel[..k];
  }

  /** The merge box is the least box holding every selected cell's rectangle. */
  lemma {:induction false} SelectionBoxLeast(d: Table, sel: seq<Pos>, o: Box)
    requires |sel| >= 1
    requires forall k :: 0 <= k < |sel| ==> InTable(d, sel[k].r, sel[k].c)
    requires forall k :: 0 <= k < |sel| ==> Contains(o, SpanBox(At(d, sel[k])))
    ensures Contains(o, SelectionBox(d, sel))
    decreases |sel|
  {
    if |sel| > 1 {
      var init := sel[..|sel| - 1];
      assert forall k :: 0 <= k < |init| ==> init[k] == sel[k];
      SelectionBoxLeast(d, init, o);
    }
  }

  /** When every selected cell's span fits the grid, so does the merge box,
      and the box is not empty. */
  lemma {:induction false} SelectionBoxFits(d: Table, rows: int, cols: int, sel: seq<Pos>)
    requires |sel| >= 1
    requires forall k :: 0 <= k < |sel| ==> InTable(d, sel[k].r, sel[k].c)
    requires SpansFit(d, rows, cols)
    ensures var b := SelectionBox(d, sel);
      0 <= b.minR <= b.maxR < rows && 0 <= b.minC <= b.maxC < cols
  {
    SelectionBoxLeast(d, sel, Whole(rows, cols));
    assert Fits(At(d, sel[0]), rows, cols);
  }

  // ---------------------------------------------------------------------
  // The one-pass scan does not close the selection under spans

  function Single(r: int, c: int): Cell
  {
    Cell(r, c, 1, 1, false, "", InitialStyle)
  }

  /** A tiled 3 x 3 table with three merged blocks: (0,1)-(1,1), (1,0)-(2,0)
      and (2,1)-(2,2). */
  function ThreeBlocks(): Table
  {
    [ [Single(0, 0), Single(0, 1).(rowspan := 2), Single(0, 2)],
      [Single(1, 0).(rowspan := 2), Single(1, 1).(hidden := true), Single(1, 2)],
      [Single(2, 0).(hidden := true), Single(2, 1).(colspan := 2), Single(2, 2).(hidden := true)] ]
  }

  /** The nine cells of ThreeBlocks(), one by one. */
  lemma {:induction false} ThreeBlocksCells()
    ensures var g := ThreeBlocks();
      && |g| == 3 && |g[0]| == 3 && |g[1]| == 3 && |g[2]| == 3
      && g[0][0] == Single(0, 0) && g[0][1] == Single(0, 1).(rowspan := 2) && g[0][2] == Single(0, 2)
      && g[1][0] == Single(1, 0).(rowspan := 2) && g[1][1] == Single(1, 1).(hidden := true) && g[1][2] == Single(1, 2)
      && g[2][0] == Single(2, 0).(hidden := true) && g[2][1] == Single(2, 1).(colspan := 2)
      && g[2][2] == Single(2, 2).(hidden := true)
  {
  }

  /** The visible cell of ThreeBlocks() covering grid cell (i, j). */
  function ThreeBlocksOwner(i: int, j: int): Pos
  {
    if i == 0 && j == 0 then Pos(0, 0)
    else if i <= 1 && j == 1 then Pos(0, 1)
    else if i <= 1 && j == 2 then Pos(i, 2)
    else if j == 0 then Pos(1, 0)
    else Pos(2, 1)
  }

  lemma {:induction false} ThreeBlocksCover(a: int, b: int, i: int, j: int)
    requires 0 <= i < 3 && 0 <= j < 3
    ensures VisibleCover(ThreeBlocks(), a, b, i, j) <==> Pos(a, b) == ThreeBlocksOwner(i, j)
  {
    var g := ThreeBlocks();
    if VisibleCover(g, a, b, i, j) {
      assert 0 <= a < 3 && 0 <= b < 3;
    }
  }

  /** The example table is a valid tiling. */
  lemma {:induction false} ThreeBlocksTiles()
    ensures Tiles(ThreeBlocks(), 3, 3)
  {
    var g := ThreeBlocks();
    forall i, j | 0 <= i < 3 && 0 <= j < 3
      ensures Covered(g, i, j)
    {
      var o := ThreeBlocksOwner(i, j);
      ThreeBlocksCover(o.r, o.c, i, j);
    }
    forall a, b, a', b', i, j | VisibleCover(g, a, b, i, j) && VisibleCover(g, a', b', i, j)
      ensures a == a' && b == b'
    {
      assert 0 <= i < 3 && 0 <= j < 3;
      ThreeBlocksCover(a, b, i, j);
      ThreeBlocksCover(a', b', i, j);
    }
  }

  /** Dragging from (0,0) to the block at (0,1) picks (0,0), (0,1) and the
      block at (1,0), whose rectangle reaches row 2. */
  lemma {:induction false} ThreeBlocksDrag()
    ensures var g := ThreeBlocks();
      Selected(g, DragBox(g[0][0], g[0][1])) == [Pos(0, 0), Pos(0, 1), Pos(1, 0)]
  {
    var g, b := ThreeBlocks(), Box(0, 1, 0, 1);
    assert DragBox(g[0][0], g[0][1]) == b by {
      ThreeBlocksCells();
    }
    assert Selected(g, b) == [Pos(0, 0), Pos(0, 1), Pos(1, 0)] by {
      ThreeBlocksDragRow0();
      ThreeBlocksDragRow1();
      ThreeBlocksDragRow2();
      DragPicksJoin();
      PicksOfThreeRows(g, b, [Pos(0, 0), Pos(0, 1)], [Pos(1, 0)], [], [Pos(0, 0), Pos(0, 1), Pos(1, 0)]);
    }
  }

  /** The three rows' picks, joined. */
  lemma {:induction false} DragPicksJoin()
    ensures [Pos(0, 0), Pos(0, 1)] + [Pos(1, 0)] + [] == [Pos(0, 0), Pos(0, 1), Pos(1, 0)]
  {
  }

  /** Row 0 of ThreeBlocks() under the drag box: both cells it reaches. */
  lemma {:induction false} ThreeBlocksDragRow0()
    ensures var g := ThreeBlocks(); |g| == 3 && RowPicks(g, 0, Box(0, 1, 0, 1), |g[0]|) == [Pos(0, 0), Pos(0, 1)]
  {
    ThreeBlocksCells();
    RowOfThree(ThreeBlocks(), 0, Box(0, 1, 0, 1), true, true, false);
  }

  /** Row 1: the block at (1,0); (1,1) is hidden under the block at (0,1). */
  lemma {:induction false} ThreeBlocksDragRow1()
    ensures var g := ThreeBlocks(); RowPicks(g, 1, Box(0, 1, 0, 1), |g[1]|) == [Pos(1, 0)]
  {
    ThreeBlocksCells();
    RowOfThree(ThreeBlocks(), 1, Box(0, 1, 0, 1), true, false, false);
  }

  /** Row 2: nothing, although the block at (1,0) reaches it. */
  lemma {:induction false} ThreeBlocksDragRow2()
    ensures var g := ThreeBlocks(); RowPicks(g, 2, Box(0, 1, 0, 1), |g[2]|) == []
  {
    ThreeBlocksCells();
    RowOfThree(ThreeBlocks(), 2, Box(0, 1, 0, 1), false, false, false);
  }

  /** The scan of a three-row table is the three rows' picks in order. */
  lemma {:induction false} PicksOfThreeRows(g: Table, b: Box, r0: seq<Pos>, r1: seq<Pos>, r2: seq<Pos>, all: seq<Pos>)
    requires |g| == 3 && r0 + r1 + r2 == all
    requires RowPicks(g, 0, b, |g[0]|) == r0 && RowPicks(g, 1, b, |g[1]|) == r1
    requires RowPicks(g, 2, b, |g[2]|) == r2
    ensures Selected(g, b) == all
  {
    assert Picks(g, b, 1) == r0;
    assert Picks(g, b, 2) == r0 + r1;
  }

  /** The scan of one three-cell row, given which of its cells are picked. */
  lemma {:induction false} RowOfThree(g: Table, i: int, b: Box, p0: bool, p1: bool, p2: bool)
    requires 0 <= i < |g| && |g[i]| == 3
    requires Picked(g[i][0], b) == p0 && Picked(g[i][1], b) == p1 && Picked(g[i][2], b) == p2
    ensures RowPicks(g, i, b, |g[i]|) ==
      (if p0 then [Pos(i, 0)] else []) + (if p1 then [Pos(i, 1)] else []) + (if p2 then [Pos(i, 2)] else [])
  {
    assert RowPicks(g, i, b, 1) == (if p0 then [Pos(i, 0)] else []);
    assert RowPicks(g, i, b, 2) == RowPicks(g, i, b, 1) + (if p1 then [Pos(i, 1)] else []);
  }

  /** The picked cells span rows 0-2 of columns 0-1. */
  lemma {:induction false} ThreeBlocksMergeBox()
    ensures SelectionBox(ThreeBlocks(), [Pos(0, 0), Pos(0, 1), Pos(1, 0)]) == Box(0, 2, 0, 1)
  {
    var g := ThreeBlocks();
    var sel := [Pos(0, 0), Pos(0, 1), Pos(1, 0)];
    assert sel[..2] == [Pos(0, 0), Pos(0, 1)];
    assert sel[..2][..1] == [Pos(0, 0)];
    assert SelectionBox(g, [Pos(0, 0)]) == Box(0, 0, 0, 0);
    assert SelectionBox(g, sel[..2]) == Box(0, 1, 0, 1);
  }

  /** Merging that box cuts the block at (2,1) in half: grid cell (2,2) is
      then covered by no visible cell. */
  lemma {:induction false} ThreeBlocksMergeGap()
    ensures !Covered(Merged(ThreeBlocks(), Box(0, 2, 0, 1)), 2, 2)
  {
    var m := Merged(ThreeBlocks(), Box(0, 2, 0, 1));
  }

  /** A drag over a tiled table whose one-pass selection, once merged,
      leaves a grid cell uncovered: the scan does not close the selection
      under the spans of the cells it picks. */
  lemma {:induction false} OnePassMergeCanBreakTiling()
    ensures Tiles(ThreeBlocks(), 3, 3)
    ensures var g := ThreeBlocks();
      var sel := Selected(g, DragBox(g[0][0], g[0][1]));
      && sel == [Pos(0, 0), Pos(0, 1), Pos(1, 0)]
      && !Tiles(Merged(g, SelectionBox(g, sel)), 3, 3)
  {
    ThreeBlocksTiles();
    ThreeBlocksDrag();
    ThreeBlocksMergeBox();
    ThreeBlocksMergeGap();
  }
}

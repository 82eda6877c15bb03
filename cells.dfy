/// The cell grid: cell records, the rows x cols table of them, the tiling
/// invariant of merged blocks, and the value-level effect of merging,
/// splitting, clearing merges and restyling.

module Cells {

  /** The per-cell style fields (copied into every cell record by the source). */
  datatype Style = Style(
    fill: string,
    stroke: string,
    strokeWidth: int,
    textFill: string,
    fontSize: int,
    fontFamily: string,
    textAlign: string,
    fontWeight: string,
    fontStyle: string)

  /** The table's initial `defaultStyles`. */
  const InitialStyle := Style("#ffffff", "#e11d48", 1, "#1e293b", 14, "SourceHanSerifCN-Bold, serif", "center", "normal", "normal")

  /** The fixed defaults restored by "reset styles". */
  const HardcodedStyle := Style("#ffffff", "#cbd5e1", 1, "#334155", 14, "Arial", "center", "normal", "normal")

  /** One style property together with its new value, as the style menu sends it. */
  datatype StyleChange =
    | Fill(fill: string)
    | Stroke(stroke: string)
    | StrokeWidth(strokeWidth: int)
    | TextFill(textFill: string)
    | FontSize(fontSize: int)
    | FontFamily(fontFamily: string)
    | TextAlign(textAlign: string)
    | FontWeight(fontWeight: string)
    | FontStyle(fontStyle: string)

  /** `s` with the one property named by `ch` set to its value. */
  function Restyle(s: Style, ch: StyleChange): Style
  {
    match ch
    case Fill(v) => s.(fill := v)
    case Stroke(v) => s.(stroke := v)
    case StrokeWidth(v) => s.(strokeWidth := v)
    case TextFill(v) => s.(textFill := v)
    case FontSize(v) => s.(fontSize := v)
    case FontFamily(v) => s.(fontFamily := v)
    case TextAlign(v) => s.(textAlign := v)
    case FontWeight(v) => s.(fontWeight := v)
    case FontStyle(v) => s.(fontStyle := v)
  }

  /** A cell record: its anchor (r, c), its span in grid cells, whether a
      merged block absorbed it, its text and its style. */
  datatype Cell = Cell(r: int, c: int, rowspan: int, colspan: int, hidden: bool, text: string, style: Style)

  /** A grid position (row, column). */
  datatype Pos = Pos(r: int, c: int)

  /** An inclusive box of grid indices [minR, maxR] x [minC, maxC]. */
  datatype Box = Box(minR: int, maxR: int, minC: int, maxC: int)

  type Table = seq<seq<Cell>>

  // ---------------------------------------------------------------------
  // Boxes

  /** The rectangle a cell covers: [r, r + rowspan - 1] x [c, c + colspan - 1]. */
  function SpanBox(cell: Cell): Box
  {
    Box(cell.r, cell.r + cell.rowspan - 1, cell.c, cell.c + cell.colspan - 1)
  }

  predicate InBox(b: Box, i: int, j: int)
  {
    b.minR <= i <= b.maxR && b.minC <= j <= b.maxC
  }

  predicate Contains(outer: Box, inner: Box)
  {
    outer.minR <= inner.minR && inner.maxR <= outer.maxR && outer.minC <= inner.minC && inner.maxC <= outer.maxC
  }

  /** The intersection test of the selection scan: neither box lies wholly
      above, below, left or right of the other. */
  predicate Overlaps(x: Box, y: Box)
  {
    !(x.maxR < y.minR || x.minR > y.maxR || x.maxC < y.minC || x.minC > y.maxC)
  }

  /** The whole grid as a box. */
  function Whole(rows: int, cols: int): Box
  {
    Box(0, rows - 1, 0, cols - 1)
  }

  predicate CoversPoint(cell: Cell, i: int, j: int)
  {
    InBox(SpanBox(cell), i, j)
  }

  // ---------------------------------------------------------------------
  // Table shape and the tiling invariant

  predicate InTable(d: Table, a: int, b: int)
  {
    0 <= a < |d| && 0 <= b < |d[a]|
  }

  function At(d: Table, p: Pos): Cell
    requires InTable(d, p.r, p.c)
  {
    d[p.r][p.c]
  }

  /** `d` has `rows` rows of `cols` cells each. */
  predicate Shaped(d: Table, rows: int, cols: int)
  {
    |d| == rows && forall a :: 0 <= a < |d| ==> |d[a]| == cols
  }

  /** Every cell's own (r, c) is its position in the table. */
  ghost predicate Stamped(d: Table)
  {
    forall a, b :: InTable(d, a, b) ==> d[a][b].r == a && d[a][b].c == b
  }

  /** The cell's span is at least one grid cell each way and stays inside the grid. */
  predicate Fits(cell: Cell, rows: int, cols: int)
  {
    0 <= cell.r && 0 <= cell.c && 1 <= cell.rowspan && 1 <= cell.colspan &&
    cell.r + cell.rowspan <= rows && cell.c + cell.colspan <= cols
  }

  /** Every cell, hidden or not, has a span that fits the grid. */
  ghost predicate SpansFit(d: Table, rows: int, cols: int)
  {
    forall a, b :: InTable(d, a, b) ==> Fits(d[a][b], rows, cols)
  }

  /** The non-hidden cell at position (a, b) covers grid cell (i, j). */
  predicate VisibleCover(d: Table, a: int, b: int, i: int, j: int)
  {
    InTable(d, a, b) && !d[a][b].hidden && CoversPoint(d[a][b], i, j)
  }

  /** Some non-hidden cell covers grid cell (i, j). */
  ghost predicate Covered(d: Table, i: int, j: int)
  {
    exists a, b :: VisibleCover(d, a, b, i, j)
  }

  /** The tiling invariant: the rectangles covered by the non-hidden cells
      lie inside the grid and partition it, every grid cell being covered by
      exactly one non-hidden cell. */
  ghost predicate Tiles(d: Table, rows: int, cols: int)
  {
    && Shaped(d, rows, cols)
    && Stamped(d)
    && (forall a, b :: InTable(d, a, b) && !d[a][b].hidden ==> Fits(d[a][b], rows, cols))
    && (forall i, j :: 0 <= i < rows && 0 <= j < cols ==> Covered(d, i, j))
    && (forall a, b, a', b', i, j :: VisibleCover(d, a, b, i, j) && VisibleCover(d, a', b', i, j) ==> a == a' && b == b')
  }

  // ---------------------------------------------------------------------
  // Initial table

  function DigitChar(n: nat): char
    requires n < 10
  {
    "0123456789"[n]
  }

  /** Decimal rendering of a natural number, as a template literal shows it. */
  function Digits(n: nat): string
  {
    if n < 10 then [DigitChar(n)] else Digits(n / 10) + [DigitChar(n % 10)]
  }

  /** The initial text of cell (r, c): "R<r+1>C<c+1>". */
  function InitialText(r: nat, c: nat): string
  {
    "R" + Digits(r + 1) + "C" + Digits(c + 1)
  }

  function InitialCell(r: nat, c: nat, st: Style): Cell
  {
    Cell(r, c, 1, 1, false, InitialText(r, c), st)
  }

  /** The table built at start-up: unit, visible, stamped cells with their initial text. */
  function InitialGrid(rows: nat, cols: nat, st: Style): Table
  {
    seq(rows, r requires 0 <= r < rows => seq(cols, c requires 0 <= c < cols => InitialCell(r, c, st)))
  }

  // ---------------------------------------------------------------------
  // Merging, splitting, clearing merges

  /** The cell at position (i, j) made a visible single cell. */
  function Unmerged(cell: Cell): Cell
  {
    cell.(hidden := false, rowspan := 1, colspan := 1)
  }

  /** Every cell at a position inside `b` made a visible single cell; the rest untouched.
      (What splitting a cell does over its span, and what clearing all merges does
      over the whole grid.) */
  function Cleared(d: Table, b: Box): (e: Table)
    ensures |e| == |d| && forall a :: 0 <= a < |d| ==> |e[a]| == |d[a]|
  {
    seq(|d|, a requires 0 <= a < |d| =>
      seq(|d[a]|, c requires 0 <= c < |d[a]| =>
        if InBox(b, a, c) then Unmerged(d[a][c]) else d[a][c]))
  }

  /** The cell at position (i, j) after merging box `b`. */
  function MergedCell(cell: Cell, i: int, j: int, b: Box): Cell
  {
    if i == b.minR && j == b.minC then
      cell.(rowspan := b.maxR - b.minR + 1, colspan := b.maxC - b.minC + 1, hidden := false)
    else if InBox(b, i, j) then
      cell.(hidden := true)
    else
      cell
  }

  /** Merging box `b`: its top-left cell becomes the master spanning `b`,
      every other cell in `b` is hidden (its own span left as it was), and
      the cells outside `b` are untouched. */
  function Merged(d: Table, b: Box): (e: Table)
    ensures |e| == |d| && forall a :: 0 <= a < |d| ==> |e[a]| == |d[a]|
  {
    seq(|d|, a requires 0 <= a < |d| =>
      seq(|d[a]|, c requires 0 <= c < |d[a]| => MergedCell(d[a][c], a, c, b)))
  }

  /** No non-hidden cell other than those inside `b` reaches into `b`:
      every span that meets `b` lies wholly inside it. */
  ghost predicate NoCut(d: Table, b: Box)
  {
    forall a, c :: InTable(d, a, c) && !d[a][c].hidden && Overlaps(SpanBox(d[a][c]), b) ==> Contains(b, SpanBox(d[a][c]))
  }

  /** Only the style of the cells at the target positions changes. */
  function Restyled(d: Table, targets: set<Pos>, ch: StyleChange): (e: Table)
    ensures |e| == |d| && forall a :: 0 <= a < |d| ==> |e[a]| == |d[a]|
  {
    seq(|d|, a requires 0 <= a < |d| =>
      seq(|d[a]|, c requires 0 <= c < |d[a]| =>
        if Pos(a, c) in targets then d[a][c].(style := Restyle(d[a][c].style, ch)) else d[a][c]))
  }

  // ---------------------------------------------------------------------
  // Tiling lemmas

  /** A table of stamped, visible single cells tiles its grid. */
  lemma {:induction false} UnitGridTiles(d: Table, rows: int, cols: int)
    requires Shaped(d, rows, cols) && Stamped(d)
    requires forall a, b :: InTable(d, a, b) ==> !d[a][b].hidden && d[a][b].rowspan == 1 && d[a][b].colspan == 1
    ensures Tiles(d, rows, cols)
  {
    forall i, j | 0 <= i < rows && 0 <= j < cols
      ensures Covered(d, i, j)
    {
      assert VisibleCover(d, i, j, i, j);
    }
  }

  /** The start-up table tiles its grid. */
  lemma {:induction false} InitialGridTiles(rows: nat, cols: nat, st: Style)
    ensures Tiles(InitialGrid(rows, cols, st), rows, cols)
  {
    UnitGridTiles(InitialGrid(rows, cols, st), rows, cols);
  }

  /** Clearing every merge of a stamped table gives a tiled table. */
  lemma {:induction false} ClearedTiles(d: Table, rows: int, cols: int)
    requires Shaped(d, rows, cols) && Stamped(d)
    ensures Tiles(Cleared(d, Whole(rows, cols)), rows, cols)
  {
    UnitGridTiles(Cleared(d, Whole(rows, cols)), rows, cols);
  }

  /** Splitting a visible cell of a tiled table keeps the table tiled. */
  lemma {:induction false} SplitKeepsTiling(d: Table, rows: int, cols: int, p: Pos)
    requires Tiles(d, rows, cols)
    requires InTable(d, p.r, p.c) && !At(d, p).hidden
    ensures Tiles(Cleared(d, SpanBox(At(d, p))), rows, cols)
  {
    var s := SpanBox(At(d, p));
    var e := Cleared(d, s);
    assert VisibleCover(d, p.r, p.c, p.r, p.c);
    assert Stamped(e);
    forall a, b | InTable(e, a, b) && !e[a][b].hidden
      ensures Fits(e[a][b], rows, cols)
    {
      if !InBox(s, a, b) {
        assert e[a][b] == d[a][b];
      }
    }
    forall i, j | 0 <= i < rows && 0 <= j < cols
      ensures Covered(e, i, j)
    {
      if InBox(s, i, j) {
        assert VisibleCover(e, i, j, i, j);
      } else {
        assert Covered(d, i, j);
        var a, b :| VisibleCover(d, a, b, i, j);
        if InBox(s, a, b) {
          assert VisibleCover(d, a, b, a, b);
          assert VisibleCover(d, p.r, p.c, a, b);
          assert false;
        }
        assert e[a][b] == d[a][b];
        assert VisibleCover(e, a, b, i, j);
      }
    }
    forall a, b, a', b', i, j | VisibleCover(e, a, b, i, j) && VisibleCover(e, a', b', i, j)
      ensures a == a' && b == b'
    {
      CoverAfterSplit(d, rows, cols, p, a, b, i, j);
      CoverAfterSplit(d, rows, cols, p, a', b', i, j);
    }
  }

  /** After splitting the visible cell at `p`, a visible cover of (i, j) is
      either the single cell (i, j) itself inside the split span, or a cell
      outside the span that already covered (i, j) before, which then lies
      outside the span too. */
  lemma {:induction false} CoverAfterSplit(d: Table, rows: int, cols: int, p: Pos, a: int, b: int, i: int, j: int)
    requires Tiles(d, rows, cols)
    requires InTable(d, p.r, p.c) && !At(d, p).hidden
    requires VisibleCover(Cleared(d, SpanBox(At(d, p))), a, b, i, j)
    ensures InBox(SpanBox(At(d, p)), a, b) ==> a == i && b == j
    ensures !InBox(SpanBox(At(d, p)), a, b) ==> VisibleCover(d, a, b, i, j) && !InBox(SpanBox(At(d, p)), i, j)
  {
    var s := SpanBox(At(d, p));
    if !InBox(s, a, b) {
      assert Cleared(d, s)[a][b] == d[a][b];
      if InBox(s, i, j) {
        assert VisibleCover(d, p.r, p.c, i, j);
        assert VisibleCover(d, a, b, i, j);
      }
    }
  }

  /** Merging a box that lies in the grid and that no other span cuts keeps a
      tiled table tiled. */
  lemma {:induction false} MergeKeepsTiling(d: Table, rows: int, cols: int, bx: Box)
    requires Tiles(d, rows, cols)
    requires 0 <= bx.minR <= bx.maxR < rows && 0 <= bx.minC <= bx.maxC < cols
    requires NoCut(d, bx)
    ensures Tiles(Merged(d, bx), rows, cols)
  {
    var e := Merged(d, bx);
    assert Stamped(e);
    forall a, b | InTable(e, a, b) && !e[a][b].hidden
      ensures Fits(e[a][b], rows, cols)
    {
      if !InBox(bx, a, b) {
        assert e[a][b] == d[a][b];
      }
    }
    forall i, j | 0 <= i < rows && 0 <= j < cols
      ensures Covered(e, i, j)
    {
      if InBox(bx, i, j) {
        assert VisibleCover(e, bx.minR, bx.minC, i, j);
      } else {
        assert Covered(d, i, j);
        var a, b :| VisibleCover(d, a, b, i, j);
        if InBox(bx, a, b) {
          assert VisibleCover(d, a, b, a, b);
          assert Overlaps(SpanBox(d[a][b]), bx);
          assert false;
        }
        assert e[a][b] == d[a][b];
        assert VisibleCover(e, a, b, i, j);
      }
    }
    forall a, b, a', b', i, j | VisibleCover(e, a, b, i, j) && VisibleCover(e, a', b', i, j)
      ensures a == a' && b == b'
    {
      CoverAfterMerge(d, rows, cols, bx, a, b, i, j);
      CoverAfterMerge(d, rows, cols, bx, a', b', i, j);
    }
  }

  /** After merging `bx`, a visible cover of (i, j) is either the master,
      and then (i, j) lies in `bx`, or a cell outside `bx` that already
      covered (i, j), and then (i, j) lies outside `bx`. */
  lemma {:induction false} CoverAfterMerge(d: Table, rows: int, cols: int, bx: Box, a: int, b: int, i: int, j: int)
    requires Tiles(d, rows, cols)
    requires 0 <= bx.minR <= bx.maxR < rows && 0 <= bx.minC <= bx.maxC < cols
    requires NoCut(d, bx)
    requires VisibleCover(Merged(d, bx), a, b, i, j)
    ensures InBox(bx, a, b) ==> a == bx.minR && b == bx.minC && InBox(bx, i, j)
    ensures !InBox(bx, a, b) ==> VisibleCover(d, a, b, i, j) && !InBox(bx, i, j)
  {
    if !InBox(bx, a, b) {
      assert Merged(d, bx)[a][b] == d[a][b];
      if InBox(bx, i, j) {
        assert Overlaps(SpanBox(d[a][b]), bx);
      }
    }
  }

  /** Merging a box and then splitting its master leaves every cell of the
      box visible with unit span, keeping its own anchor, text and style,
      and leaves every cell outside the box as it was before the merge:
      the round trip equals clearing the box in the original table. */
  lemma {:induction false} MergeThenSplit(d: Table, rows: int, cols: int, bx: Box)
    requires Shaped(d, rows, cols) && Stamped(d)
    requires 0 <= bx.minR <= bx.maxR < rows && 0 <= bx.minC <= bx.maxC < cols
    ensures Cleared(Merged(d, bx), SpanBox(Merged(d, bx)[bx.minR][bx.minC])) == Cleared(d, bx)
  {
    var m := Merged(d, bx);
    assert SpanBox(m[bx.minR][bx.minC]) == bx;
    var lhs := Cleared(m, bx);
    var rhs := Cleared(d, bx);
    forall a | 0 <= a < |d|
      ensures lhs[a] == rhs[a]
    {
      assert |lhs[a]| == |rhs[a]|;
      forall c | 0 <= c < |d[a]|
        ensures lhs[a][c] == rhs[a][c]
      {
      }
    }
  }

  /** Splitting a visible single cell changes nothing. */
  lemma {:induction false} SplitOfSingleCellIsNoop(d: Table, p: Pos)
    requires Stamped(d)
    requires InTable(d, p.r, p.c) && !At(d, p).hidden && At(d, p).rowspan == 1 && At(d, p).colspan == 1
    ensures Cleared(d, SpanBox(At(d, p))) == d
  {
    var e := Cleared(d, SpanBox(At(d, p)));
    forall a | 0 <= a < |d|
      ensures e[a] == d[a]
    {
      forall c | 0 <= c < |d[a]|
        ensures e[a][c] == d[a][c]
      {
      }
    }
  }

  /** Two tables of the same shape whose cells agree on position, span and
      visibility: they differ at most in text and style. */
  ghost predicate SameLayout(d: Table, e: Table)
  {
    && |e| == |d| && (forall a :: 0 <= a < |d| ==> |e[a]| == |d[a]|)
    && forall a, b :: InTable(d, a, b) ==>
         && e[a][b].r == d[a][b].r && e[a][b].c == d[a][b].c
         && e[a][b].rowspan == d[a][b].rowspan && e[a][b].colspan == d[a][b].colspan
         && e[a][b].hidden == d[a][b].hidden
  }

  /** Tiling depends on the layout only, so text and style changes keep it. */
  lemma {:induction false} SameLayoutTiles(d: Table, e: Table, rows: int, cols: int)
    requires Tiles(d, rows, cols) && SameLayout(d, e)
    ensures Tiles(e, rows, cols)
  {
    assert forall a, b, i, j :: VisibleCover(e, a, b, i, j) <==> VisibleCover(d, a, b, i, j);
    forall i, j | 0 <= i < rows && 0 <= j < cols
      ensures Covered(e, i, j)
    {
      assert Covered(d, i, j);
      var a, b :| VisibleCover(d, a, b, i, j);
      assert VisibleCover(e, a, b, i, j);
    }
  }

  /** Changing styles never changes geometry, so it keeps a tiled table tiled. */
  lemma {:induction false} RestyleKeepsTiling(d: Table, rows: int, cols: int, targets: set<Pos>, ch: StyleChange)
    requires Tiles(d, rows, cols)
    ensures Tiles(Restyled(d, targets, ch), rows, cols)
  {
    SameLayoutTiles(d, Restyled(d, targets, ch), rows, cols);
  }
}

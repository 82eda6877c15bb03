/// The table plugin object: its state, and the handlers of the grid model and
/// geometry engine as methods that update that state in place.

module Plugin {
  import opened Optional
  import opened Dimensions
  import opened Cells
  import opened Selection
  import opened Geometry
  import opened Structure
  import opened Events

  /** The `options.x || fallback` defaulting: an absent or zero option takes the fallback. */
  function OrElse(v: real, fallback: real): real
  {
    if v == 0.0 then fallback else v
  }

  function CountOrElse(v: int, fallback: int): int
  {
    if v == 0 then fallback else v
  }

  /** The size of a new row, and of a new column. */
  const NewRowHeight: real := 40.0
  const NewColWidth: real := 100.0

  /** A selected position names a visible cell of the table. */
  predicate Selectable(d: Table, p: Pos)
  {
    InTable(d, p.r, p.c) && !At(d, p).hidden
  }

  /** The table has `rows` rows of `cols` cells, each stamped with its own
      position and with a span inside the grid, and every selected position
      names a visible cell. */
  ghost predicate Sound(d: Table, rows: int, cols: int, sel: seq<Pos>)
  {
    && Shaped(d, rows, cols) && Stamped(d) && SpansFit(d, rows, cols)
    && (forall k :: 0 <= k < |sel| ==> Selectable(d, sel[k]))
  }

  /** A resize gesture grabs an existing column or row. */
  predicate Grabs(info: ResizeInfo, rows: int, cols: int)
  {
    info.index < (if info.axis == ColAxis then cols else rows)
  }

  /** The per-cell edits the handlers apply over a rectangle of the table. */
  datatype CellEdit =
    | Unmerge                      // a visible single cell
    | StampRow                     // `r` set to the cell's row
    | StampCol                     // `c` set to the cell's column
    | ResetStyle                   // the hard-coded style
    | RestyleCell(ch: StyleChange) // one style property changed
    | Absorb(master: Pos)          // hidden, unless it is the master

  /** The cell at position (a, c) after the edit. */
  function Edited(edit: CellEdit, cell: Cell, a: int, c: int): Cell
  {
    match edit
    case Unmerge => Unmerged(cell)
    case StampRow => cell.(r := a)
    case StampCol => cell.(c := c)
    case ResetStyle => cell.(style := HardcodedStyle)
    case RestyleCell(ch) => cell.(style := Restyle(cell.style, ch))
    case Absorb(m) => if a == m.r && c == m.c then cell else cell.(hidden := true)
  }

  /** The table with the edit applied to every cell at a position inside `b`. */
  function BoxUpdated(d: Table, b: Box, edit: CellEdit): (e: Table)
    ensures |e| == |d| && forall a :: 0 <= a < |d| ==> |e[a]| == |d[a]|
  {
    seq(|d|, a requires 0 <= a < |d| =>
      seq(|d[a]|, c requires 0 <= c < |d[a]| => if InBox(b, a, c) then Edited(edit, d[a][c], a, c) else d[a][c]))
  }

  /** The table a plus button leaves: a row inserted on top or at the
      bottom, a column on the left or on the right. */
  function PlusEdited(d: Table, rows: int, cols: int, button: PlusButton, st: Style): (e: Table)
    requires 0 <= rows && 0 <= cols && Shaped(d, rows, cols)
    ensures button == TopButton || button == BottomButton ==> Shaped(e, rows + 1, cols)
    ensures button == LeftButton || button == RightButton ==> Shaped(e, rows, cols + 1)
  {
    match button
    case TopButton => RowInserted(d, 0, cols, st)
    case BottomButton => RowInserted(d, rows, cols, st)
    case LeftButton => ColInserted(d, 0, cols, st)
    case RightButton => ColInserted(d, cols, cols, st)
  }

  /** Every cell given the style `st`, as resetting the styles does. */
  function AllStyled(d: Table, st: Style): (e: Table)
    ensures |e| == |d| && forall a :: 0 <= a < |d| ==> |e[a]| == |d[a]|
  {
    seq(|d|, a requires 0 <= a < |d| => seq(|d[a]|, c requires 0 <= c < |d[a]| => d[a][c].(style := st)))
  }

  /** The positions a sequence of positions names. */
  function Elements(sel: seq<Pos>): set<Pos>
  {
    set p | p in sel
  }

  /** Every position of a rows x cols grid. */
  function AllPositions(rows: int, cols: int): set<Pos>
  {
    set a, b | 0 <= a < rows && 0 <= b < cols :: Pos(a, b)
  }

  /** The loop over the selection that accumulates the merge box: the
      least box holding every selected cell's rectangle, inside the grid. */
  method MergeBounds(d: Table, rows: int, cols: int, sel: seq<Pos>) returns (bx: Box)
    requires |sel| >= 1
    requires forall p :: p in sel ==> InTable(d, p.r, p.c)
    requires SpansFit(d, rows, cols)
    ensures bx == SelectionBox(d, sel)
    ensures 0 <= bx.minR <= bx.maxR < rows && 0 <= bx.minC <= bx.maxC < cols
  {
    var first := At(d, sel[0]);
    var minR, maxR := first.r, first.r + first.rowspan - 1;
    var minC, maxC := first.c, first.c + first.colspan - 1;
    assert sel[..1] == [sel[0]];
    var k := 1;
    while k < |sel|
      invariant 1 <= k <= |sel|
      invariant Box(minR, maxR, minC, maxC) == SelectionBox(d, sel[..k])
    {
      var cell := At(d, sel[k]);
      SelectionBoxStep(d, sel, k);
      minR := Min(minR, cell.r);
      maxR := Max(maxR, cell.r + cell.rowspan - 1);
      minC := Min(minC, cell.c);
      maxC := Max(maxC, cell.c + cell.colspan - 1);
      k := k + 1;
    }
    assert sel[..k] == sel;
    bx := Box(minR, maxR, minC, maxC);
    SelectionBoxFits(d, rows, cols, sel);
  }

  /** The inner loop of the selection scan over row `r`. */
  method ScanRow(d: Table, r: int, b: Box, cols: nat) returns (picks: seq<Pos>)
    requires 0 <= r < |d| && |d[r]| == cols
    ensures picks == RowPicks(d, r, b, cols)
  {
    picks := [];
    var c := 0;
    while c < cols
      invariant 0 <= c <= cols
      invariant picks == RowPicks(d, r, b, c)
    {
      var cell := d[r][c];
      if cell.hidden {
        c := c + 1;
        continue;
      }
      var endR, endC := cell.r + cell.rowspan - 1, cell.c + cell.colspan - 1;
      if !(endR < b.minR || cell.r > b.maxR || endC < b.minC || cell.c > b.maxC) {
        picks := picks + [Pos(r, c)];
      }
      c := c + 1;
    }
  }

  /** The selection scan: row by row, the visible cells meeting the box. */
  method ScanTable(d: Table, rows: nat, cols: nat, b: Box) returns (sel: seq<Pos>)
    requires Shaped(d, rows, cols)
    ensures sel == Selected(d, b)
  {
    sel := [];
    var r := 0;
    while r < rows
      invariant 0 <= r <= rows
      invariant sel == Picks(d, b, r)
    {
      var picks := ScanRow(d, r, b, cols);
      sel := sel + picks;
      r := r + 1;
    }
  }

  class FabricTablePlugin {
    var left: real
    var top: real
    var rows: int
    var cols: int
    var colWidths: seq<real>
    var rowHeights: seq<real>
    var defaultStyles: Style
    var isEditing: bool
    var data: Table
    var selectedCells: seq<Pos>
    var resizing: Option<ResizeInfo>
    var isDragging: bool
    var selectionStart: Option<Cell>

    /** The object invariant: the table and the size lists match the counts,
        sizes are positive, every cell is stamped with its position and its
        span fits the grid, the selection names visible cells and is empty
        while browsing, a resize grabs an existing line, and a drag has an
        anchor. (The tiling of the grid by merged blocks is not part of it:
        merging a one-pass selection can break it.) */
    ghost predicate Valid()
      reads this
    {
      && 0 <= rows && 0 <= cols
      && |rowHeights| == rows && |colWidths| == cols
      && Positive(rowHeights) && Positive(colWidths)
      && Sound(data, rows, cols, selectedCells)
      && (!isEditing ==> selectedCells == [])
      && (resizing.Some? ==> Grabs(resizing.value, rows, cols))
      && (isDragging ==> selectionStart.Some?)
    }

    /** Builds the table from the options; a zero option takes its default. */
    constructor(optLeft: real, optTop: real, optRows: int, optCols: int, optColWidth: real, optRowHeight: real)
      requires optRows >= 0 && optCols >= 0 && optColWidth >= 0.0 && optRowHeight >= 0.0
      ensures Valid() && Tiles(data, rows, cols)
      ensures left == OrElse(optLeft, 100.0) && top == OrElse(optTop, 100.0)
      ensures rows == CountOrElse(optRows, 4) && cols == CountOrElse(optCols, 4)
      ensures colWidths == seq(cols, _ => OrElse(optColWidth, 100.0))
      ensures rowHeights == seq(rows, _ => OrElse(optRowHeight, 40.0))
      ensures defaultStyles == InitialStyle && data == InitialGrid(rows, cols, InitialStyle)
      ensures !isEditing && selectedCells == [] && resizing.None? && !isDragging
    {
      left := OrElse(optLeft, 100.0);
      top := OrElse(optTop, 100.0);
      rows := CountOrElse(optRows, 4);
      cols := CountOrElse(optCols, 4);
      colWidths := seq(CountOrElse(optCols, 4), _ => OrElse(optColWidth, 100.0));
      rowHeights := seq(CountOrElse(optRows, 4), _ => OrElse(optRowHeight, 40.0));
      defaultStyles := InitialStyle;
      isEditing := false;
      data := [];
      selectedCells := [];
      resizing := None;
      isDragging := false;
      selectionStart := None;
      new;
      InitData();
      RenderGroupMode();
      InitialGridTiles(rows, cols, defaultStyles);
    }

    /** Builds the rows x cols table of single cells "R<r+1>C<c+1>" in the default style. */
    method InitData()
      requires 0 <= rows && 0 <= cols
      modifies this`data
      ensures data == InitialGrid(rows, cols, defaultStyles)
    {
      var st := defaultStyles;
      data := [];
      var r := 0;
      while r < rows
        invariant 0 <= r <= rows
        invariant data == InitialGrid(r, cols, st)
      {
        var rowData: seq<Cell> := [];
        var c := 0;
        while c < cols
          invariant 0 <= c <= cols
          invariant |rowData| == c && forall j :: 0 <= j < c ==> rowData[j] == InitialCell(r, j, st)
        {
          rowData := rowData + [InitialCell(r, c, st)];
          c := c + 1;
        }
        ghost var next := InitialGrid(r + 1, cols, st);
        assert next[r] == rowData;
        assert forall a :: 0 <= a < r ==> next[a] == data[a];
        data := data + [rowData];
        r := r + 1;
      }
    }

    /** Applies the edit to every cell inside `b`, row by row and left to right,
        as the nested loops over a rectangle of the table do. */
    method UpdateBox(b: Box, edit: CellEdit)
      requires Shaped(data, rows, cols)
      requires 0 <= b.minR <= b.maxR + 1 <= rows && 0 <= b.minC <= b.maxC + 1 <= cols
      modifies this`data
      ensures data == BoxUpdated(old(data), b, edit)
    {
      ghost var d0 := data;
      ghost var target := BoxUpdated(d0, b, edit);
      var r := b.minR;
      while r <= b.maxR
        invariant b.minR <= r <= b.maxR + 1
        invariant |data| == |d0|
        invariant forall a :: 0 <= a < |d0| ==> data[a] == (if b.minR <= a < r then target[a] else d0[a])
      {
        var row := data[r];
        var c := b.minC;
        while c <= b.maxC
          invariant b.minC <= c <= b.maxC + 1
          invariant |row| == cols
          invariant forall j :: 0 <= j < cols ==> row[j] == (if b.minC <= j < c then target[r][j] else d0[r][j])
        {
          row := row[c := Edited(edit, row[c], r, c)];
          c := c + 1;
        }
        assert forall j :: 0 <= j < cols ==> row[j] == target[r][j];
        assert row == target[r];
        data := data[r := row];
        r := r + 1;
      }
      forall a | 0 <= a < |d0|
        ensures data[a] == target[a]
      {
        if !(b.minR <= a <= b.maxR) {
          assert forall j :: 0 <= j < |d0[a]| ==> !InBox(b, a, j);
        }
      }
    }

    /** Turns every cell into a visible single cell. */
    method ResetMerges()
      requires 0 <= rows && 0 <= cols && Shaped(data, rows, cols)
      modifies this`data
      ensures data == Cleared(old(data), Whole(rows, cols))
    {
      UpdateBox(Whole(rows, cols), Unmerge);
      BoxUnmergeIsCleared(old(data), Whole(rows, cols));
    }

    /** Entering browsing mode: the editing flag and the selection are cleared. */
    method RenderGroupMode()
      modifies this`isEditing, this`selectedCells
      ensures !isEditing && selectedCells == []
    {
      isEditing := false;
      selectedCells := [];
    }

    /** A double-click on the table group: switch to editing mode, taking
        the group's position as the table's. */
    method EnterEditMode(groupLeft: real, groupTop: real)
      requires Valid()
      modifies this`isEditing, this`left, this`top
      ensures Valid()
      ensures old(isEditing) ==> isEditing && left == old(left) && top == old(top)
      ensures !old(isEditing) ==> isEditing && left == groupLeft && top == groupTop
    {
      if isEditing {
        return;
      }
      isEditing := true;
      left := groupLeft;
      top := groupTop;
    }

    /** Leaving editing mode: the selection is dropped and the table goes back to browsing. */
    method ExitEditMode()
      requires Valid()
      modifies this`isEditing, this`selectedCells
      ensures Valid() && !isEditing && selectedCells == []
    {
      if !isEditing {
        return;
      }
      selectedCells := [];
      RenderGroupMode();
    }

    /** The hit test: the cell record under (x, y), by walking the
        cumulative column widths and row heights over half-open slots. */
    method GetCellAtPoint(x: real, y: real) returns (cell: Option<Cell>)
      requires Valid()
      ensures cell == CellAt(data, left, top, colWidths, rowHeights, x, y)
    {
      if !InTableBounds(left, top, colWidths, rowHeights, x, y) {
        return None;
      }
      var relX := x - left;
      var relY := y - top;
      var c := -1;
      var accumW := 0.0;
      var i := 0;
      while i < cols
        invariant 0 <= i <= cols && c == -1
        invariant accumW == Offset(colWidths, i)
        invariant forall j :: 0 <= j < i ==> !InSlot(colWidths, j, relX)
      {
        if relX >= accumW && relX < accumW + colWidths[i] {
          assert InSlot(colWidths, i, relX);
          c := i;
          break;
        }
        OffsetStep(colWidths, i);
        accumW := accumW + colWidths[i];
        i := i + 1;
      }
      assert c == -1 ==> Slot(colWidths, relX).None?;
      assert c != -1 ==> Slot(colWidths, relX) == Some(c);
      var r := -1;
      var accumH := 0.0;
      i := 0;
      while i < rows
        invariant 0 <= i <= rows && r == -1
        invariant accumH == Offset(rowHeights, i)
        invariant forall j :: 0 <= j < i ==> !InSlot(rowHeights, j, relY)
      {
        if relY >= accumH && relY < accumH + rowHeights[i] {
          assert InSlot(rowHeights, i, relY);
          r := i;
          break;
        }
        OffsetStep(rowHeights, i);
        accumH := accumH + rowHeights[i];
        i := i + 1;
      }
      assert r == -1 ==> Slot(rowHeights, relY).None?;
      assert r != -1 ==> Slot(rowHeights, relY) == Some(r);
      if r != -1 && c != -1 {
        return Some(data[r][c]);
      }
      return None;
    }

    /** The resize handle under (x, y): the first column line within 8 px,
        while y is strictly inside the table's height; then the first row
        line, while x is strictly inside its width. */
    method GetResizeTarget(x: real, y: real) returns (t: Option<ResizeInfo>)
      requires Valid()
      ensures t == ResizeTargetAt(left, top, colWidths, rowHeights, x, y)
    {
      var cx := left;
      var c := 0;
      while c < cols
        invariant 0 <= c <= cols
        invariant cx == left + Offset(colWidths, c)
        invariant top < y < top + TableHeight(rowHeights) ==> forall j :: 0 <= j < c ==> !NearLine(colWidths, left, j, x)
      {
        OffsetStep(colWidths, c);
        cx := cx + colWidths[c];
        if Abs(x - cx) < Tolerance && y > top && y < top + TableHeight(rowHeights) {
          assert NearLine(colWidths, left, c, x);
          assert LineFrom(colWidths, left, x, 0) == Some(c);
          return Some(ResizeInfo(ColAxis, c, x, colWidths[c]));
        }
        c := c + 1;
      }
      assert NoColumnHandle(left, top, colWidths, rowHeights, x, y);
      var cy := top;
      var r := 0;
      while r < rows
        invariant 0 <= r <= rows
        invariant cy == top + Offset(rowHeights, r)
        invariant left < x < left + TableWidth(colWidths) ==> forall j :: 0 <= j < r ==> !NearLine(rowHeights, top, j, y)
      {
        OffsetStep(rowHeights, r);
        cy := cy + rowHeights[r];
        if Abs(y - cy) < Tolerance && x > left && x < left + TableWidth(colWidths) {
          assert NearLine(rowHeights, top, r, y);
          assert LineFrom(rowHeights, top, y, 0) == Some(r);
          return Some(ResizeInfo(RowAxis, r, y, rowHeights[r]));
        }
        r := r + 1;
      }
      return None;
    }

    /** A mouse move during a resize gesture: the grabbed column width (row
        height) becomes the size at the start plus the mouse's travel,
        floored at 20 px; nothing else changes. */
    method PerformResize(px: real, py: real)
      requires Valid()
      modifies this`colWidths, this`rowHeights
      ensures Valid()
      ensures resizing.None? ==> colWidths == old(colWidths) && rowHeights == old(rowHeights)
      ensures resizing.Some? && resizing.value.axis == ColAxis ==>
        colWidths == old(colWidths)[resizing.value.index := Resized(resizing.value.size, resizing.value.start, px)]
        && rowHeights == old(rowHeights)
      ensures resizing.Some? && resizing.value.axis == RowAxis ==>
        rowHeights == old(rowHeights)[resizing.value.index := Resized(resizing.value.size, resizing.value.start, py)]
        && colWidths == old(colWidths)
    {
      if resizing.None? {
        return;
      }
      var info := resizing.value;
      if info.axis == ColAxis {
        var w := Resized(info.size, info.start, px);
        colWidths := colWidths[info.index := w];
      } else {
        var h := Resized(info.size, info.start, py);
        rowHeights := rowHeights[info.index := h];
      }
    }

    /** The drag selection: every visible cell whose covered rectangle meets
        the box between the two cells, in row-major order; the table is not
        changed. */
    method UpdateSelection(start: Cell, end: Cell)
      requires Valid() && isEditing
      modifies this`selectedCells
      ensures Valid()
      ensures selectedCells == Selected(data, DragBox(start, end))
    {
      selectedCells := ScanTable(data, rows, cols, DragBox(start, end));
      forall k | 0 <= k < |selectedCells|
        ensures Selectable(data, selectedCells[k])
      {
        assert selectedCells[k] in selectedCells;
      }
    }

    /** Merging the selection: with two or more selected cells, the box
        holding all their rectangles becomes one block whose master is its
        top-left cell, the other cells in it are hidden, and the selection
        becomes the master. */
    method Merge()
      requires Valid()
      modifies this`data, this`selectedCells
      ensures Valid()
      ensures |old(selectedCells)| < 2 ==> data == old(data) && selectedCells == old(selectedCells)
      ensures |old(selectedCells)| >= 2 ==>
        var bx := SelectionBox(old(data), old(selectedCells));
        data == Merged(old(data), bx) && selectedCells == [Pos(bx.minR, bx.minC)]
      ensures (|old(selectedCells)| >= 2 && Tiles(old(data), rows, cols)
               && NoCut(old(data), SelectionBox(old(data), old(selectedCells)))) ==> Tiles(data, rows, cols)
    {
      if |selectedCells| < 2 {
        return;
      }
      ghost var d0 := data;
      var bx := MergeBounds(data, rows, cols, selectedCells);
      MergeBlock(bx);
      selectedCells := [Pos(bx.minR, bx.minC)];
      MergeFacts(d0, rows, cols, bx);
    }

    /** Makes the box one block: its top-left cell becomes the master,
        spanning the box, and every other cell in it is hidden. */
    method MergeBlock(bx: Box)
      requires Shaped(data, rows, cols)
      requires 0 <= bx.minR <= bx.maxR < rows && 0 <= bx.minC <= bx.maxC < cols
      modifies this`data
      ensures data == Merged(old(data), bx)
    {
      var minR, minC, maxR, maxC := bx.minR, bx.minC, bx.maxR, bx.maxC;
      var master := data[minR][minC];
      data := data[minR := data[minR][minC := master.(rowspan := maxR - minR + 1, colspan := maxC - minC + 1, hidden := false)]];
      UpdateBox(bx, Absorb(Pos(minR, minC)));
      MergeSteps(old(data), rows, cols, bx);
    }

    /** Re-stamps every cell's row index with its row. */
    method StampRows()
      requires 0 <= rows && 0 <= cols && Shaped(data, rows, cols)
      modifies this`data
      ensures data == RowsStamped(old(data))
    {
      UpdateBox(Whole(rows, cols), StampRow);
      BoxStampRowsIsRowsStamped(old(data), rows, cols);
    }

    /** Re-stamps every cell's column index with its column. */
    method StampCols()
      requires 0 <= rows && 0 <= cols && Shaped(data, rows, cols)
      modifies this`data
      ensures data == ColsStamped(old(data))
    {
      UpdateBox(Whole(rows, cols), StampCol);
      BoxStampColsIsColsStamped(old(data), rows, cols);
    }

    /** Splitting the selected cell: with exactly one cell selected, every
        cell of its rectangle becomes a visible single cell. */
    method Split()
      requires Valid()
      modifies this`data
      ensures Valid()
      ensures |selectedCells| != 1 ==> data == old(data)
      ensures |selectedCells| == 1 ==> data == Cleared(old(data), SpanBox(At(old(data), selectedCells[0])))
      ensures Tiles(old(data), rows, cols) ==> Tiles(data, rows, cols)
    {
      if |selectedCells| != 1 {
        return;
      }
      ghost var d0 := data;
      var cell := At(data, selectedCells[0]);
      assert Fits(cell, rows, cols);
      UpdateBox(SpanBox(cell), Unmerge);
      SplitFacts(d0, rows, cols, selectedCells);
    }

    /** Splices a blank cell in the given style into every row at `index`. */
    method InsertColumnCells(index: int, st: Style)
      requires 0 <= index <= cols && Shaped(data, rows, cols)
      modifies this`data
      ensures data == ColSpliced(old(data), index, cols, st)
    {
      ghost var d0 := data;
      var r := 0;
      while r < |data|
        invariant 0 <= r <= |data| == |d0|
        invariant forall a :: 0 <= a < |d0| ==> data[a] == (if a < r then Inserted(d0[a], index, BlankCell(a, index, st)) else d0[a])
      {
        data := data[r := Inserted(data[r], index, BlankCell(r, index, st))];
        r := r + 1;
      }
      assert forall a :: 0 <= a < |d0| ==> data[a] == ColSpliced(d0, index, cols, st)[a];
    }

    /** Splices the cell at `index` out of every row. */
    method RemoveColumnCells(index: int)
      requires 0 <= index < cols && Shaped(data, rows, cols)
      modifies this`data
      ensures data == ColCut(old(data), index, cols)
    {
      ghost var d0 := data;
      var r := 0;
      while r < |data|
        invariant 0 <= r <= |data| == |d0|
        invariant forall a :: 0 <= a < |d0| ==> data[a] == (if a < r then Removed(d0[a], index) else d0[a])
      {
        data := data[r := Removed(data[r], index)];
        r := r + 1;
      }
      assert forall a :: 0 <= a < |d0| ==> data[a] == ColCut(d0, index, cols)[a];
    }

    /** Inserting a row (column) at `index`: blank cells and a 40 px row
        (100 px column) are spliced in, indices are re-stamped, every merge
        is cleared and the table goes back to browsing. */
    method ModifyStructure(axis: Axis, index: int)
      requires Valid()
      requires 0 <= index <= (if axis == RowAxis then rows else cols)
      modifies this`data, this`rowHeights, this`colWidths, this`rows, this`cols, this`isEditing, this`selectedCells
      ensures Valid() && Tiles(data, rows, cols)
      ensures !isEditing && selectedCells == []
      ensures axis == RowAxis ==>
        && rows == old(rows) + 1 && cols == old(cols)
        && rowHeights == Inserted(old(rowHeights), index, NewRowHeight) && colWidths == old(colWidths)
        && data == RowInserted(old(data), index, cols, defaultStyles)
      ensures axis == ColAxis ==>
        && cols == old(cols) + 1 && rows == old(rows)
        && colWidths == Inserted(old(colWidths), index, NewColWidth) && rowHeights == old(rowHeights)
        && data == ColInserted(old(data), index, old(cols), defaultStyles)
    {
      if axis == RowAxis {
        InsertRow(index);
      } else {
        InsertCol(index);
      }
      RenderGroupMode();
    }

    /** The row half of the structural insert, before the mode change. */
    method InsertRow(index: int)
      requires Valid() && 0 <= index <= rows
      modifies this`data, this`rowHeights, this`rows, this`selectedCells
      ensures Valid() && Tiles(data, rows, cols) && selectedCells == []
      ensures rows == old(rows) + 1 && rowHeights == Inserted(old(rowHeights), index, NewRowHeight)
      ensures data == RowInserted(old(data), index, cols, defaultStyles)
    {
      ghost var d0 := data;
      InsertRowCells(index, defaultStyles);
      InsertedSizesPositive(rowHeights, index, NewRowHeight);
      rowHeights := Inserted(rowHeights, index, NewRowHeight);
      selectedCells := [];
      RowInsertFacts(d0, index, cols, defaultStyles);
    }

    /** Splices a blank row in at `index`, re-stamps and clears every merge. */
    method InsertRowCells(index: int, st: Style)
      requires 0 <= index <= rows && 0 <= cols && Shaped(data, rows, cols) && Stamped(data)
      modifies this`data, this`rows
      ensures rows == old(rows) + 1
      ensures data == RowInserted(old(data), index, cols, st)
    {
      ghost var d0 := data;
      data := Inserted(data, index, BlankRow(index, cols, st));
      rows := rows + 1;
      StampRows();
      ResetMerges();
      RowInsertSteps(d0, index, cols, st);
    }

    /** The column half of the structural insert, before the mode change. */
    method InsertCol(index: int)
      requires Valid() && 0 <= index <= cols
      modifies this`data, this`colWidths, this`cols, this`selectedCells
      ensures Valid() && Tiles(data, rows, cols) && selectedCells == []
      ensures cols == old(cols) + 1 && colWidths == Inserted(old(colWidths), index, NewColWidth)
      ensures data == ColInserted(old(data), index, old(cols), defaultStyles)
    {
      ghost var d0 := data;
      InsertColCells(index, defaultStyles);
      InsertedSizesPositive(colWidths, index, NewColWidth);
      colWidths := Inserted(colWidths, index, NewColWidth);
      selectedCells := [];
      ColInsertFacts(d0, index, cols - 1, defaultStyles);
    }

    /** Splices a blank column in at `index`, re-stamps and clears every merge. */
    method InsertColCells(index: int, st: Style)
      requires 0 <= index <= cols && 0 <= rows && Shaped(data, rows, cols) && Stamped(data)
      modifies this`data, this`cols
      ensures cols == old(cols) + 1
      ensures data == ColInserted(old(data), index, old(cols), st)
    {
      ghost var d0 := data;
      InsertColumnCells(index, st);
      cols := cols + 1;
      StampCols();
      ResetMerges();
      ColInsertSteps(d0, index, cols - 1, st);
    }

    /** A plus button: a row on top or at the bottom, a column on the left or right. */
    method HandlePlusClick(button: PlusButton)
      requires Valid()
      modifies this`data, this`rowHeights, this`colWidths, this`rows, this`cols, this`isEditing, this`selectedCells
      ensures Valid() && Tiles(data, rows, cols)
      ensures !isEditing && selectedCells == []
      ensures data == PlusEdited(old(data), old(rows), old(cols), button, defaultStyles)
      ensures button == TopButton || button == BottomButton ==> rows == old(rows) + 1 && cols == old(cols)
      ensures button == LeftButton || button == RightButton ==> cols == old(cols) + 1 && rows == old(rows)
      ensures button == TopButton ==>
        rowHeights == Inserted(old(rowHeights), 0, NewRowHeight) && colWidths == old(colWidths)
      ensures button == BottomButton ==>
        rowHeights == Inserted(old(rowHeights), old(rows), NewRowHeight) && colWidths == old(colWidths)
      ensures button == LeftButton ==>
        colWidths == Inserted(old(colWidths), 0, NewColWidth) && rowHeights == old(rowHeights)
      ensures button == RightButton ==>
        colWidths == Inserted(old(colWidths), old(cols), NewColWidth) && rowHeights == old(rowHeights)
    {
      match button
      case TopButton => ModifyStructure(RowAxis, 0);
      case BottomButton => ModifyStructure(RowAxis, rows);
      case LeftButton => ModifyStructure(ColAxis, 0);
      case RightButton => ModifyStructure(ColAxis, cols);
    }

    /** A mouse-down: a plus button inserts a row or column; otherwise,
        with no text editor open and in editing mode, a resize handle
        starts a resize, a point outside the bounds leaves editing mode,
        and a cell under the point starts a drag selection on that cell. */
    method HandleMouseDown(x: real, y: real, plus: Option<PlusButton>, textEditing: bool) returns (act: MouseDownAction)
      requires Valid()
      modifies this`data, this`rowHeights, this`colWidths, this`rows, this`cols, this`isEditing,
               this`selectedCells, this`resizing, this`isDragging, this`selectionStart
      ensures Valid()
      ensures act == MouseDownDecision(old(isEditing), plus, textEditing,
        ResizeTargetAt(left, top, old(colWidths), old(rowHeights), x, y),
        InTableBounds(left, top, old(colWidths), old(rowHeights), x, y),
        CellAt(old(data), left, top, old(colWidths), old(rowHeights), x, y))
      ensures act.PressPlus? ==>
        && Tiles(data, rows, cols) && !isEditing && selectedCells == []
        && data == PlusEdited(old(data), old(rows), old(cols), act.button, defaultStyles)
        && resizing == old(resizing) && isDragging == old(isDragging) && selectionStart == old(selectionStart)
      ensures act == PressPlus(TopButton) ==>
        rowHeights == Inserted(old(rowHeights), 0, NewRowHeight) && colWidths == old(colWidths)
      ensures act == PressPlus(BottomButton) ==>
        rowHeights == Inserted(old(rowHeights), old(rows), NewRowHeight) && colWidths == old(colWidths)
      ensures act == PressPlus(LeftButton) ==>
        colWidths == Inserted(old(colWidths), 0, NewColWidth) && rowHeights == old(rowHeights)
      ensures act == PressPlus(RightButton) ==>
        colWidths == Inserted(old(colWidths), old(cols), NewColWidth) && rowHeights == old(rowHeights)
      ensures !act.PressPlus? ==>
        && data == old(data) && rows == old(rows) && cols == old(cols)
        && colWidths == old(colWidths) && rowHeights == old(rowHeights)
      ensures act == IgnoreWhileTextEditing || act == IgnoreWhileBrowsing || act == NoAction ==>
        && isEditing == old(isEditing) && selectedCells == old(selectedCells)
        && resizing == old(resizing) && isDragging == old(isDragging) && selectionStart == old(selectionStart)
      ensures act.StartResize? ==>
        && resizing == Some(act.info) && isEditing && selectedCells == old(selectedCells)
        && isDragging == old(isDragging) && selectionStart == old(selectionStart)
      ensures act == LeaveEditing ==>
        && !isEditing && selectedCells == []
        && resizing == old(resizing) && isDragging == old(isDragging) && selectionStart == old(selectionStart)
      ensures act.StartDrag? ==>
        && isDragging && selectionStart == Some(act.cell) && isEditing && resizing == old(resizing)
        && selectedCells == Selected(data, DragBox(act.cell, act.cell))
    {
      if plus.Some? {
        HandlePlusClick(plus.value);
        return PressPlus(plus.value);
      }
      if textEditing {
        return IgnoreWhileTextEditing;
      }
      if !isEditing {
        return IgnoreWhileBrowsing;
      }
      act := PressWhileEditing(x, y);
    }

    /** The part of a mouse-down that runs in editing mode. */
    method PressWhileEditing(x: real, y: real) returns (act: MouseDownAction)
      requires Valid() && isEditing
      modifies this`isEditing, this`selectedCells, this`resizing, this`isDragging, this`selectionStart
      ensures Valid()
      ensures act == EditingPress(data, left, top, colWidths, rowHeights, x, y)
      ensures act == NoAction ==>
        && isEditing && selectedCells == old(selectedCells)
        && resizing == old(resizing) && isDragging == old(isDragging) && selectionStart == old(selectionStart)
      ensures act.StartResize? ==>
        && resizing == Some(act.info) && isEditing && selectedCells == old(selectedCells)
        && isDragging == old(isDragging) && selectionStart == old(selectionStart)
      ensures act == LeaveEditing ==>
        && !isEditing && selectedCells == []
        && resizing == old(resizing) && isDragging == old(isDragging) && selectionStart == old(selectionStart)
      ensures act.StartDrag? ==>
        && isDragging && selectionStart == Some(act.cell) && isEditing && resizing == old(resizing)
        && selectedCells == Selected(data, DragBox(act.cell, act.cell))
    {
      var info := GetResizeTarget(x, y);
      ghost var inside := InTableBounds(left, top, colWidths, rowHeights, x, y);
      assert EditingPress(data, left, top, colWidths, rowHeights, x, y)
        == MouseDownDecision(true, None, false, info, inside, CellAt(data, left, top, colWidths, rowHeights, x, y));
      if info.Some? {
        resizing := info;
        return StartResize(info.value);
      }
      if !InTableBounds(left, top, colWidths, rowHeights, x, y) {
        ExitEditMode();
        return LeaveEditing;
      }
      var cell := GetCellAtPoint(x, y);
      if cell.Some? {
        BeginDrag(cell.value);
        return StartDrag(cell.value);
      }
      return NoAction;
    }

    /** Anchors a drag at `cell` and selects what its own rectangle meets. */
    method BeginDrag(cell: Cell)
      requires Valid() && isEditing
      modifies this`isDragging, this`selectionStart, this`selectedCells
      ensures Valid() && isDragging && selectionStart == Some(cell)
      ensures selectedCells == Selected(data, DragBox(cell, cell))
    {
      isDragging := true;
      selectionStart := Some(cell);
      UpdateSelection(cell, cell);
    }

    /** A mouse move in editing mode: during a resize the grabbed size
        follows the mouse; during a drag the selection runs from the
        anchor to the cell under the mouse, when there is one; otherwise
        the cursor shows whether a resize handle is under the mouse. */
    method HandleMouseMove(x: real, y: real) returns (cursor: Option<Cursor>)
      requires Valid()
      modifies this`colWidths, this`rowHeights, this`selectedCells
      ensures Valid() && data == old(data)
      ensures !isEditing ==>
        cursor.None? && colWidths == old(colWidths) && rowHeights == old(rowHeights) && selectedCells == old(selectedCells)
      ensures isEditing && resizing.Some? ==> cursor.None? && selectedCells == old(selectedCells)
      ensures isEditing && resizing.Some? && resizing.value.axis == ColAxis ==>
        colWidths == old(colWidths)[resizing.value.index := Resized(resizing.value.size, resizing.value.start, x)]
        && rowHeights == old(rowHeights)
      ensures isEditing && resizing.Some? && resizing.value.axis == RowAxis ==>
        rowHeights == old(rowHeights)[resizing.value.index := Resized(resizing.value.size, resizing.value.start, y)]
        && colWidths == old(colWidths)
      ensures isEditing && resizing.None? ==> colWidths == old(colWidths) && rowHeights == old(rowHeights)
      ensures isEditing && resizing.None? && isDragging ==>
        && cursor.None?
        && selectedCells == match CellAt(data, left, top, colWidths, rowHeights, x, y)
             case Some(cell) => Selected(data, DragBox(selectionStart.value, cell))
             case None => old(selectedCells)
      ensures isEditing && resizing.None? && !isDragging ==>
        && selectedCells == old(selectedCells)
        && cursor == Some(CursorFor(ResizeTargetAt(left, top, colWidths, rowHeights, x, y)))
    {
      if !isEditing {
        return None;
      }
      if resizing.Some? {
        PerformResize(x, y);
        return None;
      }
      if isDragging {
        var cell := GetCellAtPoint(x, y);
        if cell.Some? {
          UpdateSelection(selectionStart.value, cell.value);
        }
        return None;
      }
      var info := GetResizeTarget(x, y);
      return Some(CursorFor(info));
    }

    /** A mouse-up ends any drag and any resize, then opens the cell menu
        or the table menu. */
    method HandleMouseUp(groupActive: bool, targetIsGroup: bool) returns (menu: Option<Menu>)
      requires Valid()
      modifies this`isDragging, this`resizing
      ensures Valid() && !isDragging && resizing.None?
      ensures menu == MouseUpMenu(isEditing, |selectedCells|, groupActive, targetIsGroup)
    {
      isDragging := false;
      resizing := None;
      if isEditing && |selectedCells| > 0 {
        return Some(CellMenu);
      } else if !isEditing && groupActive {
        if targetIsGroup {
          return Some(TableMenu);
        }
      }
      return None;
    }

    /** Changing one style property: in editing mode on the selected cells
        only; while browsing on every cell and on the defaults new cells
        take, after which the table is shown in browsing mode. */
    method ApplyStyle(ch: StyleChange)
      requires Valid()
      modifies this`data, this`defaultStyles, this`isEditing, this`selectedCells
      ensures Valid()
      ensures old(isEditing) ==>
        && data == Restyled(old(data), Elements(old(selectedCells)), ch)
        && defaultStyles == old(defaultStyles) && isEditing && selectedCells == old(selectedCells)
      ensures !old(isEditing) ==>
        && data == Restyled(old(data), AllPositions(rows, cols), ch)
        && defaultStyles == Restyle(old(defaultStyles), ch) && !isEditing && selectedCells == []
      ensures Tiles(old(data), rows, cols) ==> Tiles(data, rows, cols)
    {
      ghost var d0 := data;
      if isEditing {
        RestyleSelection(ch);
        RestyleFacts(d0, rows, cols, selectedCells, Elements(selectedCells), ch);
      } else {
        RestyleAll(ch);
        defaultStyles := Restyle(defaultStyles, ch);
        RestyleFacts(d0, rows, cols, selectedCells, AllPositions(rows, cols), ch);
        RenderGroupMode();
      }
    }

    /** Restyles the selected cells, one after the other. */
    method RestyleSelection(ch: StyleChange)
      requires Sound(data, rows, cols, selectedCells)
      modifies this`data
      ensures data == Restyled(old(data), Elements(selectedCells), ch)
    {
      ghost var d0 := data;
      assert Elements(selectedCells[..0]) == {};
      RestyledNothing(d0, ch);
      var k := 0;
      while k < |selectedCells|
        invariant 0 <= k <= |selectedCells|
        invariant data == Restyled(d0, Elements(selectedCells[..k]), ch)
      {
        var p := selectedCells[k];
        assert Selectable(d0, p);
        RestyledStep(d0, Elements(selectedCells[..k]), p, ch);
        assert Elements(selectedCells[..k + 1]) == Elements(selectedCells[..k]) + {p} by {
          assert selectedCells[..k + 1] == selectedCells[..k] + [p];
        }
        data := data[p.r := data[p.r][p.c := data[p.r][p.c].(style := Restyle(data[p.r][p.c].style, ch))]];
        k := k + 1;
      }
      assert selectedCells[..k] == selectedCells;
    }

    /** Restyles every cell of the table. */
    method RestyleAll(ch: StyleChange)
      requires 0 <= rows && 0 <= cols && Shaped(data, rows, cols)
      modifies this`data
      ensures data == Restyled(old(data), AllPositions(rows, cols), ch)
    {
      UpdateBox(Whole(rows, cols), RestyleCell(ch));
      BoxRestyleIsRestyled(old(data), rows, cols, ch);
    }

    /** Resetting the styles: the defaults and every cell take the
        hard-coded style, and the table is shown in browsing mode. */
    method ResetStyles()
      requires Valid()
      modifies this`data, this`defaultStyles, this`isEditing, this`selectedCells
      ensures Valid() && !isEditing && selectedCells == []
      ensures defaultStyles == HardcodedStyle && data == AllStyled(old(data), HardcodedStyle)
      ensures Tiles(old(data), rows, cols) ==> Tiles(data, rows, cols)
    {
      ghost var d0 := data;
      defaultStyles := HardcodedStyle;
      UpdateBox(Whole(rows, cols), ResetStyle);
      BoxResetIsAllStyled(d0, rows, cols);
      AllStyledFacts(d0, rows, cols, selectedCells, HardcodedStyle);
      RenderGroupMode();
    }

    /** Removing the row of the first selected cell: the row and its height
        are spliced out, indices re-stamped, every merge cleared and the
        selection dropped. Nothing happens without a selection. Nothing
        stops the last row from going. */
    method RemoveRow()
      requires Valid() && resizing.None?
      modifies this`data, this`rowHeights, this`rows, this`selectedCells
      ensures Valid()
      ensures old(selectedCells) == [] ==>
        && data == old(data) && rows == old(rows) && rowHeights == old(rowHeights)
        && selectedCells == old(selectedCells)
      ensures old(selectedCells) != [] ==>
        var target := old(selectedCells)[0].r;
        && rows == old(rows) - 1 && rowHeights == Removed(old(rowHeights), target)
        && data == RowRemoved(old(data), target, cols) && selectedCells == []
        && Tiles(data, rows, cols)
    {
      if |selectedCells| == 0 {
        return;
      }
      ghost var d0 := data;
      var targetR := selectedCells[0].r;
      RemoveRowCells(targetR);
      RemovedSizesPositive(rowHeights, targetR);
      rowHeights := Removed(rowHeights, targetR);
      selectedCells := [];
      RowRemoveFacts(d0, targetR, cols);
    }

    /** Splices row `index` out, re-stamps and clears every merge. */
    method RemoveRowCells(index: int)
      requires 0 <= index < rows && 0 <= cols && Shaped(data, rows, cols) && Stamped(data)
      modifies this`data, this`rows
      ensures rows == old(rows) - 1
      ensures data == RowRemoved(old(data), index, cols)
    {
      ghost var d0 := data;
      data := Removed(data, index);
      rows := rows - 1;
      StampRows();
      ResetMerges();
      RowRemoveSteps(d0, index, cols);
    }

    /** Removing the column of the first selected cell. */
    method RemoveCol()
      requires Valid() && resizing.None?
      modifies this`data, this`colWidths, this`cols, this`selectedCells
      ensures Valid()
      ensures old(selectedCells) == [] ==>
        && data == old(data) && cols == old(cols) && colWidths == old(colWidths)
        && selectedCells == old(selectedCells)
      ensures old(selectedCells) != [] ==>
        var target := old(selectedCells)[0].c;
        && cols == old(cols) - 1 && colWidths == Removed(old(colWidths), target)
        && data == ColRemoved(old(data), target, old(cols)) && selectedCells == []
        && Tiles(data, rows, cols)
    {
      if |selectedCells| == 0 {
        return;
      }
      ghost var d0 := data;
      var targetC := selectedCells[0].c;
      RemoveColCells(targetC);
      RemovedSizesPositive(colWidths, targetC);
      colWidths := Removed(colWidths, targetC);
      selectedCells := [];
      ColRemoveFacts(d0, targetC, cols + 1);
    }

    /** Splices column `index` out of every row, re-stamps and clears every merge. */
    method RemoveColCells(index: int)
      requires 0 <= index < cols && 0 <= rows && Shaped(data, rows, cols) && Stamped(data)
      modifies this`data, this`cols
      ensures cols == old(cols) - 1
      ensures data == ColRemoved(old(data), index, old(cols))
    {
      ghost var d0 := data;
      RemoveColumnCells(index);
      cols := cols - 1;
      StampCols();
      ResetMerges();
      ColRemoveSteps(d0, index, cols + 1);
    }
  }

  // ---------------------------------------------------------------------
  // The box loops compute the value-level updates

  /** Splicing a size out, or a positive size in, keeps every size positive. */
  /** Splicing a size out of a positive size list keeps it positive. */
  lemma {:induction false} RemovedSizesPositive(s: seq<real>, i: int)
    requires Positive(s)
    ensures 0 <= i < |s| ==> Positive(Removed(s, i))
  {
  }

  /** Splicing a positive size into a positive size list keeps it positive. */
  lemma {:induction false} InsertedSizesPositive(s: seq<real>, i: int, v: real)
    requires Positive(s) && v > 0.0
    ensures 0 <= i <= |s| ==> Positive(Inserted(s, i, v))
  {
  }

  lemma {:induction false} BoxUnmergeIsCleared(d: Table, b: Box)
    ensures BoxUpdated(d, b, Unmerge) == Cleared(d, b)
  {
    var lhs, rhs := BoxUpdated(d, b, Unmerge), Cleared(d, b);
    forall a | 0 <= a < |d|
      ensures lhs[a] == rhs[a]
    {
    }
  }

  lemma {:induction false} BoxStampRowsIsRowsStamped(d: Table, rows: int, cols: int)
    requires Shaped(d, rows, cols)
    ensures BoxUpdated(d, Whole(rows, cols), StampRow) == RowsStamped(d)
  {
    var lhs, rhs := BoxUpdated(d, Whole(rows, cols), StampRow), RowsStamped(d);
    forall a | 0 <= a < |d|
      ensures lhs[a] == rhs[a]
    {
      forall c | 0 <= c < cols
        ensures lhs[a][c] == rhs[a][c]
      {
        assert InBox(Whole(rows, cols), a, c);
      }
    }
  }

  lemma {:induction false} BoxStampColsIsColsStamped(d: Table, rows: int, cols: int)
    requires Shaped(d, rows, cols)
    ensures BoxUpdated(d, Whole(rows, cols), StampCol) == ColsStamped(d)
  {
    var lhs, rhs := BoxUpdated(d, Whole(rows, cols), StampCol), ColsStamped(d);
    forall a | 0 <= a < |d|
      ensures lhs[a] == rhs[a]
    {
      forall c | 0 <= c < cols
        ensures lhs[a][c] == rhs[a][c]
      {
        assert InBox(Whole(rows, cols), a, c);
      }
    }
  }

  /** Setting the master first and then hiding every other cell of the box
      is merging the box. */
  lemma {:induction false} MergeSteps(d: Table, rows: int, cols: int, bx: Box)
    requires Shaped(d, rows, cols)
    requires 0 <= bx.minR <= bx.maxR < rows && 0 <= bx.minC <= bx.maxC < cols
    ensures var master := d[bx.minR][bx.minC].(rowspan := bx.maxR - bx.minR + 1, colspan := bx.maxC - bx.minC + 1, hidden := false);
      BoxUpdated(d[bx.minR := d[bx.minR][bx.minC := master]], bx, Absorb(Pos(bx.minR, bx.minC))) == Merged(d, bx)
  {
    var master := d[bx.minR][bx.minC].(rowspan := bx.maxR - bx.minR + 1, colspan := bx.maxC - bx.minC + 1, hidden := false);
    var d1 := d[bx.minR := d[bx.minR][bx.minC := master]];
    var lhs, rhs := BoxUpdated(d1, bx, Absorb(Pos(bx.minR, bx.minC))), Merged(d, bx);
    forall a | 0 <= a < |d|
      ensures lhs[a] == rhs[a]
    {
      forall c | 0 <= c < cols
        ensures lhs[a][c] == rhs[a][c]
      {
        assert rhs[a][c] == MergedCell(d[a][c], a, c, bx);
      }
    }
  }

  /** Merging a box inside the grid keeps the cells stamped and their spans
      fitting, and leaves the master visible. */
  lemma {:induction false} MergedValid(d: Table, rows: int, cols: int, bx: Box)
    requires Shaped(d, rows, cols) && Stamped(d) && SpansFit(d, rows, cols)
    requires 0 <= bx.minR <= bx.maxR < rows && 0 <= bx.minC <= bx.maxC < cols
    ensures var e := Merged(d, bx);
      Stamped(e) && SpansFit(e, rows, cols) && !e[bx.minR][bx.minC].hidden
  {
    var e := Merged(d, bx);
    forall a, c | InTable(e, a, c)
      ensures e[a][c].r == a && e[a][c].c == c && Fits(e[a][c], rows, cols)
    {
      assert e[a][c] == MergedCell(d[a][c], a, c, bx);
      assert InTable(d, a, c);
    }
    assert e[bx.minR][bx.minC] == MergedCell(d[bx.minR][bx.minC], bx.minR, bx.minC, bx);
  }

  /** The merged table is sound with the master as the selection and, when
      no block is cut, tiles the grid. */
  lemma {:induction false} MergeFacts(d: Table, rows: int, cols: int, bx: Box)
    requires Shaped(d, rows, cols) && Stamped(d) && SpansFit(d, rows, cols)
    requires 0 <= bx.minR <= bx.maxR < rows && 0 <= bx.minC <= bx.maxC < cols
    ensures Sound(Merged(d, bx), rows, cols, [Pos(bx.minR, bx.minC)])
    ensures Tiles(d, rows, cols) && NoCut(d, bx) ==> Tiles(Merged(d, bx), rows, cols)
  {
    MergedValid(d, rows, cols, bx);
    if Tiles(d, rows, cols) && NoCut(d, bx) {
      MergeKeepsTiling(d, rows, cols, bx);
    }
  }

  /** Clearing merges in a box keeps the cells stamped and their spans
      fitting, and hides no cell. */
  lemma {:induction false} ClearedValid(d: Table, rows: int, cols: int, b: Box)
    requires Shaped(d, rows, cols) && Stamped(d) && SpansFit(d, rows, cols)
    ensures var e := Cleared(d, b);
      && Stamped(e) && SpansFit(e, rows, cols)
      && forall a, c :: InTable(d, a, c) && !d[a][c].hidden ==> !e[a][c].hidden
  {
    var e := Cleared(d, b);
    forall a, c | InTable(e, a, c)
      ensures e[a][c].r == a && e[a][c].c == c && Fits(e[a][c], rows, cols)
      ensures !d[a][c].hidden ==> !e[a][c].hidden
    {
      assert InTable(d, a, c);
    }
  }

  /** What splitting the one selected cell leaves: the box loop computes
      the cleared table, which stays sound with the same selection and
      keeps the tiling. */
  lemma {:induction false} SplitFacts(d: Table, rows: int, cols: int, sel: seq<Pos>)
    requires Sound(d, rows, cols, sel) && |sel| == 1
    ensures var e := Cleared(d, SpanBox(At(d, sel[0])));
      && BoxUpdated(d, SpanBox(At(d, sel[0])), Unmerge) == e
      && Sound(e, rows, cols, sel)
      && (Tiles(d, rows, cols) ==> Tiles(e, rows, cols))
  {
    assert Selectable(d, sel[0]);
    BoxUnmergeIsCleared(d, SpanBox(At(d, sel[0])));
    ClearedValid(d, rows, cols, SpanBox(At(d, sel[0])));
    if Tiles(d, rows, cols) {
      SplitKeepsTiling(d, rows, cols, sel[0]);
    }
  }

  /** What inserting a row leaves: splicing in the blank row, re-stamping
      and clearing every merge give the row-inserted table, which is sound
      with no selection and tiles the grid. */
  lemma {:induction false} RowInsertFacts(d: Table, i: int, cols: int, st: Style)
    requires 0 <= i <= |d| && cols >= 0 && Shaped(d, |d|, cols) && Stamped(d)
    ensures var e := RowInserted(d, i, cols, st);
      && Cleared(RowsStamped(Inserted(d, i, BlankRow(i, cols, st))), Whole(|d| + 1, cols)) == e
      && Sound(e, |d| + 1, cols, []) && Tiles(e, |d| + 1, cols)
  {
    RowInsertSteps(d, i, cols, st);
    RowInsertedFlat(d, i, cols, st);
    FlatTiles(RowInserted(d, i, cols, st), |d| + 1, cols);
  }

  lemma {:induction false} ColInsertFacts(d: Table, i: int, cols: int, st: Style)
    requires 0 <= i <= cols && Shaped(d, |d|, cols) && Stamped(d)
    ensures var e := ColInserted(d, i, cols, st);
      && Cleared(ColsStamped(ColSpliced(d, i, cols, st)), Whole(|d|, cols + 1)) == e
      && Sound(e, |d|, cols + 1, []) && Tiles(e, |d|, cols + 1)
  {
    ColInsertSteps(d, i, cols, st);
    ColInsertedFlat(d, i, cols, st);
    FlatTiles(ColInserted(d, i, cols, st), |d|, cols + 1);
  }

  lemma {:induction false} RowRemoveFacts(d: Table, i: int, cols: int)
    requires 0 <= i < |d| && cols >= 0 && Shaped(d, |d|, cols) && Stamped(d)
    ensures var e := RowRemoved(d, i, cols);
      && Cleared(RowsStamped(Removed(d, i)), Whole(|d| - 1, cols)) == e
      && Sound(e, |d| - 1, cols, []) && Tiles(e, |d| - 1, cols)
  {
    RowRemoveSteps(d, i, cols);
    RowRemovedFlat(d, i, cols);
    FlatTiles(RowRemoved(d, i, cols), |d| - 1, cols);
  }

  lemma {:induction false} ColRemoveFacts(d: Table, i: int, cols: int)
    requires 0 <= i < cols && Shaped(d, |d|, cols) && Stamped(d)
    ensures var e := ColRemoved(d, i, cols);
      && Cleared(ColsStamped(ColCut(d, i, cols)), Whole(|d|, cols - 1)) == e
      && Sound(e, |d|, cols - 1, []) && Tiles(e, |d|, cols - 1)
  {
    ColRemoveSteps(d, i, cols);
    ColRemovedFlat(d, i, cols);
    FlatTiles(ColRemoved(d, i, cols), |d|, cols - 1);
  }

  // ---------------------------------------------------------------------
  // Styles

  /** Restyling changes only the style of the target cells, and only the
      property the change names. */
  lemma {:induction false} RestyledCells(d: Table, targets: set<Pos>, ch: StyleChange)
    ensures var e := Restyled(d, targets, ch);
      && SameLayout(d, e)
      && forall a, c :: InTable(d, a, c) ==>
           && e[a][c].text == d[a][c].text
           && e[a][c].style == (if Pos(a, c) in targets then Restyle(d[a][c].style, ch) else d[a][c].style)
  {
  }

  /** Resetting styles changes only styles, each to the given one. */
  lemma {:induction false} AllStyledCells(d: Table, st: Style)
    ensures var e := AllStyled(d, st);
      && SameLayout(d, e)
      && forall a, c :: InTable(d, a, c) ==> e[a][c].text == d[a][c].text && e[a][c].style == st
  {
  }

  /** Restyling no cell changes nothing. */
  lemma {:induction false} RestyledNothing(d: Table, ch: StyleChange)
    ensures Restyled(d, {}, ch) == d
  {
    var e := Restyled(d, {}, ch);
    forall a | 0 <= a < |d|
      ensures e[a] == d[a]
    {
    }
  }

  /** Setting a property to the value it already has changes nothing. */
  lemma {:induction false} RestyleIdempotent(s: Style, ch: StyleChange)
    ensures Restyle(Restyle(s, ch), ch) == Restyle(s, ch)
  {
  }

  /** Restyling one more target cell of an already restyled table. */
  lemma {:induction false} RestyledStep(d: Table, targets: set<Pos>, p: Pos, ch: StyleChange)
    requires InTable(d, p.r, p.c)
    ensures var e := Restyled(d, targets, ch);
      Restyled(d, targets + {p}, ch) == e[p.r := e[p.r][p.c := e[p.r][p.c].(style := Restyle(e[p.r][p.c].style, ch))]]
  {
    var e: Table := Restyled(d, targets, ch);
    var lhs := Restyled(d, targets + {p}, ch);
    var rhs: Table := e[p.r := e[p.r][p.c := e[p.r][p.c].(style := Restyle(e[p.r][p.c].style, ch))]];
    RestyleIdempotent(d[p.r][p.c].style, ch);
    forall a | 0 <= a < |d|
      ensures lhs[a] == rhs[a]
    {
      forall c | 0 <= c < |d[a]|
        ensures lhs[a][c] == rhs[a][c]
      {
      }
    }
  }

  lemma {:induction false} BoxRestyleIsRestyled(d: Table, rows: int, cols: int, ch: StyleChange)
    requires Shaped(d, rows, cols)
    ensures BoxUpdated(d, Whole(rows, cols), RestyleCell(ch)) == Restyled(d, AllPositions(rows, cols), ch)
  {
    var lhs, rhs := BoxUpdated(d, Whole(rows, cols), RestyleCell(ch)), Restyled(d, AllPositions(rows, cols), ch);
    forall a | 0 <= a < |d|
      ensures lhs[a] == rhs[a]
    {
      forall c | 0 <= c < cols
        ensures lhs[a][c] == rhs[a][c]
      {
        assert InBox(Whole(rows, cols), a, c) && Pos(a, c) in AllPositions(rows, cols);
      }
    }
  }

  lemma {:induction false} BoxResetIsAllStyled(d: Table, rows: int, cols: int)
    requires Shaped(d, rows, cols)
    ensures BoxUpdated(d, Whole(rows, cols), ResetStyle) == AllStyled(d, HardcodedStyle)
  {
    var lhs, rhs := BoxUpdated(d, Whole(rows, cols), ResetStyle), AllStyled(d, HardcodedStyle);
    forall a | 0 <= a < |d|
      ensures lhs[a] == rhs[a]
    {
      forall c | 0 <= c < cols
        ensures lhs[a][c] == rhs[a][c]
      {
        assert InBox(Whole(rows, cols), a, c);
      }
    }
  }

  /** A table with the same layout is as sound, with any selection of
      visible cells, and as tiled. */
  lemma {:induction false} LayoutFacts(d: Table, e: Table, rows: int, cols: int, sel: seq<Pos>)
    requires Sound(d, rows, cols, sel) && SameLayout(d, e)
    ensures Sound(e, rows, cols, sel) && Sound(e, rows, cols, [])
    ensures Tiles(d, rows, cols) ==> Tiles(e, rows, cols)
  {
    forall k | 0 <= k < |sel|
      ensures Selectable(e, sel[k])
    {
      assert Selectable(d, sel[k]);
    }
    if Tiles(d, rows, cols) {
      SameLayoutTiles(d, e, rows, cols);
    }
  }

  lemma {:induction false} RestyleFacts(d: Table, rows: int, cols: int, sel: seq<Pos>, targets: set<Pos>, ch: StyleChange)
    requires Sound(d, rows, cols, sel)
    ensures var e := Restyled(d, targets, ch);
      && Sound(e, rows, cols, sel) && Sound(e, rows, cols, [])
      && (Tiles(d, rows, cols) ==> Tiles(e, rows, cols))
  {
    RestyledCells(d, targets, ch);
    LayoutFacts(d, Restyled(d, targets, ch), rows, cols, sel);
  }

  lemma {:induction false} AllStyledFacts(d: Table, rows: int, cols: int, sel: seq<Pos>, st: Style)
    requires Sound(d, rows, cols, sel)
    ensures var e := AllStyled(d, st);
      && Sound(e, rows, cols, sel) && Sound(e, rows, cols, [])
      && (Tiles(d, rows, cols) ==> Tiles(e, rows, cols))
  {
    AllStyledCells(d, st);
    LayoutFacts(d, AllStyled(d, st), rows, cols, sel);
  }
}

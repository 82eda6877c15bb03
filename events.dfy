/// The mouse-event decisions of the editing engine: what a mouse-down
/// does, which cursor a hover shows and which menu a mouse-up opens, each
/// as a function of the facts the handler consults, in the order it
/// consults them.

module Events {
  import opened Optional
  import opened Dimensions
  import opened Cells
  import opened Geometry

  /** The four plus buttons shown around the table while browsing. */
  datatype PlusButton = TopButton | BottomButton | LeftButton | RightButton

  /** The floating menu a mouse-up opens. */
  datatype Menu = CellMenu | TableMenu

  /** The cursor shape chosen while hovering in editing mode. */
  datatype Cursor = DefaultCursor | ColResizeCursor | RowResizeCursor

  /** What a mouse-down does, in the order the handler tries the cases. */
  datatype MouseDownAction =
    | PressPlus(button: PlusButton)
    | IgnoreWhileTextEditing
    | IgnoreWhileBrowsing
    | StartResize(info: ResizeInfo)
    | LeaveEditing
    | StartDrag(cell: Cell)
    | NoAction

  /** The mouse-down decision: a plus button first, then an open text editor,
      then browsing mode, then a resize handle, then a point outside the
      bounds, then the cell under the point. */
  function MouseDownDecision(editing: bool, plus: Option<PlusButton>, textEditing: bool,
                             handle: Option<ResizeInfo>, inBounds: bool, hit: Option<Cell>): (a: MouseDownAction)
    ensures plus.Some? ==> a == PressPlus(plus.value)
    ensures (a.StartResize? || a == LeaveEditing || a.StartDrag? || a == NoAction)
      ==> editing && plus.None? && !textEditing
    ensures editing && plus.None? && !textEditing && handle.Some? ==> a == StartResize(handle.value)
    ensures a == LeaveEditing <==> editing && plus.None? && !textEditing && handle.None? && !inBounds
    ensures a.StartDrag? ==> handle.None? && inBounds && hit == Some(a.cell)
  {
    if plus.Some? then PressPlus(plus.value)
    else if textEditing then IgnoreWhileTextEditing
    else if !editing then IgnoreWhileBrowsing
    else if handle.Some? then StartResize(handle.value)
    else if !inBounds then LeaveEditing
    else if hit.Some? then StartDrag(hit.value)
    else NoAction
  }

  /** The mouse-down decision at the point (x, y) of a table in editing
      mode, with no plus button and no text editor in the way. */
  function EditingPress(d: Table, left: real, top: real, colWidths: seq<real>, rowHeights: seq<real>,
                        x: real, y: real): (a: MouseDownAction)
    requires Shaped(d, |rowHeights|, |colWidths|)
    ensures a.StartResize? || a == LeaveEditing || a.StartDrag? || a == NoAction
    ensures a.StartResize? <==> ResizeTargetAt(left, top, colWidths, rowHeights, x, y).Some?
    ensures a == LeaveEditing ==> !InTableBounds(left, top, colWidths, rowHeights, x, y)
    ensures a.StartDrag? ==> Some(a.cell) == CellAt(d, left, top, colWidths, rowHeights, x, y)
  {
    MouseDownDecision(true, None, false,
      ResizeTargetAt(left, top, colWidths, rowHeights, x, y),
      InTableBounds(left, top, colWidths, rowHeights, x, y),
      CellAt(d, left, top, colWidths, rowHeights, x, y))
  }

  /** The hover cursor: a resize cursor over a column or row handle, the
      default one elsewhere. */
  function CursorFor(handle: Option<ResizeInfo>): (c: Cursor)
    ensures c == ColResizeCursor <==> handle.Some? && handle.value.axis == ColAxis
    ensures c == RowResizeCursor <==> handle.Some? && handle.value.axis == RowAxis
  {
    match handle
    case None => DefaultCursor
    case Some(info) =>
      match info.axis
      case ColAxis => ColResizeCursor
      case RowAxis => RowResizeCursor
  }

  /** The menu a mouse-up opens: the cell menu while editing with a
      selection; the table menu while browsing when the table group is the
      active object and the release lands on it; otherwise none. */
  function MouseUpMenu(editing: bool, selected: nat, groupActive: bool, targetIsGroup: bool): (m: Option<Menu>)
    ensures m.Some? ==> (m.value == CellMenu <==> editing)
    ensures m == Some(CellMenu) ==> selected > 0
    ensures m == Some(TableMenu) ==> groupActive && targetIsGroup
  {
    if editing && selected > 0 then Some(CellMenu)
    else if !editing && groupActive && targetIsGroup then Some(TableMenu)
    else None
  }

  /** The cell menu needs a selection in editing mode and the table menu
      needs browsing mode, so the two never compete. */
  lemma {:induction false} MouseUpMenuCases(editing: bool, selected: nat, groupActive: bool, targetIsGroup: bool)
    ensures MouseUpMenu(editing, selected, groupActive, targetIsGroup) == Some(CellMenu)
      <==> editing && selected > 0
    ensures MouseUpMenu(editing, selected, groupActive, targetIsGroup) == Some(TableMenu)
      <==> !editing && groupActive && targetIsGroup
  {
  }

  /** A press starts a drag only strictly inside the table, off every
      resize handle, on the cell whose slots hold the point. */
  lemma {:induction false} DragStartsOnTheCellUnderThePoint(d: Table, left: real, top: real, colWidths: seq<real>,
                                         rowHeights: seq<real>, x: real, y: real, cell: Cell)
    requires Shaped(d, |rowHeights|, |colWidths|)
    requires Positive(colWidths) && Positive(rowHeights)
    requires EditingPress(d, left, top, colWidths, rowHeights, x, y) == StartDrag(cell)
    ensures left <= x < left + TableWidth(colWidths) && top <= y < top + TableHeight(rowHeights)
    ensures ResizeTargetAt(left, top, colWidths, rowHeights, x, y).None?
    ensures exists p :: CellIndexAt(left, top, colWidths, rowHeights, x, y) == Some(p) && cell == At(d, p)
  {
    CellIndexAtFound(left, top, colWidths, rowHeights, x, y);
    var p := CellIndexAt(left, top, colWidths, rowHeights, x, y).value;
    assert cell == At(d, p);
  }

  /** Just outside the right border, strictly within the table's height, a
      press grabs a column line instead of leaving editing mode. */
  lemma {:induction false} PressJustRightOfTableResizes(d: Table, left: real, top: real, colWidths: seq<real>,
                                     rowHeights: seq<real>, x: real, y: real)
    requires Shaped(d, |rowHeights|, |colWidths|) && |colWidths| > 0
    requires left + TableWidth(colWidths) < x < left + TableWidth(colWidths) + Tolerance
    requires top < y < top + TableHeight(rowHeights)
    ensures var act := EditingPress(d, left, top, colWidths, rowHeights, x, y);
      act.StartResize? && act.info.axis == ColAxis
  {
    OffsetAll(colWidths);
    assert NearLine(colWidths, left, |colWidths| - 1, x);
  }

  /** A press inside the bounds that neither grabs a handle nor hits a cell
      lies on a corner of the far edges: anywhere else on the right or
      bottom border, the border's own line is a resize handle. */
  lemma {:induction false} PressMissesOnlyAtCorners(d: Table, left: real, top: real, colWidths: seq<real>,
                                                    rowHeights: seq<real>, x: real, y: real)
    requires Shaped(d, |rowHeights|, |colWidths|)
    requires Positive(colWidths) && Positive(rowHeights) && |colWidths| > 0 && |rowHeights| > 0
    requires EditingPress(d, left, top, colWidths, rowHeights, x, y) == NoAction
    ensures x == left + TableWidth(colWidths) || y == top + TableHeight(rowHeights)
    ensures x == left || x == left + TableWidth(colWidths)
    ensures y == top || y == top + TableHeight(rowHeights)
  {
    var w, h := TableWidth(colWidths), TableHeight(rowHeights);
    CellIndexAtFound(left, top, colWidths, rowHeights, x, y);
    OffsetAll(colWidths);
    OffsetAll(rowHeights);
    FarLineIsNear(colWidths, left, x);
    FarLineIsNear(rowHeights, top, y);
    if x == left + w && top < y < top + h {
      assert false;
    }
    if y == top + h && left < x < left + w {
      assert false;
    }
  }

  /** The far border of a non-empty list of sizes is its last grid line. */
  lemma {:induction false} FarLineIsNear(s: seq<real>, origin: real, v: real)
    ensures |s| > 0 && v == origin + Sum(s) ==> NearLine(s, origin, |s| - 1, v)
  {
    OffsetAll(s);
  }
}

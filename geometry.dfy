/// Pixel geometry of the table: its extents, the inclusive bounds test, the
/// cell under a point, the grid line under a point (a resize handle), and the
/// resize clamp.

module Geometry {
  import opened Optional
  import opened Dimensions
  import opened Cells

  /** Table width: the sum of the column widths. It is the last column
      line, and with non-negative widths every column line lies between the
      left edge and it. */
  function TableWidth(colWidths: seq<real>): (w: real)
    ensures w == Offset(colWidths, |colWidths|)
    ensures NonNegative(colWidths) ==> forall k :: 0 <= k <= |colWidths| ==> 0.0 <= Offset(colWidths, k) <= w
    ensures Positive(colWidths) ==> (w > 0.0 <==> |colWidths| > 0)
  {
    LinesWithinExtent(colWidths);
    Sum(colWidths)
  }

  /** Table height: the sum of the row heights, with the same properties. */
  function TableHeight(rowHeights: seq<real>): (h: real)
    ensures h == Offset(rowHeights, |rowHeights|)
    ensures NonNegative(rowHeights) ==> forall k :: 0 <= k <= |rowHeights| ==> 0.0 <= Offset(rowHeights, k) <= h
    ensures Positive(rowHeights) ==> (h > 0.0 <==> |rowHeights| > 0)
  {
    LinesWithinExtent(rowHeights);
    Sum(rowHeights)
  }

  /** The sum of the sizes is the far grid line; with non-negative sizes
      every line lies between 0 and it, and with positive sizes it is
      positive exactly when there is a slot. */
  lemma {:induction false} LinesWithinExtent(s: seq<real>)
    ensures Offset(s, |s|) == Sum(s)
    ensures NonNegative(s) ==> forall k :: 0 <= k <= |s| ==> 0.0 <= Offset(s, k) <= Sum(s)
    ensures Positive(s) ==> (Sum(s) > 0.0 <==> |s| > 0)
  {
    OffsetAll(s);
    assert s[..0] == [];
    if NonNegative(s) {
      forall k | 0 <= k <= |s|
        ensures 0.0 <= Offset(s, k) <= Sum(s)
      {
        OffsetMono(s, 0, k);
        OffsetMono(s, k, |s|);
      }
    }
    if Positive(s) && |s| > 0 {
      assert NonNegative(s);
      OffsetMono(s, 1, |s|);
      var one := s[..1];
      assert one[..0] == [] && one[0] == s[0];
      assert Sum(one) == Sum(one[..0]) + one[0];
    }
  }

  /** The bounds test: inclusive on all four edges. */
  predicate InTableBounds(left: real, top: real, colWidths: seq<real>, rowHeights: seq<real>, x: real, y: real)
  {
    left <= x <= left + TableWidth(colWidths) && top <= y <= top + TableHeight(rowHeights)
  }

  /** Grid index of the cell under (x, y): inside the bounds, the column
      whose half-open slot holds `x - left` and the row whose slot holds
      `y - top`; None outside the bounds or when either scan finds nothing. */
  function CellIndexAt(left: real, top: real, colWidths: seq<real>, rowHeights: seq<real>, x: real, y: real): (p: Option<Pos>)
    ensures p.Some? ==>
      && InTableBounds(left, top, colWidths, rowHeights, x, y)
      && 0 <= p.value.r < |rowHeights| && 0 <= p.value.c < |colWidths|
      && InSlot(colWidths, p.value.c, x - left) && InSlot(rowHeights, p.value.r, y - top)
  {
    if !InTableBounds(left, top, colWidths, rowHeights, x, y) then None
    else
      match (Slot(colWidths, x - left), Slot(rowHeights, y - top))
      case (Some(c), Some(r)) => Some(Pos(r, c))
      case _ => None
  }

  /** The cell record under (x, y), hidden or not, as the hit test returns it. */
  function CellAt(d: Table, left: real, top: real, colWidths: seq<real>, rowHeights: seq<real>, x: real, y: real): (h: Option<Cell>)
    requires Shaped(d, |rowHeights|, |colWidths|)
    ensures h.Some? <==> CellIndexAt(left, top, colWidths, rowHeights, x, y).Some?
    ensures h.Some? && Stamped(d) ==>
      && InTableBounds(left, top, colWidths, rowHeights, x, y)
      && 0 <= h.value.r < |rowHeights| && 0 <= h.value.c < |colWidths|
      && InSlot(colWidths, h.value.c, x - left) && InSlot(rowHeights, h.value.r, y - top)
  {
    match CellIndexAt(left, top, colWidths, rowHeights, x, y)
    case Some(p) => Some(At(d, p))
    case None => None
  }

  /** With positive sizes the inclusive bounds test accepts exactly the
      points the hit test finds a cell for, plus the far right and bottom
      edges, which belong to no half-open slot. */
  lemma {:induction false} BoundsAreHitsPlusFarEdges(left: real, top: real, colWidths: seq<real>, rowHeights: seq<real>, x: real, y: real)
    requires Positive(colWidths) && Positive(rowHeights)
    ensures InTableBounds(left, top, colWidths, rowHeights, x, y)
      <==> || CellIndexAt(left, top, colWidths, rowHeights, x, y).Some?
           || (x == left + TableWidth(colWidths) && top <= y <= top + TableHeight(rowHeights))
           || (y == top + TableHeight(rowHeights) && left <= x <= left + TableWidth(colWidths))
  {
    CellIndexAtFound(left, top, colWidths, rowHeights, x, y);
  }

  /** With positive sizes, a point lying in a column slot and a row slot lies inside the bounds. */
  lemma {:induction false} SlotInsideExtent(s: seq<real>, k: nat, v: real)
    requires Positive(s) && k < |s| && InSlot(s, k, v)
    ensures 0.0 <= v < Sum(s)
  {
    SlotCovers(s, v);
    SlotExact(s, v, k);
  }

  /** With positive sizes the hit test names cell (r, c) exactly when the
      point lies in column c's slot and row r's slot. */
  lemma {:induction false} CellIndexAtExact(left: real, top: real, colWidths: seq<real>, rowHeights: seq<real>, x: real, y: real, r: int, c: int)
    requires Positive(colWidths) && Positive(rowHeights)
    ensures CellIndexAt(left, top, colWidths, rowHeights, x, y) == Some(Pos(r, c))
        <==> 0 <= r < |rowHeights| && 0 <= c < |colWidths|
             && InSlot(colWidths, c, x - left) && InSlot(rowHeights, r, y - top)
  {
    if 0 <= r < |rowHeights| && 0 <= c < |colWidths| && InSlot(colWidths, c, x - left) && InSlot(rowHeights, r, y - top) {
      SlotInsideExtent(colWidths, c, x - left);
      SlotInsideExtent(rowHeights, r, y - top);
      SlotExact(colWidths, x - left, c);
      SlotExact(rowHeights, y - top, r);
    }
  }

  /** With positive sizes the hit test finds a cell exactly when the point is
      inside the bounds and off the far right and bottom edges: those edges
      pass the inclusive bounds test yet belong to no half-open slot. */
  lemma {:induction false} CellIndexAtFound(left: real, top: real, colWidths: seq<real>, rowHeights: seq<real>, x: real, y: real)
    requires Positive(colWidths) && Positive(rowHeights)
    ensures CellIndexAt(left, top, colWidths, rowHeights, x, y).Some?
        <==> left <= x < left + TableWidth(colWidths) && top <= y < top + TableHeight(rowHeights)
  {
    SlotCovers(colWidths, x - left);
    SlotCovers(rowHeights, y - top);
  }

  /** A 4 x 4 table of 100 x 40 cells at the origin: (250, 85) is cell
      (2, 2); (-1, -1) and the far corner (400, 160) hit nothing. */
  lemma {:induction false} HitTestExample()
    ensures CellIndexAt(0.0, 0.0, [100.0, 100.0, 100.0, 100.0], [40.0, 40.0, 40.0, 40.0], 250.0, 85.0) == Some(Pos(2, 2))
    ensures CellIndexAt(0.0, 0.0, [100.0, 100.0, 100.0, 100.0], [40.0, 40.0, 40.0, 40.0], -1.0, -1.0) == None
    ensures CellIndexAt(0.0, 0.0, [100.0, 100.0, 100.0, 100.0], [40.0, 40.0, 40.0, 40.0], 400.0, 160.0) == None
  {
    var w := [100.0, 100.0, 100.0, 100.0];
    var h := [40.0, 40.0, 40.0, 40.0];
    SumsOfEqualSizes(w, 100.0);
    SumsOfEqualSizes(h, 40.0);
    OffsetAll(w);
    OffsetAll(h);
    CellIndexAtExact(0.0, 0.0, w, h, 250.0, 85.0, 2, 2);
    CellIndexAtFound(0.0, 0.0, w, h, 400.0, 160.0);
  }

  /** Every grid line of equal sizes `v` sits at a multiple of `v`. */
  lemma {:induction false} SumsOfEqualSizes(s: seq<real>, v: real)
    requires forall k :: 0 <= k < |s| ==> s[k] == v
    ensures forall n :: 0 <= n <= |s| ==> Offset(s, n) == n as real * v
  {
    forall n | 0 <= n <= |s|
      ensures Offset(s, n) == n as real * v
    {
      EqualSizesPrefix(s, v, n);
    }
  }

  lemma {:induction false} EqualSizesPrefix(s: seq<real>, v: real, n: nat)
    requires n <= |s|
    requires forall k :: 0 <= k < |s| ==> s[k] == v
    ensures Offset(s, n) == n as real * v
    decreases n
  {
    if n > 0 {
      EqualSizesPrefix(s, v, n - 1);
      OffsetStep(s, n - 1);
    }
  }

  // ---------------------------------------------------------------------
  // Resize handles

  /** Which size a resize gesture drags: a column width or a row height. */
  datatype Axis = ColAxis | RowAxis

  /** A resize gesture: the line's index, the mouse coordinate where the
      gesture began, and the size of that column or row at that moment. */
  datatype ResizeInfo = ResizeInfo(axis: Axis, index: nat, start: real, size: real)

  /** No column line grabs the point: either `y` is not strictly inside the
      table's height, or every column's far edge is 8 px or more from `x`. */
  predicate NoColumnHandle(left: real, top: real, colWidths: seq<real>, rowHeights: seq<real>, x: real, y: real)
  {
    !(top < y < top + TableHeight(rowHeights)) || forall j :: 0 <= j < |colWidths| ==> !NearLine(colWidths, left, j, x)
  }

  /** No row line grabs the point. */
  predicate NoRowHandle(left: real, top: real, colWidths: seq<real>, rowHeights: seq<real>, x: real, y: real)
  {
    !(left < x < left + TableWidth(colWidths)) || forall j :: 0 <= j < |rowHeights| ==> !NearLine(rowHeights, top, j, y)
  }

  /** The resize handle under (x, y): column lines are tried first, left to
      right, and only while `y` is strictly inside the table's height; then
      row lines, top to bottom, only while `x` is strictly inside its width.
      The far right and bottom borders are lines like any other. */
  function ResizeTargetAt(left: real, top: real, colWidths: seq<real>, rowHeights: seq<real>, x: real, y: real): (t: Option<ResizeInfo>)
    ensures t.Some? && t.value.axis == ColAxis ==>
      && top < y < top + TableHeight(rowHeights)
      && t.value.index < |colWidths| && NearLine(colWidths, left, t.value.index, x)
      && (forall j :: 0 <= j < t.value.index ==> !NearLine(colWidths, left, j, x))
      && t.value.start == x && t.value.size == colWidths[t.value.index]
    ensures t.Some? && t.value.axis == RowAxis ==>
      && NoColumnHandle(left, top, colWidths, rowHeights, x, y)
      && left < x < left + TableWidth(colWidths)
      && t.value.index < |rowHeights| && NearLine(rowHeights, top, t.value.index, y)
      && (forall j :: 0 <= j < t.value.index ==> !NearLine(rowHeights, top, j, y))
      && t.value.start == y && t.value.size == rowHeights[t.value.index]
    ensures t.None? <==>
      NoColumnHandle(left, top, colWidths, rowHeights, x, y) && NoRowHandle(left, top, colWidths, rowHeights, x, y)
  {
    var colHit := if top < y < top + TableHeight(rowHeights) then LineFrom(colWidths, left, x, 0) else None;
    if colHit.Some? then
      Some(ResizeInfo(ColAxis, colHit.value, x, colWidths[colHit.value]))
    else
      var rowHit := if left < x < left + TableWidth(colWidths) then LineFrom(rowHeights, top, y, 0) else None;
      if rowHit.Some? then Some(ResizeInfo(RowAxis, rowHit.value, y, rowHeights[rowHit.value]))
      else None
  }

  /** The far right border is a column handle along the whole height of the
      table. */
  lemma {:induction false} OuterBorderIsHandle(left: real, top: real, colWidths: seq<real>, rowHeights: seq<real>, y: real)
    requires |colWidths| > 0
    requires top < y < top + TableHeight(rowHeights)
    ensures var t := ResizeTargetAt(left, top, colWidths, rowHeights, left + TableWidth(colWidths), y);
      t.Some? && t.value.axis == ColAxis
  {
    OffsetAll(colWidths);
    assert NearLine(colWidths, left, |colWidths| - 1, left + TableWidth(colWidths));
  }

  /** Where a column line and a row line both grab the point, the column wins. */
  lemma {:induction false} ColumnLinesFirst(left: real, top: real, colWidths: seq<real>, rowHeights: seq<real>, x: real, y: real, c: nat, r: nat)
    requires c < |colWidths| && r < |rowHeights|
    requires top < y < top + TableHeight(rowHeights) && NearLine(colWidths, left, c, x)
    requires left < x < left + TableWidth(colWidths) && NearLine(rowHeights, top, r, y)
    ensures var t := ResizeTargetAt(left, top, colWidths, rowHeights, x, y);
      t.Some? && t.value.axis == ColAxis && t.value.index <= c
  {
  }

  /** Smallest width or height a resize gesture leaves. */
  const MinSize: real := 20.0

  /** The size after dragging a line from `start` to `mouse`: the original
      size plus the mouse's travel, but never below 20 px. */
  function Resized(size: real, start: real, mouse: real): (v: real)
    ensures v >= MinSize
    ensures v >= size + (mouse - start)
    ensures v == MinSize || v == size + (mouse - start)
  {
    if size + (mouse - start) >= MinSize then size + (mouse - start) else MinSize
  }

  /** A resize keeps every size positive. */
  lemma {:induction false} ResizeKeepsPositive(s: seq<real>, k: nat, v: real)
    requires Positive(s) && k < |s| && v >= MinSize
    ensures Positive(s[k := v])
  {
  }

  /** A resize of slot `k` moves no grid line before it and shifts every grid
      line after it by the same amount. */
  lemma {:induction false} ResizeMovesLaterLines(s: seq<real>, k: nat, v: real, n: nat)
    requires k < |s| && n <= |s|
    ensures n <= k ==> Offset(s[k := v], n) == Offset(s, n)
    ensures n > k ==> Offset(s[k := v], n) == Offset(s, n) + (v - s[k])
    decreases n
  {
    if n > 0 {
      ResizeMovesLaterLines(s, k, v, n - 1);
      OffsetStep(s, n - 1);
      OffsetStep(s[k := v], n - 1);
    }
  }
}

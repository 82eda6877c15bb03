# Table editor grid model

This project models the grid data model and geometry engine of `FabricTablePlugin`. The plugin is a table editor drawn on a Fabric.js canvas. The table is a `rows` x `cols` array of cell records. Each record carries:

- its own anchor `r`, `c`;
- a `rowspan` and a `colspan`;
- a `hidden` flag, set when a merged block absorbs the cell;
- its text and its style fields.

Column widths and row heights are pixel lists. The plugin is either browsing (the table drawn as one group) or editing. While editing, the user can:

- drag a rectangular selection;
- merge and split cells;
- resize columns and rows by grabbing grid lines;
- insert and remove rows and columns;
- restyle cells.

The model has these modules:

- `Optional` and `Dimensions` (dimensions.dfy): the option type, and prefix sums over the size lists. This file also holds the half-open slot scan used by the hit test and the 8 px line proximity used by the resize handles.
- `Cells` (cells.dfy): cell records, styles, the table shape, and the tiling invariant `Tiles`. `Tiles` holds when the rectangles of the visible cells partition the grid. The file also has the value-level effects of clearing merges, merging a box, splitting a block and restyling.
- `Selection` (selection.dfy): the drag box, the one-pass selection scan and the merge box. It also has a concrete table on which merging a one-pass selection breaks the tiling.
- `Geometry` (geometry.dfy): the table extents, the inclusive bounds test, the hit test, resize-handle detection and the 20 px resize floor.
- `Structure` (structure.dfy): row and column insertion and removal as splices, index re-stamping and merge resets.
- `Events` (events.dfy): the mouse-down decision order, the hover cursor and the mouse-up menu choice.
- `Plugin` (plugin.dfy): the class `FabricTablePlugin`. Its fields are the plugin's state and its methods are the handlers. Each method updates the fields in place and is proved against the functions above. The object invariant `Valid` says that:
  - the table and the size lists match the counts;
  - sizes are positive;
  - every cell is stamped with its position and its span fits the grid;
  - the selection names visible cells, and is empty while browsing.
- `Findings` (findings.dfy): removal of a row or column as the source writes it, where the selection keeps the removed cell.

Pixel coordinates are `real`. The selection is a sequence of grid positions rather than object references. A position stays meaningful while the record at that position is the selected one, which is how the source uses its selected records.

## Model

| member | source | states |
|---|---|---|
| Dimensions.SlotFrom | static/fabricjs-table.js:610-618 | the scan from a start index returns the first slot whose half-open interval [prefix(k), prefix(k+1)) holds the value, and no earlier slot holds it |
| Dimensions.SlotExact | static/fabricjs-table.js:610-618 | with positive sizes, the scan finds slot k if and only if k is in range and its half-open interval holds the value |
| Dimensions.SlotCovers | static/fabricjs-table.js:610-618 | with positive sizes, the scan finds a slot if and only if 0 <= value < total size |
| Dimensions.CoveringSlot | static/fabricjs-table.js:610-618 | every value in [0, total) lies in some slot |
| Dimensions.OffsetAll | static/fabricjs-table.js:599-600 | the last running prefix of the size list equals the `reduce` sum of the list |
| Dimensions.OffsetMono | static/fabricjs-table.js:626-628 | with non-negative sizes, grid lines are ordered by index |
| Dimensions.OffsetPrefix | static/fabricjs-table.js:611-613 | a prefix of the size list has the same running prefixes as the whole list |
| Dimensions.LineFrom | static/fabricjs-table.js:626-630 | the line scan returns the first line k whose position left + prefix(k+1) is within 8 px of the mouse, and no earlier line is |
| Cells.InitialGridTiles | static/fabricjs-table.js:55-70 | the freshly built grid is tiled by its unit cells |
| Cells.UnitGridTiles | static/fabricjs-table.js:729-733 | a stamped table of visible unit cells is tiled |
| Cells.ClearedTiles | static/fabricjs-table.js:729-733 | resetting merges over the whole grid leaves a tiled table |
| Cells.SplitKeepsTiling | static/fabricjs-table.js:698-707 | splitting a visible block of a tiled table keeps the tiling |
| Cells.CoverAfterSplit | static/fabricjs-table.js:702-705 | after a split, a grid cell inside the block is covered only by itself, and one outside keeps its old cover |
| Cells.MergeKeepsTiling | static/fabricjs-table.js:680-696 | merging a box of a tiled table keeps the tiling when the box cuts no other visible span |
| Cells.CoverAfterMerge | static/fabricjs-table.js:687-693 | after a merge, a grid cell inside the box is covered by the master only, and one outside keeps its old cover |
| Cells.MergeThenSplit | static/fabricjs-table.js:680-707 | splitting the master right after a merge leaves every cell of the box visible with unit span and its own r/c: the table equals the input with merges cleared over the box |
| Cells.SplitOfSingleCellIsNoop | static/fabricjs-table.js:698-707 | splitting a visible unit cell changes nothing |
| Cells.SameLayoutTiles | static/fabricjs-table.js:576-596 | the tiling depends only on anchors, spans and hidden flags, so a change of text or style keeps it |
| Cells.RestyleKeepsTiling | static/fabricjs-table.js:576-585 | restyling any set of cells keeps the tiling |
| Selection.DragBox | static/fabricjs-table.js:652-653 | the drag box contains both end cells' covered rectangles; its top row and left column are one end cell's row and column, and its bottom row and right column are one end cell's last covered row and column |
| Selection.DragBoxLeast | static/fabricjs-table.js:652-653 | the drag box is the least box holding both end cells' rectangles: any box containing both contains it |
| Selection.RowPicks | static/fabricjs-table.js:659-670 | the scan of one row picks exactly the visible cells whose covered rectangle meets the box, in column order |
| Selection.Picks | static/fabricjs-table.js:658-671 | the scan picks exactly the visible cells of the table whose covered rectangle meets the box, in row-major order |
| Selection.SelectionBox | static/fabricjs-table.js:682-686 | the merge box contains the covered rectangle of every selected cell |
| Selection.SelectionBoxLeast | static/fabricjs-table.js:682-686 | the merge box is the least such box: any box containing every selected rectangle contains it |
| Selection.SelectionBoxStep | static/fabricjs-table.js:682-686 | taking one more selected position widens the box to the hull of the previous box and that cell's rectangle, which is the per-cell min/max update of the loop |
| Selection.SelectionBoxFits | static/fabricjs-table.js:682-687 | when spans fit the grid, the merge box lies inside the grid |
| Selection.ThreeBlocksTiles | static/fabricjs-table.js:651-671 | the 3 x 3 witness table of merged blocks is tiled |
| Selection.OnePassMergeCanBreakTiling | static/fabricjs-table.js:651-696 | on the tiled witness table, dragging from cell (0, 0) to cell (0, 1) selects the three positions (0, 0), (0, 1), (1, 0), and merging their box leaves a table that is no longer tiled |
| Geometry.CellIndexAt | static/fabricjs-table.js:607-621 | a hit lies inside the inclusive bounds, and its column and row slots hold the point's offsets |
| Geometry.TableWidth | static/fabricjs-table.js:599 | the width is the last column line, and with non-negative widths every column line lies between 0 and it; with positive widths it is positive exactly when there is a column |
| Geometry.TableHeight | static/fabricjs-table.js:600 | the same for the rows: the height is the last row line, and every row line lies between 0 and it |
| Geometry.BoundsAreHitsPlusFarEdges | static/fabricjs-table.js:602-605 | with positive sizes the inclusive bounds test accepts exactly the points the hit test finds a cell for, plus the far right and bottom edges |
| Geometry.CellAt | static/fabricjs-table.js:607-622 | a record is returned exactly when the hit test finds a position; in a stamped table the record's own r and c name the row and column slots that hold the point, inside the bounds |
| Geometry.CellIndexAtExact | static/fabricjs-table.js:607-621 | with positive sizes, the hit test gives (r, c) if and only if c and r are in range and column c's and row r's half-open slots hold the point's offsets |
| Geometry.CellIndexAtFound | static/fabricjs-table.js:602-621 | with positive sizes, the hit test finds a cell if and only if left <= x < left + width and top <= y < top + height, so the far right and bottom edges give no cell although the bounds test accepts them |
| Geometry.HitTestExample | static/fabricjs-table.js:607-622 | on a 4 x 4 grid of 100 x 40 cells at the origin, (250, 85) hits cell (2, 2); (-1, -1) and the corner (400, 160) hit nothing |
| Geometry.EqualSizesPrefix | static/fabricjs-table.js:14-15 | with all sizes equal to v, line n lies at n * v |
| Geometry.ResizeTargetAt | static/fabricjs-table.js:624-637 | a column handle is the first column line within 8 px while y is strictly inside the height, and carries start = x and size = that width; a row handle is chosen only when no column line grabs the point; none exactly when neither grabs |
| Geometry.OuterBorderIsHandle | static/fabricjs-table.js:627-629 | the far right border is a column handle along the whole height |
| Geometry.ColumnLinesFirst | static/fabricjs-table.js:624-637 | where a column line and a row line both grab the point, the column line wins |
| Geometry.Resized | static/fabricjs-table.js:642-645 | the new size is max(20, size + mouse travel): at least 20, at least the dragged size, and one of the two |
| Geometry.ResizeKeepsPositive | static/fabricjs-table.js:639-647 | a resize keeps every size positive |
| Geometry.ResizeMovesLaterLines | static/fabricjs-table.js:639-647 | resizing slot k leaves the lines before it in place and shifts every later line by the change in size |
| Structure.Inserted | static/fabricjs-table.js:433-434 | `splice(i, 0, v)` puts v at i, keeps the elements before i and shifts the rest up by one |
| Structure.Removed | static/fabricjs-table.js:712-713 | `splice(i, 1)` drops element i, keeps the elements before i and shifts the rest down by one |
| Structure.RemoveInserted | static/fabricjs-table.js:433-434 | removing at i what was inserted at i gives back the list |
| Structure.BlankRow | static/fabricjs-table.js:430-432 | the new row has one cell per column |
| Structure.ColSpliced | static/fabricjs-table.js:438-442 | inserting a blank cell into every row gives a rows x (cols + 1) table |
| Structure.ColCut | static/fabricjs-table.js:722 | cutting a column from every row gives a rows x (cols - 1) table |
| Structure.RowInserted | static/fabricjs-table.js:429-436 | row insertion gives a (rows + 1) x cols table |
| Structure.ColInserted | static/fabricjs-table.js:437-446 | column insertion gives a rows x (cols + 1) table |
| Structure.RowRemoved | static/fabricjs-table.js:709-716 | row removal gives a (rows - 1) x cols table |
| Structure.ColRemoved | static/fabricjs-table.js:719-726 | column removal gives a rows x (cols - 1) table |
| Structure.RowInsertSteps | static/fabricjs-table.js:429-436 | splicing in a blank row, re-stamping every row index and resetting merges gives the table in which every cell is a visible unit cell at its own position, with the old rows shifted past the new one |
| Structure.ColInsertSteps | static/fabricjs-table.js:437-448 | the same for a column: splice into every row, re-stamp column indices, reset merges |
| Structure.RowRemoveSteps | static/fabricjs-table.js:709-716 | splicing out a row, re-stamping and resetting merges gives the remaining rows as visible unit cells at their new positions |
| Structure.ColRemoveSteps | static/fabricjs-table.js:719-726 | the same for a column |
| Structure.FlatTiles | static/fabricjs-table.js:729-733 | a table of visible unit cells at their own positions is tiled and its spans fit |
| Structure.RowInsertedFlat | static/fabricjs-table.js:428-448 | after a row insertion every cell is a visible unit cell at its own position |
| Structure.ColInsertedFlat | static/fabricjs-table.js:428-448 | after a column insertion every cell is a visible unit cell at its own position |
| Structure.RowRemovedFlat | static/fabricjs-table.js:709-716 | after a row removal every cell is a visible unit cell at its own position |
| Structure.ColRemovedFlat | static/fabricjs-table.js:719-726 | after a column removal every cell is a visible unit cell at its own position |
| Structure.RemoveInsertedRow | static/fabricjs-table.js:428-436 | removing a row just inserted at the same index gives the original table with its merges cleared |
| Structure.RemoveInsertedCol | static/fabricjs-table.js:437-446 | removing a column just inserted at the same index gives the original table with its merges cleared |
| Events.CursorFor | static/fabricjs-table.js:370-371 | the column-resize cursor shows exactly over a column handle, the row-resize cursor exactly over a row handle |
| Events.MouseDownDecision | static/fabricjs-table.js:308-351 | a plus button wins over everything; resize, exit, drag and nothing happen only in editing mode with no text editor open; there a handle always starts a resize, the press leaves editing exactly when off every handle and outside the bounds, and a drag starts only inside the bounds on the record hit |
| Events.EditingPress | static/fabricjs-table.js:334-350 | an editing press resizes, leaves editing, drags or does nothing; it resizes exactly when a handle is under the point, leaves only from outside the bounds, and drags the record under the point |
| Events.MouseUpMenu | static/fabricjs-table.js:381-387 | an opened menu is the cell menu exactly in editing mode; the cell menu needs a selection and the table menu needs the active group to be released on |
| Events.MouseUpMenuCases | static/fabricjs-table.js:381-387 | the cell menu opens exactly when editing with a non-empty selection; the table menu exactly when browsing with the group active and released on |
| Events.DragStartsOnTheCellUnderThePoint | static/fabricjs-table.js:334-350 | an editing press starts a drag only strictly inside the table, off every resize handle, and on the record at the hit-test position |
| Events.PressJustRightOfTableResizes | static/fabricjs-table.js:334-343 | a press just outside the right border, within 8 px and strictly inside the height, grabs a column line instead of leaving editing mode |
| Events.PressMissesOnlyAtCorners | static/fabricjs-table.js:334-350 | an editing press that does nothing lies on a corner of the table where a far edge meets another edge |
| Plugin.PlusEdited | static/fabricjs-table.js:421-426 | the top and bottom buttons insert a row, at 0 or at rows; the left and right buttons insert a column, at 0 or at cols |
| Plugin.FabricTablePlugin.constructor | static/fabricjs-table.js:6-51 | each of left, top, rows, cols and the size defaults takes its option or, when that is zero, its fallback (100, 100, 4, 4, 100, 40); the sizes are filled, the grid is the initial tiled grid, and the plugin starts browsing with no selection, resize or drag |
| Plugin.FabricTablePlugin.InitData | static/fabricjs-table.js:55-70 | the table becomes the rows x cols grid of visible unit cells at their own positions, with text "R<r+1>C<c+1>" and the default style |
| Plugin.FabricTablePlugin.ResetMerges | static/fabricjs-table.js:729-733 | every cell of the grid becomes a visible unit cell, with nothing else changed |
| Plugin.FabricTablePlugin.UpdateBox | static/fabricjs-table.js:702-705 | the nested grid loop over a box applies the per-cell update to every cell of the box and to no other; the Box lemmas below say what each update gives |
| Plugin.FabricTablePlugin.RenderGroupMode | static/fabricjs-table.js:118-120 | the plugin is browsing with an empty selection |
| Plugin.FabricTablePlugin.EnterEditMode | static/fabricjs-table.js:197-209 | already editing: nothing changes; otherwise editing starts at the group's position |
| Plugin.FabricTablePlugin.ExitEditMode | static/fabricjs-table.js:263-268 | browsing with an empty selection, keeping the invariant |
| Plugin.FabricTablePlugin.GetCellAtPoint | static/fabricjs-table.js:607-622 | the accumulator loops return the record at the hit-test position, or none |
| Plugin.FabricTablePlugin.GetResizeTarget | static/fabricjs-table.js:624-637 | the two line loops return the handle `ResizeTargetAt` describes |
| Plugin.FabricTablePlugin.PerformResize | static/fabricjs-table.js:639-649 | only the grabbed width or height changes, to max(20, size + travel); without a resize nothing changes |
| Plugin.ScanRow | static/fabricjs-table.js:659-670 | the inner loop picks exactly the row's visible cells meeting the box, in column order |
| Plugin.ScanTable | static/fabricjs-table.js:658-671 | the nested loops pick exactly the table's visible cells meeting the box, in row-major order |
| Plugin.FabricTablePlugin.UpdateSelection | static/fabricjs-table.js:651-671 | the selection becomes exactly the visible cells whose covered rectangle meets the drag box, in row-major order; the table is not changed |
| Plugin.FabricTablePlugin.BeginDrag | static/fabricjs-table.js:345-350 | dragging starts with the pressed record as anchor, and the selection becomes the scan of the pressed cell's own box |
| Plugin.MergeBounds | static/fabricjs-table.js:682-686 | the loop computes the least box holding every selected cell's rectangle, and it lies inside the grid |
| Plugin.FabricTablePlugin.Merge | static/fabricjs-table.js:680-696 | with fewer than 2 selected cells nothing changes; otherwise the master at the box corner gets the box's span and is visible, every other cell of the box is hidden, cells outside are unchanged, and the selection becomes the master; the tiling is kept when the box cuts no other span |
| Plugin.FabricTablePlugin.MergeBlock | static/fabricjs-table.js:687-693 | the table becomes the merged table for the box |
| Plugin.FabricTablePlugin.StampRows | static/fabricjs-table.js:715 | every cell's r becomes its row |
| Plugin.FabricTablePlugin.StampCols | static/fabricjs-table.js:725 | every cell's c becomes its column |
| Plugin.FabricTablePlugin.Split | static/fabricjs-table.js:698-707 | unless exactly one cell is selected nothing changes; otherwise every cell of its covered rectangle becomes a visible unit cell, and the tiling is kept |
| Plugin.FabricTablePlugin.InsertRowCells | static/fabricjs-table.js:430-436 | splice, count increment and re-stamping give the inserted-row table |
| Plugin.FabricTablePlugin.InsertColumnCells | static/fabricjs-table.js:438-442 | a blank cell is spliced into every row at the index |
| Plugin.FabricTablePlugin.RemoveColumnCells | static/fabricjs-table.js:722 | the cell at the index is spliced out of every row |
| Plugin.FabricTablePlugin.InsertColCells | static/fabricjs-table.js:437-446 | the per-row splice, count increment, re-stamping and merge reset give the inserted-column table |
| Plugin.FabricTablePlugin.RemoveRowCells | static/fabricjs-table.js:712-716 | splicing out the row, the count decrement, re-stamping and the merge reset give the removed-row table |
| Plugin.FabricTablePlugin.RemoveColCells | static/fabricjs-table.js:722-726 | the per-row splice, the count decrement, re-stamping and the merge reset give the removed-column table |
| Plugin.FabricTablePlugin.InsertRow | static/fabricjs-table.js:429-436 | the row count grows by one, a 40 px height is spliced in at the index, and the table becomes the inserted-row table, tiled |
| Plugin.FabricTablePlugin.InsertCol | static/fabricjs-table.js:437-446 | the column count grows by one, a 100 px width is spliced in at the index, and the table becomes the inserted-column table, tiled |
| Plugin.FabricTablePlugin.ModifyStructure | static/fabricjs-table.js:428-450 | a row or column is inserted at the index, with the new size spliced in, every cell a visible unit cell at its own position, and then browsing with an empty selection |
| Plugin.FabricTablePlugin.HandlePlusClick | static/fabricjs-table.js:421-426 | a plus button inserts a row or column at the matching end: top and bottom splice a 40 px height at index 0 or at the old row count, left and right a 100 px width at index 0 or at the old column count, the other size list is unchanged, and the result is a tiled table in browsing mode |
| Plugin.FabricTablePlugin.HandleMouseDown | static/fabricjs-table.js:308-351 | the action follows the handler's order (plus button, text editor, browsing, resize handle, outside bounds, cell), and each action's effect on the state holds: only a plus button changes the table or sizes, splicing the same new size as the plus click and leaving resize and drag state alone; a resize start or leaving editing mode leaves the drag state alone |
| Plugin.FabricTablePlugin.PressWhileEditing | static/fabricjs-table.js:334-350 | an editing press starts a resize, leaves editing mode, or starts a drag whose selection is the pressed cell's box, exactly as the decision says |
| Plugin.FabricTablePlugin.HandleMouseMove | static/fabricjs-table.js:353-373 | while editing, a resize resizes, a drag reselects up to the hovered cell (keeping the selection off the table), and otherwise the cursor follows the handle under the mouse; the table never changes |
| Plugin.FabricTablePlugin.HandleMouseUp | static/fabricjs-table.js:375-388 | drag and resize end, and the menu opened is the cell menu or the table menu as the mode, selection and target say |
| Plugin.FabricTablePlugin.ApplyStyle | static/fabricjs-table.js:576-585 | editing: only the selected cells get the property; browsing: every cell and the defaults get it and the selection is empty; the layout and tiling are kept |
| Plugin.FabricTablePlugin.RestyleSelection | static/fabricjs-table.js:578 | the loop restyles exactly the selected positions |
| Plugin.FabricTablePlugin.RestyleAll | static/fabricjs-table.js:581 | the loops restyle every position |
| Plugin.FabricTablePlugin.ResetStyles | static/fabricjs-table.js:587-596 | the defaults and every cell take the hard-coded style, and then browsing with an empty selection; the layout and tiling are kept |
| Plugin.FabricTablePlugin.RemoveRow | static/fabricjs-table.js:709-717 | with no selection nothing changes; otherwise the first selected cell's row and height are spliced out, the count drops by one, every remaining cell is a visible unit cell at its new position, the table is tiled and the selection is cleared (see Findings) |
| Plugin.FabricTablePlugin.RemoveCol | static/fabricjs-table.js:719-727 | the same for the first selected cell's column |
| Plugin.BoxUnmergeIsCleared | static/fabricjs-table.js:702-705 | the split loop's per-cell update is clearing merges over the block |
| Plugin.BoxStampRowsIsRowsStamped | static/fabricjs-table.js:715 | the re-stamping loop over the whole grid stamps every row index |
| Plugin.BoxStampColsIsColsStamped | static/fabricjs-table.js:725 | the re-stamping loop over the whole grid stamps every column index |
| Plugin.MergeSteps | static/fabricjs-table.js:687-693 | setting the master's span and then hiding the rest of the box gives the merged table |
| Plugin.MergedValid | static/fabricjs-table.js:687-693 | a merge keeps cells stamped and spans inside the grid, and leaves the master visible (absorbed cells keep their old spans) |
| Plugin.MergeFacts | static/fabricjs-table.js:680-696 | after a merge the master is a valid one-cell selection, and the tiling is kept when the box cuts no span |
| Plugin.ClearedValid | static/fabricjs-table.js:698-707 | clearing merges keeps cells stamped and spans inside the grid, and hides no visible cell |
| Plugin.SplitFacts | static/fabricjs-table.js:698-707 | the split loop clears the block, the selection stays valid, and the tiling is kept |
| Plugin.RowInsertFacts | static/fabricjs-table.js:428-450 | the row-insertion steps give the inserted-row table, which is sound with an empty selection and tiled |
| Plugin.ColInsertFacts | static/fabricjs-table.js:428-450 | the column-insertion steps give the inserted-column table, sound and tiled |
| Plugin.RowRemoveFacts | static/fabricjs-table.js:709-717 | the row-removal steps give the removed-row table, sound and tiled |
| Plugin.ColRemoveFacts | static/fabricjs-table.js:719-727 | the column-removal steps give the removed-column table, sound and tiled |
| Plugin.RestyledCells | static/fabricjs-table.js:576-585 | restyling keeps the layout and every text, and sets the style of exactly the targeted cells to their old style with the one property changed |
| Plugin.AllStyledCells | static/fabricjs-table.js:587-596 | resetting styles keeps the layout and every text and gives every cell the same style |
| Plugin.RestyledNothing | static/fabricjs-table.js:578 | restyling no cell changes nothing |
| Plugin.RestyleIdempotent | static/fabricjs-table.js:576-585 | applying the same property twice is the same as once |
| Plugin.RestyledStep | static/fabricjs-table.js:578 | restyling one more position updates only that cell |
| Plugin.BoxRestyleIsRestyled | static/fabricjs-table.js:581 | the nested loop's per-cell update restyles every position |
| Plugin.BoxResetIsAllStyled | static/fabricjs-table.js:594 | the nested loop's per-cell update gives every cell the hard-coded style |
| Plugin.RestyleFacts | static/fabricjs-table.js:576-585 | restyling keeps the table sound for the selection and keeps the tiling |
| Plugin.AllStyledFacts | static/fabricjs-table.js:587-596 | resetting styles keeps the table sound and keeps the tiling |
| Findings.SpliceOut | static/fabricjs-table.js:712-713 | `splice(i, 1)` removes element i when it exists, and removes nothing when i is past the end |
| Findings.RestampedUpTo | static/fabricjs-table.js:715-716 | the count-bounded loops: every cell below both counts becomes a visible unit cell carrying its own row (or column) index, and every cell past a count is left exactly as it was |
| Findings.SpliceOutOfRows | static/fabricjs-table.js:722 | each of the first n rows that has the index loses exactly that cell; rows past n, or too short for the index, are unchanged |
| Findings.RemoveRowAsWritten | static/fabricjs-table.js:709-717 | as written: with a selection the row count drops by one whatever the splice removed, and the selection is kept |
| Findings.RemoveColAsWritten | static/fabricjs-table.js:719-727 | as written: with a selection the column count drops by one whatever the splices removed, and the selection is kept |
| Findings.SecondRowRemovalDesynchronises | static/fabricjs-table.js:709-717 | in a 2 x 2 table with cell (1, 0) selected, the first removal is right, but the second leaves rows = 0 with one row of cells and one row height left |
| Findings.SecondColRemovalDesynchronises | static/fabricjs-table.js:719-727 | in a 2 x 2 table with cell (0, 1) selected, the second removal leaves cols = 0 with one cell per row and one width left |

## Left out

- Drawing: `_initVisuals`, the drawing parts of `renderGroupMode` and `renderEditMode`, and every canvas call. They build Fabric.js objects through a library outside the model. Only their effect on the editing flag and the selection is modelled; `renderEditMode` changes neither.
- The DOM menu: `_showContextMenu`, `_generateMenuContent`, `_hideMenu`, and the document mouse-move listener. They are DOM plumbing. The mouse-up handler returns which menu it would open (`Events.MouseUpMenu`).
- Plus-button geometry: `_updatePlusButtons`, `_hidePlusButtons`, and the 18 px circle test in the mouse-down handler. They use floating-point distances to Fabric objects. The button that was hit is a parameter of `HandleMouseDown`. The mouse-move handler's plus-button update while browsing is left out for the same reason.
- The text-editor check in the mouse-down handler is a boolean parameter. The double-click in-place text editing is left out because it drives a foreign text widget.
- The browsing-mode branch of the mouse-down handler only discards the canvas's active object and hides plus buttons. It changes no modelled state.
- The group "modified" scaling handler multiplies sizes by floating-point scale factors. It is left out.
- The pixel highlight rectangle of `_updateSelection` is read from drawn objects. It is left out.
- Numbers: pixels are exact reals rather than doubles. Option values are numbers, so `options.x || d` is "zero or absent gives the fallback". Negative counts, which would make `Array(n)` throw, are excluded by the constructor's precondition.
- Plugin.FabricTablePlugin.constructor: requires non-negative default sizes. The source fills the size lists with any number it is given, negative ones included, and throws nothing. The model excludes them because the grid it describes has positive sizes, which `Valid` requires.
- Plugin.FabricTablePlugin.Merge: the source starts min/max from Infinity; the model's `MergeBounds` starts from the first selected record's rectangle. Both read the records' own r/c and spans. The Infinity start is never visible, because the source returns early with fewer than two selected cells.
- Plugin.FabricTablePlugin.Merge: no tiling guarantee in general. Merging a one-pass selection can cut an unselected span, as `Selection.OnePassMergeCanBreakTiling` shows. So the tiling is promised only when the box cuts no span, and `Valid` does not include it.
- Plugin.FabricTablePlugin.RemoveRow: requires that no resize gesture is in progress. A removal clicked from the menu happens between gestures. Removing the last row while a row resize holds its index is not modelled.
- Plugin.FabricTablePlugin.RemoveCol: requires that no resize gesture is in progress, for the same reason.
- Neither removal checks that a row or column remains, and neither does the model: the count may reach 0.
- Aliasing: the source's selection and drag anchor hold references to cell records. The model holds positions for the selection and a copy of the anchor record. Every handler that moves records to other positions (the insertions) clears the selection, except the removals (see Findings). The merge replaces the selection with its master. Handlers that rewrite records in place (split, the editing-mode style change) keep the selection. Records do not move there, so the positions the model keeps still name the same records.

## Findings

| source | as written | input that shows it | evidently intended | confidence | as-written member | corrected member |
|---|---|---|---|---|---|---|
| static/fabricjs-table.js:709-717 | `_removeRow` keeps `selectedCells`, whose first record is the removed cell, and the menu stays open; a second "delete row" reads that record's stale `r`, and when it is past the end the splice removes nothing while `rows--` still runs | a 2 x 2 table, select cell (1, 0), delete row twice: rows = 0 while `data` and `rowHeights` keep one row | the count stays equal to the table's length; the selection is cleared once its row is gone | not executed | Findings.SecondRowRemovalDesynchronises | Plugin.FabricTablePlugin.RemoveRow |
| static/fabricjs-table.js:719-727 | `_removeCol` has the same stale selection; a second delete with the stale `c` past the end splices nothing but `cols--` runs | a 2 x 2 table, select cell (0, 1), delete column twice: cols = 0 while each row and `colWidths` keep one entry | the count stays equal to the row length; the selection is cleared | not executed | Findings.SecondColRemovalDesynchronises | Plugin.FabricTablePlugin.RemoveCol |

# Reorderable grid view: a Dafny model of the layout and reorder engine

This project models the layout and reorder engine of ReorderableGridView, a
scrollable iOS grid of item views that can be reordered by dragging. It covers
both versions of the engine that the repository ships:

- the newer `ReorderableGridView`, with the `reorderable` and `draggable`
  switches, the positional add and removal by view;
- the older `ReordableGridView`, whose `placeView` advances the counters
  itself and whose layout pass starts the content height at 0.

It also models the cross-grid rule of the newer two-grid demo controller
(`didDragEndFonView`).

Module layout:

- `grid_position.dfy`: `Options` (Swift's `T?`) and `GridPositions`. This is
  the `GridPosition` value type: the row-major `arrayIndex`, the neighbour
  helpers and `PositionOf(i, cols)`, the cell a layout pass gives the item at
  index `i`.
- `layout.dfy`: `Layout`, the arithmetic of a pass. It holds the column count
  and horizontal padding, the pixel origin of a cell, the content height, and
  the candidate column of a drag move. CGFloat values are `real`. Swift's
  `Int(_:)` and `Int` division both truncate toward zero, and that is written
  out explicitly.
- `sequences.dfy`: `Sequences`, the array edits: `removeAtIndex`, `insert`,
  and the remove-then-insert move.
- `reorderable_view.dfy`: `Items`, the item view class (frame, grid position,
  `isReordering`) and its gesture handlers. The pure two-state machine
  `Respond` specifies them. The older `ReordableView` has the same code under
  other delegate names, so both engines hold `Items.ReorderableView` objects.
- `reorder.dfy`: `Reorder`, which holds what both engines share:
  - what a finished layout pass leaves (`Placed`, `LaidOut`, `Settled`);
  - the drag-move row scan as a function of the array (`ScanRows`), with its
    permutation and target lemmas.
- `reorderable_grid_view.dfy`: `ReorderableGrid`, the newer engine as a class.
- `reordable_grid_view.dfy`: `ReordableGrid`, the older engine as a class.
- `multiple_grid.dfy`: `MultipleGrid`, which holds two things:
  - the transfer rule `Transfer`, a function of the two grids' arrays, the grid
    the drag ended in and whether the drop was inside the other container;
  - the controller class whose `DidDragEndFonView` mutates two grids.

The grid classes keep the source's state: the ordered view array (a `seq`
field), `colsInRow`, `horizontalPadding`, the `currentCol`/`currentRow`
counters with their observers, and `contentSize.height`. The methods change
that state in place.

`Valid()` holds between operations. It says:

- the column count and padding are those of the frame;
- the array holds each view once;
- view `i` has grid position `(i % cols, i / cols)`.

`FreshLayout()` says that every view also has the frame a layout pass gives
it, and that the content height is what the pass computes. Every structural
operation ends in a full relayout, and its `ensures` say so.

Behaviour of the code that the model keeps as written:

- The x origin of a cell is `(col - 1) * (itemWidth + verticalPadding) +
  itemWidth`. It uses the vertical padding, not the horizontal one, so
  column 0 starts at `-verticalPadding`.
- The code never rejects a frame narrower than one item. The model requires
  `width >= itemWidth` (see Left out).
- The drag scan does not stop after the first move. Every later row of the
  candidate column is still tested, against the frames the relayout left.
  `ScanRows` models exactly that.
- Only the rows `0 ..< count / cols` are scanned, so the last, partial row is
  never a drop target.
- A pan gesture in the `Cancelled` or `Failed` state is ignored. It neither
  clears `isReordering` nor ends the drag. Only `Ended` does.
- An insert at a position equal to the view's own is a no-op. So is a
  removal at an unoccupied position. Neither reports an error.
- The frame can change after construction (`SetFrame`). The column count and
  padding are recomputed only by the next `invalidateLayout`.

## Model

| member | source | states |
|---|---|---|
| `GridPositions.ArrayIndexFormula` | ReorderableGridView-Swift/ReorderableGridView.swift:151-154 | `arrayIndex(cols)` equals `row * cols + col` for every position and column count. `ArrayIndex` itself is computed row by row, so this lemma carries its contract. |
| `GridPositions.PositionOf` | ReorderableGridView-Swift/ReorderableGridView.swift:460-466 | The cell a layout pass gives index `i` lies inside the columns (`0 <= col < cols`) and on a non-negative row. |
| `GridPositions.PositionOfDivMod` | ReorderableGridView-Swift/ReorderableGridView.swift:460-466 | The cell the pass gives index `i` is `(i % cols, i / cols)`. |
| `GridPositions.ArrayIndexOfPositionOf` | ReorderableGridView-Swift/ReorderableGridView.swift:151-154 | Going from an index to its layout cell and back through `arrayIndex` gives the same index. |
| `GridPositions.PositionOfArrayIndex` | ReordableGridView-Swift/ReordableGridView.swift:140-143 | For a cell with `0 <= col < cols` and `row >= 0`, the index is non-negative and the layout cell of that index is the cell itself. Together with the previous row this is a bijection. |
| `GridPositions.ArrayIndexInjective` | ReordableGridView-Swift/ReordableGridView.swift:122-143 | Two cells inside the columns are equal (componentwise) exactly when their array indices are equal. |
| `GridPositions.Up` | ReorderableGridView-Swift/ReorderableGridView.swift:157-163 | `up` is none exactly when `row <= 0`. Otherwise it keeps the column and decrements the row. |
| `GridPositions.Down` | ReorderableGridView-Swift/ReorderableGridView.swift:165-167 | From any cell on or below the first row, `up` of `down` leads back to the cell. |
| `GridPositions.Right` | ReorderableGridView-Swift/ReorderableGridView.swift:177-179 | From any cell on or right of the first column, `left` of `right` leads back to the cell. |
| `GridPositions.Left` | ReorderableGridView-Swift/ReorderableGridView.swift:169-175 | `left` is none exactly when `col <= 0`. Otherwise it keeps the row and decrements the column. |
| `GridPositions.NeighbourIndices` | ReorderableGridView-Swift/ReorderableGridView.swift:157-179 | `down` adds `cols` to the index and `right` adds 1. `up` subtracts `cols` and `left` subtracts 1 whenever they exist. |
| `GridPositions.NeighboursInvert` | ReordableGridView-Swift/ReordableGridView.swift:146-168 | `up` undoes `down` and `left` undoes `right` from any non-negative cell. `down` and `right` undo them back. |
| `GridPositions.UpOfPositionOf` | ReorderableGridView-Swift/ReorderableGridView.swift:500-502 | The cell above item `i`'s cell exists exactly when `i >= cols`. It is item `i - cols`'s cell, so the item above comes earlier in the pass. |
| `GridPositions.PositionOfSuccessor` | ReorderableGridView-Swift/ReorderableGridView.swift:340-350 | The cell of index `i + 1` is one column right of index `i`'s, or the first column of the next row when `i` is in the last column. This is the wrap of the `currentCol` observer. |
| `Layout.ColsInRow` | ReorderableGridView-Swift/ReorderableGridView.swift:449 | `Int(w / itemWidth)` truncates the ratio toward zero. For a non-negative width it is the number of whole items that fit, and it is at least 1 whenever the frame is at least one item wide. |
| `Layout.HorizontalPadding` | ReorderableGridView-Swift/ReorderableGridView.swift:450 | The padding is undefined (none) exactly when `cols == 1`. Otherwise `cols` items plus `cols - 1` gaps fill the width exactly. |
| `Layout.ColumnXFormula` | ReorderableGridView-Swift/ReorderableGridView.swift:497 | The x origin of column `col` is `(col - 1) * (itemWidth + verticalPadding) + itemWidth`. It depends on the column alone. |
| `Layout.ColumnXSpacing` | ReordableGridView-Swift/ReordableGridView.swift:423 | Neighbouring columns start one item width plus the vertical padding apart. |
| `Layout.ContentHeightIsMaximum` | ReorderableGridView-Swift/ReorderableGridView.swift:476-479 | After a pass, the content height is at least its start value and at least every placed view's bottom plus padding, and it equals one of them. So it is their maximum. |
| `Layout.ContentHeightGrows` | ReordableGridView-Swift/ReordableGridView.swift:402-405 | Placing more views never lowers the content height. |
| `Layout.ColumnStacksDownward` | ReorderableGridView-Swift/ReorderableGridView.swift:500-502 | With non-negative heights and padding, a view's padded bottom is no lower than the top of any later view in the same column. Views in a column do not overlap. |
| `Layout.Trunc` | ReorderableGridView-Swift/ReorderableGridView.swift:583 | `Int(r)` truncates toward zero: it is the floor for non-negative `r` and the ceiling for negative `r`. |
| `Layout.TruncDiv` | ReorderableGridView-Swift/ReorderableGridView.swift:583 | Swift's `Int` division by a positive divisor truncates toward zero. Each sign case has its quotient bounds. |
| `Layout.HitColumn` | ReorderableGridView-Swift/ReorderableGridView.swift:583 | The candidate column is always `< cols`. It is `>= 0` whenever the pointer is not left of the grid. Below the clamp, the pointer's truncated x lies in that column's band. |
| `Layout.HitColumnLeftOfGrid` | ReordableGridView-Swift/ReordableGridView.swift:485 | A pointer one column band or more left of the grid gives a negative candidate column. |
| `Sequences.RemoveAt` | ReorderableGridView-Swift/ReorderableGridView.swift:544 | `removeAtIndex(i)` shortens the array by one and keeps the order of the rest. The multiset loses exactly `s[i]`. |
| `Sequences.InsertAt` | ReorderableGridView-Swift/ReorderableGridView.swift:534 | `insert(x, atIndex: i)` puts `x` at `i` and shifts the suffix by one. The multiset gains exactly `x`. |
| `Sequences.Move` | ReorderableGridView-Swift/ReorderableGridView.swift:487-488 | Remove-then-insert keeps the length and the multiset, and puts the moved element at the target index. |
| `Sequences.MoveKeepsOthers` | ReordableGridView-Swift/ReordableGridView.swift:413-414 | Once the moved element is taken out again, the array is the original without it. The other views keep their relative order. |
| `Sequences.MoveMembers` | ReorderableGridView-Swift/ReorderableGridView.swift:487-488 | A move neither loses nor adds a member. |
| `Sequences.MoveInPlace` | ReorderableGridView-Swift/ReorderableGridView.swift:483-485 | Moving an element onto its own index is the identity, consistent with the early return on an equal position. |
| `Sequences.MoveDistinct` | ReordableGridView-Swift/ReordableGridView.swift:413-414 | A move keeps the array free of duplicates. |
| `Sequences.InsertDistinct` | ReorderableGridView-Swift/ReorderableGridView.swift:534 | Inserting a view that is not yet present keeps the array free of duplicates. |
| `Sequences.RemoveDistinct` | ReorderableGridView-Swift/ReorderableGridView.swift:544 | A removal keeps the array free of duplicates, and the removed view is gone. |
| `Sequences.IndexOf` | ReorderableGridView-Swift/ReorderableGridView.swift:487 | The first index holding `x`. It is in bounds, holds `x`, and no earlier index holds `x`. |
| `Items.Respond` | ReorderableGridView-Swift/ReorderableGridView.swift:282-307 | Gesture state machine. A start is reported exactly on entering reorder mode. A long press is ignored while reordering and otherwise enters it. A tap toggles. Pan `Ended` clears the flag and reports the end. `Changed` reports a move and keeps the flag. Every other pan state changes nothing. |
| `Items.LongPressReentry` | ReordableGridView-Swift/ReordableGridView.swift:271-274 | Two long presses in a row leave the view reordering, and the second one reports nothing. |
| `Items.ReorderableView.constructor` | ReorderableGridView-Swift/ReorderableGridView.swift:218-220 | A new view has the given frame, no grid position, and is not reordering. |
| `Items.ReorderableView.Bottom` | ReorderableGridView-Swift/ReorderableGridView.swift:45-47 | `bottom`: for a frame of non-negative height, the bottom edge is not above the origin. The layout pass reads it for the view above and for the content height. |
| `Items.ReorderableView.SetPosition` | ReorderableGridView-Swift/ReorderableGridView.swift:81-90 | The frame's origin becomes the given point. The size is kept. |
| `Items.ReorderableView.SetCenter` | ReorderableGridView-Swift/ReorderableGridView.swift:576 | The view is centred on the pointer, so its frame contains the pointer whenever it has a positive size. |
| `Items.ReorderableView.LongPressed` | ReordableGridView-Swift/ReordableGridView.swift:271-274 | The flag and the delegate call are those `Respond` gives for a long press. The frame and grid position are untouched. |
| `Items.ReorderableView.DoubleTapped` | ReordableGridView-Swift/ReordableGridView.swift:276-282 | The flag toggles, and a start is reported only on entering reorder mode, as `Respond` gives for a tap. |
| `Items.ReorderableView.Panned` | ReordableGridView-Swift/ReordableGridView.swift:284-296 | `Ended` clears the flag and reports the end, `Changed` reports a move, and every other state is ignored, as `Respond` gives for a pan. |
| `Reorder.LaidOutSettled` | ReorderableGridView-Swift/ReorderableGridView.swift:460-466 | An array that a pass has laid out is settled: view `i` has grid position `PositionOf(i)`. |
| `Reorder.ScanRows` | ReorderableGridView-Swift/ReorderableGridView.swift:586-600 | The row scan of one drag move keeps the array's length and keeps the dragged view in it. |
| `Reorder.ScanRowsPermutes` | ReorderableGridView-Swift/ReorderableGridView.swift:587-600 | The scan's result is a permutation of the array (same multiset) and stays free of duplicates. |
| `Reorder.ScanRowsKeepsOthers` | ReordableGridView-Swift/ReordableGridView.swift:490-503 | Only the dragged view moves: without it, the array after the scan is the array before it. |
| `Reorder.ScanRowsTarget` | ReorderableGridView-Swift/ReorderableGridView.swift:586-598 | After the scan, either the array is unchanged or the dragged view sits in the candidate column on one of the scanned rows. |
| `Reorder.ScanRowsSameSlot` | ReordableGridView-Swift/ReordableGridView.swift:494-500 | If the dragged view ends at its starting index, the whole array is unchanged, because it is never its own swap target. |
| `Reorder.ScanRowsMiss` | ReorderableGridView-Swift/ReorderableGridView.swift:590-598 | When no scanned cell holds another view whose frame contains the pointer, the scan changes nothing. |
| `Reorder.ScanStep` | ReorderableGridView-Swift/ReorderableGridView.swift:588-599 | One row of the scan: on a hit the dragged view moves to the row's cell, the array stays free of duplicates, and the rest of the scan runs on the moved array with layout frames; otherwise the rest runs on the same array. |
| `Reorder.ScanMovedSticks` | ReorderableGridView-Swift/ReorderableGridView.swift:596-597 | Once a row has moved the dragged view, the scan counts as moved whatever the later rows hold. |
| `Reorder.ScanMovedIff` | ReorderableGridView-Swift/ReorderableGridView.swift:586-599 | A scan moves the dragged view exactly when some scanned cell, as the move event found it, holds another view whose frame then contains the pointer. |
| `Reorder.ScanUnmovedKeeps` | ReordableGridView-Swift/ReordableGridView.swift:490-503 | A scan that moves nothing leaves the array as it is. |
| `Reorder.SettledLookup` | ReordableGridView-Swift/ReordableGridView.swift:433-440 | In a settled array, every view has a grid position and that position's index is the view's own index. |
| `Reorder.SettledIndex` | ReorderableGridView-Swift/ReorderableGridView.swift:487 | In a settled array without duplicates, a member's grid position gives back its index. So `removeAtIndex(view.gridPosition!.arrayIndex)` removes that view. |
| `ReorderableGrid.ReorderableGridView.constructor` | ReorderableGridView-Swift/ReorderableGridView.swift:371-378 | A new grid is empty, valid, reorderable and draggable. Its content height is the frame height. |
| `ReorderableGrid.ReorderableGridView.SetFrame` | ReorderableGridView-Swift/MultipleGridViewController.swift:60-67 | A host sets the grid's frame: the width and height become the new ones, and only they change. The grid is configured again exactly when the new width holds one item. The next `InvalidateLayout` then re-measures and restores the invariant. |
| `ReorderableGrid.ReorderableGridView.SetCurrentRow` | ReorderableGridView-Swift/ReorderableGridView.swift:352-358 | The row counter's observer clamps negative values to 0. |
| `ReorderableGrid.ReorderableGridView.SetCurrentCol` | ReorderableGridView-Swift/ReorderableGridView.swift:340-350 | The column counter's observer keeps `0 <= currentCol < cols`. Past the last column it wraps to the next row; before the first it wraps to the previous row (clamped). |
| `ReorderableGrid.ReorderableGridView.InvalidateLayout` | ReorderableGridView-Swift/ReorderableGridView.swift:448-467 | Keeps the array and re-measures from the current frame. Afterwards the grid is valid and freshly laid out: view `i` is at `(i % cols, i / cols)` with the pass's frame, and the content height is that of a pass started at `contentOffset.y + h`. The counters name the next free cell. |
| `ReorderableGrid.ReorderableGridView.NothingToPlace` | ReorderableGridView-Swift/ReorderableGridView.swift:456-458 | An empty array returns right after the reset, and that reset alone is a finished pass: the grid is valid and laid out, with content height `contentOffset.y + h` and the counters at the first cell. |
| `ReorderableGrid.ReorderableGridView.Remeasure` | ReorderableGridView-Swift/ReorderableGridView.swift:449-454 | The start of a pass: the column count and padding of the frame, content height `contentOffset.y + h`, and both counters at 0. |
| `ReorderableGrid.ReorderableGridView.LayOutViews` | ReorderableGridView-Swift/ReorderableGridView.swift:456-466 | After the reset, an empty array returns at once; otherwise the placement loop, from the first cell, leaves every view laid out and settled. The grid's settings are unchanged. |
| `ReorderableGrid.ReorderableGridView.PlaceAll` | ReorderableGridView-Swift/ReorderableGridView.swift:460-466 | The loop over `0 ..< count` extends the placed prefix to the whole array. |
| `ReorderableGrid.ReorderableGridView.PlacedAll` | ReorderableGridView-Swift/ReorderableGridView.swift:460-466 | A pass that has placed every view leaves the array laid out and settled, with the pass's content height. |
| `ReorderableGrid.ReorderableGridView.PlaceNext` | ReorderableGridView-Swift/ReorderableGridView.swift:461-465 | One round reads the counters, post-increments the column, and places view `i`, which extends the placed prefix by one. |
| `ReorderableGrid.ReorderableGridView.AdvanceCounters` | ReorderableGridView-Swift/ReorderableGridView.swift:462 | Post-incrementing `currentCol` at cell `PositionOf(i)` moves the counters to `PositionOf(i + 1)`. |
| `ReorderableGrid.ReorderableGridView.PlaceAt` | ReorderableGridView-Swift/ReorderableGridView.swift:463-465 | Placing view `i` at `PositionOf(i)`, with the earlier views placed, gives it the pass's frame and raises the content height by its bottom. |
| `ReorderableGrid.ReorderableGridView.PlaceView` | ReorderableGridView-Swift/ReorderableGridView.swift:469-480 | The view records the position and moves to the cell's origin. The content height becomes the larger of itself and the view's bottom plus padding. |
| `ReorderableGrid.ReorderableGridView.InsertViewAtPosition` | ReorderableGridView-Swift/ReorderableGridView.swift:482-490 | On an equal position nothing changes. Otherwise the array becomes the move of the view from its index to the target index, and the grid is laid out again. |
| `ReorderableGrid.ReorderableGridView.MoveView` | ReorderableGridView-Swift/ReorderableGridView.swift:487-488 | `removeAtIndex` then `insert` makes the array the `Move` of the old one and keeps it free of duplicates. |
| `ReorderableGrid.ReorderableGridView.GridPositionToViewPosition` | ReorderableGridView-Swift/ReorderableGridView.swift:496-505 | `gridPositionToViewPosition`: y is 0 for a cell in the first row. Below it, y is the bottom of the view whose index is `cols` smaller, plus the vertical padding. The x closed form is in `ViewPositionOf`, the row below. |
| `ReorderableGrid.ReorderableGridView.ViewPositionOf` | ReorderableGridView-Swift/ReorderableGridView.swift:496-505 | x is `(col - 1) * (itemWidth + verticalPadding) + itemWidth`. y is 0 in the first row; otherwise it is the bottom of the view at index `i - cols`, with `i - cols < i`, plus the vertical padding. |
| `ReorderableGrid.ReorderableGridView.ContentCoversViews` | ReorderableGridView-Swift/ReorderableGridView.swift:451-479 | After a pass, the content height is at least `contentOffset.y + h` and at least every view's bottom plus padding, and it is one of these. |
| `ReorderableGrid.ReorderableGridView.ViewAtGridPosition` | ReorderableGridView-Swift/ReorderableGridView.swift:507-514 | None exactly when the index is `>= count`. Otherwise it is the view at the index. |
| `ReorderableGrid.ReorderableGridView.LookupFindsPlacedView` | ReorderableGridView-Swift/ReorderableGridView.swift:507-514 | In a valid grid, looking up a view's own grid position finds that view. |
| `ReorderableGrid.ReorderableGridView.AddReorderableView` | ReorderableGridView-Swift/ReorderableGridView.swift:520-524 | The array becomes the old one with the view appended, and the grid is valid and laid out again. |
| `ReorderableGrid.ReorderableGridView.AddReorderableViewAt` | ReorderableGridView-Swift/ReorderableGridView.swift:526-536 | The view is inserted at `min(arrayIndex, count)`, and the grid is valid and laid out again. |
| `ReorderableGrid.ReorderableGridView.RemoveReorderableViewAtGridPosition` | ReorderableGridView-Swift/ReorderableGridView.swift:542-549 | Nothing changes when the position is unoccupied. Otherwise exactly the view at that index is removed, the order of the rest is kept, and the grid is laid out again. |
| `ReorderableGrid.ReorderableGridView.RemoveReorderableView` | ReorderableGridView-Swift/ReorderableGridView.swift:551-557 | Nothing changes for a view without a grid position. A member of the grid is removed exactly, and the grid is laid out again. A stale non-member removes whatever sits at its position. |
| `ReorderableGrid.ReorderableGridView.DidReorderedView` | ReorderableGridView-Swift/ReorderableGridView.swift:567-601 | When not draggable, nothing changes and nothing is notified. Otherwise the delegate is notified. When both switches are on, the array becomes `ScanRows` over rows `0 ..< count / cols` of the clamped candidate column. The grid is then freshly laid out exactly when the scan moved the view (`ScanMoved`). Without a move, the dragged view is centred on the pointer, and the grid, the other views' frames and every grid position are unchanged. The column is required to be defined only when both switches are on, the one path that computes it. |
| `ReorderableGrid.ReorderableGridView.ScanColumn` | ReorderableGridView-Swift/ReorderableGridView.swift:583-600 | The scan loop leaves the array equal to `ScanRows` of the array at the start of the move. After a move (`ScanMoved`) the grid is freshly laid out. With no move, neither the grid nor any view has changed. |
| `ReorderableGrid.ReorderableGridView.ScanRow` | ReorderableGridView-Swift/ReorderableGridView.swift:588-599 | One row is tested: the dragged view is moved to `(col, row)` exactly when another view is there and its frame contains the pointer. This is one step of `ScanRows`. |
| `ReorderableGrid.ReorderableGridView.DidReorderEndForView` | ReorderableGridView-Swift/ReorderableGridView.swift:603-611 | A drag end relays out the grid, keeping the array, exactly when it is reorderable. Otherwise nothing changes. The end is notified exactly when the grid is draggable. |
| `ReordableGrid.ReordableGridView.constructor` | ReordableGridView-Swift/ReordableGridView.swift:345-351 | A new grid is empty, valid and laid out, with content height 0. |
| `ReordableGrid.ReordableGridView.SetFrame` | ReordableGridView-Swift/ViewController.swift:141-146 | A host sets the grid's frame with `setW(_:h:)` before `invalidateLayout`: the width and height become the new ones, and only they change. The grid is configured again exactly when the new width holds one item, and the next `InvalidateLayout` restores the invariant. |
| `ReordableGrid.ReordableGridView.SetCurrentRow` | ReordableGridView-Swift/ReordableGridView.swift:323-329 | The row counter's observer clamps negative values to 0. |
| `ReordableGrid.ReordableGridView.SetCurrentCol` | ReordableGridView-Swift/ReordableGridView.swift:311-321 | The column counter's observer keeps `0 <= currentCol < cols` and wraps rows as in the newer engine. |
| `ReordableGrid.ReordableGridView.InvalidateLayout` | ReordableGridView-Swift/ReordableGridView.swift:373-388 | Re-measures from the current frame. Afterwards the grid is valid and freshly laid out: view `i` is at `(i % cols, i / cols)` with the pass's frame, and the content height is that of a pass started at 0. |
| `ReordableGrid.ReordableGridView.Remeasure` | ReordableGridView-Swift/ReordableGridView.swift:374-379 | The start of a pass: the column count and padding of the frame, content height 0, and both counters at 0. |
| `ReordableGrid.ReordableGridView.LayOutViews` | ReordableGridView-Swift/ReordableGridView.swift:385-387 | The placement loop, from the first cell and no content height, leaves every view laid out and settled. |
| `ReordableGrid.ReordableGridView.PlaceAll` | ReordableGridView-Swift/ReordableGridView.swift:385-387 | The loop over `0 ..< count` extends the placed prefix to the whole array. |
| `ReordableGrid.ReordableGridView.PlacedAll` | ReordableGridView-Swift/ReordableGridView.swift:385-387 | A pass that has placed every view leaves the array laid out and settled, with the content height of a pass from 0. |
| `ReordableGrid.ReordableGridView.PlaceNext` | ReordableGridView-Swift/ReordableGridView.swift:386 | One `placeView` of view `i` with the counters at `PositionOf(i)` extends the placed prefix by one. |
| `ReordableGrid.ReordableGridView.NextCell` | ReordableGridView-Swift/ReordableGridView.swift:391-399 | Before round `i`, the counters' cell has view `i`'s layout origin, and the post-increment moves them to `PositionOf(i + 1)`. |
| `ReordableGrid.ReordableGridView.PlaceView` | ReordableGridView-Swift/ReordableGridView.swift:390-406 | The view takes the counters' cell and moves to its origin. The column counter is post-incremented through its observer, and the content height is raised to the view's bottom plus padding. |
| `ReordableGrid.ReordableGridView.InsertViewAtPosition` | ReordableGridView-Swift/ReordableGridView.swift:408-416 | On an equal position nothing changes. Otherwise the array becomes the move of the view to the target index, and the grid is laid out again. |
| `ReordableGrid.ReordableGridView.MoveView` | ReordableGridView-Swift/ReordableGridView.swift:413-414 | `removeAtIndex` then `insert` makes the array the `Move` of the old one and keeps it free of duplicates. |
| `ReordableGrid.ReordableGridView.GridPositionToViewPosition` | ReordableGridView-Swift/ReordableGridView.swift:422-431 | `gridPositionToViewPosition`: y is 0 for a cell in the first row. Below it, y is the bottom of the view whose index is `cols` smaller, plus the vertical padding. The x closed form is in `ViewPositionOf`, the row below. |
| `ReordableGrid.ReordableGridView.ViewPositionOf` | ReordableGridView-Swift/ReordableGridView.swift:422-431 | x is `(col - 1) * (itemWidth + verticalPadding) + itemWidth`. y is 0 in the first row, else the bottom of the earlier view at index `i - cols` plus the vertical padding. |
| `ReordableGrid.ReordableGridView.ContentCoversViews` | ReordableGridView-Swift/ReordableGridView.swift:376-405 | After a pass, the content height is at least 0 and at least every view's bottom plus padding, and it is one of these. |
| `ReordableGrid.ReordableGridView.ViewAtGridPosition` | ReordableGridView-Swift/ReordableGridView.swift:433-440 | None exactly when the index is `>= count`. Otherwise it is the view at the index. |
| `ReordableGrid.ReordableGridView.LookupFindsPlacedView` | ReordableGridView-Swift/ReordableGridView.swift:433-440 | In a valid grid, looking up a view's own grid position finds that view. |
| `ReordableGrid.ReordableGridView.AddReordableView` | ReordableGridView-Swift/ReordableGridView.swift:454-458 | The array becomes the old one with the view appended, and the grid is laid out again. |
| `ReordableGrid.ReordableGridView.RemoveReordableViewAtGridPosition` | ReordableGridView-Swift/ReordableGridView.swift:464-471 | Nothing changes when the position is unoccupied. Otherwise exactly the view at that index is removed and the grid is laid out again. |
| `ReordableGrid.ReordableGridView.DidReorderingView` | ReordableGridView-Swift/ReordableGridView.swift:481-504 | No switch is checked: the array becomes `ScanRows` over rows `0 ..< count / cols` of the clamped candidate column. After a move (`ScanMoved`) the grid is freshly laid out. Without one, the dragged view is centred on the pointer, and the grid, the other views' frames and every grid position are unchanged. |
| `ReordableGrid.ReordableGridView.ScanColumn` | ReordableGridView-Swift/ReordableGridView.swift:485-503 | The scan loop leaves the array equal to `ScanRows` of the array at the start of the move. After a move the grid is freshly laid out. With no move, neither the grid nor any view has changed. |
| `ReordableGrid.ReordableGridView.ScanRow` | ReordableGridView-Swift/ReordableGridView.swift:491-502 | One row is tested. The dragged view is never its own target, and it moves exactly when another view's frame there contains the pointer. |
| `ReordableGrid.ReordableGridView.DidReordererdView` | ReordableGridView-Swift/ReordableGridView.swift:506-508 | Every drag end relays out the grid and keeps the array, which restores the settled row-major positions. |
| `MultipleGrid.TransferSymmetric` | ReorderableGridView-Swift/MultipleGridViewController.swift:140-144 | Dropping from the selected grid is the items-grid rule with the two grids swapped. |
| `MultipleGrid.TransferStays` | ReorderableGridView-Swift/MultipleGridViewController.swift:132-134 | A drop outside the other container, or a drag end in neither grid, changes no membership. |
| `MultipleGrid.TransferKeepsViews` | ReorderableGridView-Swift/MultipleGridViewController.swift:130-131 | A transfer keeps the union of the two grids (as a multiset) and the total count. |
| `MultipleGrid.TransferExclusive` | ReorderableGridView-Swift/MultipleGridViewController.swift:127-131 | Distinct, disjoint grids stay so. Afterwards the view is in exactly one grid, and it is in the selected grid exactly when it came from the items grid and was dropped inside. |
| `MultipleGrid.MultipleGridViewController.SourceOf` | ReorderableGridView-Swift/MultipleGridViewController.swift:127-140 | The grid is the items grid exactly when it is `itemsGrid`. It is the selected grid exactly when it is `selectedItemsGrid` and not `itemsGrid`. |
| `MultipleGrid.Transfer` | ReorderableGridView-Swift/MultipleGridViewController.swift:123-149 | The membership rule of `didDragEndFonView`. On a drop inside, the view is in the receiving grid and the source grid has one view fewer. The four lemmas above give symmetry, no change without a drop inside, no view lost or created, and exclusive membership. |
| `MultipleGrid.MultipleGridViewController.DidDragEndFonView` | ReorderableGridView-Swift/MultipleGridViewController.swift:123-149 | The two grids' arrays become `Transfer` of the old ones. Neither grid's frame, scroll offset or switches change. A drag end in neither grid changes neither grid nor any of their views. The source grid, and the receiving grid of a transfer, are laid out again. On a drop that stays in its grid, the other grid and all its views are unchanged. Both grids stay valid and disjoint. |
| `MultipleGrid.MultipleGridViewController.DragEnded` | ReorderableGridView-Swift/MultipleGridViewController.swift:127-135 | On a drop inside, the view is removed from its grid and appended to the other. Otherwise both arrays are kept, the source grid is laid out again, and the other grid and its views are unchanged. Neither grid's settings change. |
| `MultipleGrid.MultipleGridViewController.Relayout` | ReorderableGridView-Swift/MultipleGridViewController.swift:132-134 | Relaying out one grid keeps its array and settings, and leaves the other grid and all its views unchanged. |
| `MultipleGrid.MultipleGridViewController.HandOver` | ReorderableGridView-Swift/MultipleGridViewController.swift:130-131 | `removeReorderableView` then `addReorderableView`: the view leaves one array and is appended to the other, both grids stay disjoint and laid out, and neither grid's settings change. |
| `MultipleGrid.MultipleGridViewController.RemoveFrom` | ReorderableGridView-Swift/MultipleGridViewController.swift:130 | The view is removed from the source grid, whose settings stay. The other grid's array and views are unchanged. |
| `MultipleGrid.MultipleGridViewController.AddTo` | ReorderableGridView-Swift/MultipleGridViewController.swift:131 | The view is appended to the receiving grid, whose settings stay. The source grid and its views are unchanged. |

## Left out

- Frames narrower than one item (`colsInRow == 0`). The code has no guard. The
  model requires `width >= itemWidth` (`Configured`). With zero columns the
  counters' observer and every index computation would divide the grid into
  zero-width rows, which the code never meant to support.
- `horizontalPadding` with a single column. The code divides by
  `colsInRow - 1 = 0`, which stores an IEEE infinity or NaN. The model stores
  `None`. IEEE floating point is not modelled. CGFloat is an exact `real`.
- ReorderableGrid.ReorderableGridView.DidReorderedView: when the grid is both
  draggable and reorderable (the only path that computes a column), requires
  a defined padding with `itemWidth + horizontalPadding >= 1`, and a
  non-negative candidate column whenever a row is scanned. These are the
  inputs for which the column division and row 0's array index are defined.
  With either switch off the handler accepts every input. The code crashes
  outside these inputs. A drag one column band or more left of the grid gives
  a negative column, and `viewAtGridPosition` then subscripts the array with
  a negative index.
- ReordableGrid.ReordableGridView.DidReorderingView: the older handler checks
  no switch and always computes the column, so it has the same two
  requirements unconditionally.
- ReorderableGrid.ReorderableGridView.ViewAtGridPosition: requires a
  non-negative index, because the code traps on a negative one. The same goes
  for the older engine's lookup.
- ReorderableGrid.ReorderableGridView.AddReorderableView: requires the view
  not to be in the grid already. The code would append a second copy; its
  callers only add new views. `AddReorderableViewAt` and the older
  `ReordableGrid.ReordableGridView.AddReordableView` require the same.
- ReorderableGrid.ReorderableGridView.AddReorderableViewAt: requires the
  position's array index to be non-negative, because `insert` traps on a
  negative index. An index past the end appends, as in the code.
- ReorderableGrid.ReorderableGridView.InvalidateLayout: requires the array to
  hold no view twice, which every grid operation preserves. The same holds
  for the older engine's relayout.
- ReorderableGrid.ReorderableGridView.constructor: takes `verticalPadding` as
  a parameter. The code's default argument of 10 is not modelled.
- ReorderableGrid.ReorderableGridView.InsertViewAtPosition: requires the
  view to be in the grid, because its only caller, the drag scan, passes the
  dragged view, which is always a member. The code itself does not trap for
  a non-member whose stale `gridPosition` is in range. It removes whichever
  view holds that index, inserts this one and lays the grid out again. That
  path is not modelled. The code traps for a view with no position and for a
  target index out of range, and the model requires both to be present and
  in bounds. The older engine's insert has the same requirements, for the
  same reasons.
- Swift `Int` overflow. Dafny's `int` is unbounded. The code traps on
  overflow, in `arrayIndex` (`row * cols + col`) and in `Int(location.x)` for
  huge coordinates, and the model does not capture those traps.
- `GridPosition` with an absent `x` or `y`. Every position the core builds has
  both components, so the model uses plain integers and `Option` only for the
  view's unset `gridPosition`. The `string`/`detailedString` helpers are left
  out (text formatting).
- Animations and visual emphasis: `UIView.animateWithDuration`, the
  scale/alpha of `startReorderMode`/`endReorderMode`, `bringSubviewToFront`,
  and the pan recognizer's `addPan`/`removePan`. Placement is "record the
  origin". The frame helpers other than `setPosition`, `center` and `bottom`
  are left out too.
- Gesture recognizer construction and
  `gestureRecognizer(_:shouldRecognizeSimultaneouslyWithGestureRecognizer:)`,
  which is platform plumbing. Gestures are delivered to the handlers as
  `Gesture` values.
- Delegate wiring. A handler returns the delegate call it makes
  (`ReorderEvent`), and the grids return whether the `Draggable` delegate is
  told. `didReorderStartedForView` only forwards to that delegate (the older
  one does nothing), so it is not modelled. `view.delegate = self` in
  `placeView` is left out.
- The subview hierarchy: `addSubview` and `removeFromSuperview` in add and
  remove. The `println` on removing an unplaced view is left out too.
- Viewport culling in the newer engine: `visibleRect`, the `contentOffset`
  observer, `checkReusableViews` and `isViewInVisibleRect`. They depend on
  UIKit superview identity and rectangle intersection. `contentOffset.y` is a
  field that no grid operation changes.
- `setContentHeight`/`addContentHeight`: the content width and the unused
  `addContentHeight`. Only `contentSize.height` is modelled.
- `heightOfCol` in the older engine is a stub that always returns 0, and the
  older engine's `reordable`/`draggable` flags are never read.
- `convertPoint` and `CGRectContainsPoint` for the cross-grid drop. Whether
  the dragged view's centre is inside the other container is the boolean
  `inside`. The view's own frame containing the pointer is modelled
  (`Rect.Contains`).
- The protocol mismatch between `didDragEndFonView` and the `Draggable`
  protocol's `didDragEndForView`: the handler is modelled as the method it is,
  called with the grid the drag ended in. The older two-grid controller is
  not part of this model, because it refers to members the older engine does
  not have.
- The demo screens (`ViewController`, item view construction, random heights,
  colours, fonts). Their rotation handlers only resize the grid and lay it
  out again, which is `SetFrame` followed by `InvalidateLayout`. Item heights
  are the views' frame heights, given when the views are constructed.
- Items dragged by several pointers at once and concurrent events: the
  handlers run one at a time, as on the UI thread.

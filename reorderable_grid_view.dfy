/**
 * The newer engine, `ReorderableGridView`: a scroll view that owns an
 * ordered array of item views, lays them out row-major on every structural
 * change, and turns drag moves into moves of the dragged view within the
 * array. It has the `reorderable` and `draggable` switches, the clamped
 * positional add and the `Draggable` delegate notifications.
 *
 * The grid's methods may change only the frame and the grid position of its
 * item views (their `modifies` clauses name those fields alone), so no grid
 * operation touches a view's `isReordering` flag.
 */
module ReorderableGrid {
  import opened Options
  import opened GridPositions
  import opened Layout
  import opened Sequences
  import opened Items
  import opened Reorder

  class ReorderableGridView {
    var width: real              // the frame's width (`w`)
    var height: real             // the frame's height (`h`)
    const itemWidth: real
    const verticalPadding: real
    var contentOffsetY: real     // the scroll position, set by the scroll view
    var horizontalPadding: Option<real>
    var colsInRow: int
    var reorderable: bool
    var draggable: bool
    var reorderableViews: seq<ReorderableView>
    var currentCol: int
    var currentRow: int
    var contentHeight: real      // `contentSize.height`

    /** The frame can hold at least one item column. */
    predicate Configured()
      reads this
    {
      itemWidth > 0.0 && width >= itemWidth
    }

    function Measures(): Metrics
      reads this
    {
      Metrics(colsInRow, itemWidth, verticalPadding)
    }

    /**
     * The grid's invariant between operations: the column count and padding
     * are those of the frame, the array holds each view once, and every view's
     * grid position is the row-major position of its index.
     */
    ghost predicate Valid()
      reads this, reorderableViews
    {
      && Measured()
      && Distinct(reorderableViews)
      && Settled(reorderableViews, colsInRow)
    }

    /** The column count and padding are those of the frame, which holds at least one column. */
    predicate Measured()
      reads this
    {
      && Configured()
      && colsInRow == ColsInRow(width, itemWidth)
      && horizontalPadding == HorizontalPadding(width, itemWidth, colsInRow)
    }

    /**
     * What a full `invalidateLayout` leaves: every view has the position and
     * frame of its index, and the content height is the larger of the bottom
     * of the visible area and the lowest padded view bottom.
     */
    ghost predicate FreshLayout()
      reads this, reorderableViews
    {
      && 1 <= colsInRow
      && LaidOut(reorderableViews, Measures())
      && contentHeight == ContentHeight(contentOffsetY + height, Heights(reorderableViews), Measures(), |reorderableViews|)
    }

    /** The frame, the switches and the scroll position, which no grid operation changes. */
    twostate predicate SameSettings()
      reads this
    {
      && width == old(width) && height == old(height)
      && reorderable == old(reorderable) && draggable == old(draggable) && contentOffsetY == old(contentOffsetY)
    }

    /** `init(frame:itemWidth:verticalPadding:)`: an empty grid, laid out. */
    constructor (width: real, height: real, itemWidth: real, verticalPadding: real)
      requires itemWidth > 0.0 && width >= itemWidth
      ensures Valid() && reorderableViews == []
      ensures reorderable && draggable
      ensures contentOffsetY == 0.0 && contentHeight == height
    {
      this.width := width;
      this.height := height;
      this.itemWidth := itemWidth;
      this.verticalPadding := verticalPadding;
      contentOffsetY := 0.0;
      horizontalPadding := None;
      colsInRow := 0;
      reorderable := true;
      draggable := true;
      reorderableViews := [];
      currentCol := 0;
      currentRow := 0;
      contentHeight := 0.0;
      new;
      InvalidateLayout();
    }

    /**
     * Setting `frame` (a host resizing the grid): the new width and height.
     * The column count and padding keep their old values until the next
     * `invalidateLayout`, which re-measures them whenever the new frame still
     * holds one item column.
     */
    method SetFrame(w: real, h: real)
      modifies this`width, this`height
      ensures width == w && height == h
      ensures Configured() <==> itemWidth > 0.0 && w >= itemWidth
    {
      width, height := w, h;
    }

    /** The clamp of `currentRow`'s observer. */
    method SetCurrentRow(value: int)
      modifies this`currentRow
      ensures currentRow == if value < 0 then 0 else value
    {
      currentRow := value;
      if currentRow < 0 {
        currentRow := 0;
      }
    }

    /** `currentCol`'s observer: past the last column wraps to the next row, before the first wraps back a row. */
    method SetCurrentCol(value: int)
      requires 1 <= colsInRow
      modifies this`currentCol, this`currentRow
      ensures 0 <= currentCol < colsInRow
      ensures value > colsInRow - 1 ==> currentCol == 0 && currentRow == if old(currentRow) + 1 < 0 then 0 else old(currentRow) + 1
      ensures value < 0 ==> currentCol == colsInRow - 1 && currentRow == if old(currentRow) - 1 < 0 then 0 else old(currentRow) - 1
      ensures 0 <= value <= colsInRow - 1 ==> currentCol == value && currentRow == old(currentRow)
    {
      currentCol := value;
      if currentCol > colsInRow - 1 {
        currentCol := 0;
        SetCurrentRow(currentRow + 1);
      } else if currentCol < 0 {
        currentCol := colsInRow - 1;
        SetCurrentRow(currentRow - 1);
      }
    }

    /**
     * `invalidateLayout`: recompute the column count and padding, reset the
     * content height to the bottom of the visible area, then place view `i`
     * at row-major position `i` with the wrapping counters. Afterwards the
     * counters name the next free cell.
     */
    method InvalidateLayout()
      requires Configured() && Distinct(reorderableViews)
      modifies this`colsInRow, this`horizontalPadding, this`contentHeight, this`currentCol, this`currentRow
      modifies reorderableViews`x, reorderableViews`y, reorderableViews`gridPosition
      ensures Valid() && SameSettings()
      ensures reorderableViews == old(reorderableViews)
      ensures FreshLayout()
      ensures GridPosition(currentCol, currentRow) == PositionOf(|reorderableViews|, colsInRow)
    {
      Remeasure();
      LayOutViews();
    }

    /** With no views the reset alone is a finished pass: the counters stay at the first cell. */
    lemma NothingToPlace()
      requires Measured() && |reorderableViews| == 0
      requires currentCol == 0 && currentRow == 0 && contentHeight == contentOffsetY + height
      ensures Valid() && FreshLayout()
      ensures GridPosition(currentCol, currentRow) == PositionOf(|reorderableViews|, colsInRow)
    {
    }

    /** The start of `invalidateLayout`: the measures of the frame, the content height of the visible area, the counters at the first cell. */
    method Remeasure()
      requires Configured()
      modifies this`colsInRow, this`horizontalPadding, this`contentHeight, this`currentCol, this`currentRow
      ensures Measured() && 1 <= colsInRow && SameSettings()
      ensures contentHeight == contentOffsetY + height
      ensures currentCol == 0 && currentRow == 0
    {
      colsInRow := ColsInRow(width, itemWidth);
      horizontalPadding := HorizontalPadding(width, itemWidth, colsInRow);
      contentHeight := contentOffsetY + height;

      SetCurrentCol(0);
      SetCurrentRow(0);
    }

    /**
     * The placement loop of `invalidateLayout`: with the counters at the
     * first cell, place each view at the counters' cell and advance them.
     * An empty array returns before the loop.
     */
    method LayOutViews()
      requires Measured() && Distinct(reorderableViews)
      requires currentCol == 0 && currentRow == 0 && contentHeight == contentOffsetY + height
      modifies this`contentHeight, this`currentCol, this`currentRow, reorderableViews`x, reorderableViews`y, reorderableViews`gridPosition
      ensures Valid() && FreshLayout() && SameSettings()
      ensures GridPosition(currentCol, currentRow) == PositionOf(|reorderableViews|, colsInRow)
    {
      if |reorderableViews| == 0 {
        NothingToPlace();
        return;
      }
      ghost var initial := contentHeight;
      PlaceAll(initial);
      PlacedAll(initial);
    }

    /** The loop itself: from the counters at the first cell, one `PlaceNext` per view. */
    method PlaceAll(ghost initial: real)
      requires PlacedUpTo(0, initial)
      modifies this`contentHeight, this`currentCol, this`currentRow, reorderableViews`x, reorderableViews`y, reorderableViews`gridPosition
      ensures PlacedUpTo(|reorderableViews|, initial)
    {
      for i := 0 to |reorderableViews|
        invariant PlacedUpTo(i, initial)
      {
        PlaceNext(i, initial);
      }
    }

    /** A pass that has placed every view leaves the array laid out and settled. */
    lemma PlacedAll(initial: real)
      requires PlacedUpTo(|reorderableViews|, initial)
      ensures LaidOut(reorderableViews, Measures()) && Settled(reorderableViews, colsInRow)
      ensures contentHeight == ContentHeight(initial, Heights(reorderableViews), Measures(), |reorderableViews|)
    {
      LaidOutSettled(reorderableViews, Measures());
    }

    /**
     * The state of the placement loop after `i` rounds: the counters name
     * row-major position `i`, the first `i` views are placed, and the content
     * height has grown by each of them from `initial`.
     */
    ghost predicate PlacedUpTo(i: int, initial: real)
      reads this, reorderableViews
    {
      && 1 <= colsInRow && Distinct(reorderableViews) && 0 <= i <= |reorderableViews|
      && GridPosition(currentCol, currentRow) == PositionOf(i, colsInRow)
      && Placed(reorderableViews, Measures(), i)
      && contentHeight == ContentHeight(initial, Heights(reorderableViews), Measures(), i)
    }

    /** One round of the placement loop: read the counters' cell, post-increment the column counter, then place view `i` in that cell. */
    method PlaceNext(i: int, ghost initial: real)
      requires PlacedUpTo(i, initial) && i < |reorderableViews|
      modifies this`contentHeight, this`currentCol, this`currentRow, reorderableViews`x, reorderableViews`y, reorderableViews`gridPosition
      ensures PlacedUpTo(i + 1, initial)
    {
      var y := currentRow;
      var x := currentCol;
      AdvanceCounters(i);
      PlaceAt(reorderableViews[i], GridPosition(x, y), i, initial);
    }

    /** Post-incrementing the column counter at row-major position `i` (and wrapping at the row end) moves the counters to position `i + 1`. */
    method AdvanceCounters(i: int)
      requires 1 <= colsInRow && 0 <= i
      requires GridPosition(currentCol, currentRow) == PositionOf(i, colsInRow)
      modifies this`currentCol, this`currentRow
      ensures GridPosition(currentCol, currentRow) == PositionOf(i + 1, colsInRow)
    {
      PositionOfSuccessor(i, colsInRow);
      SetCurrentCol(currentCol + 1);
    }

    /** The placement of view `i` by the loop: a `placeView` at row-major position `i` extends the placed prefix. */
    method PlaceAt(view: ReorderableView, pos: GridPosition, ghost i: int, ghost initial: real)
      requires 1 <= colsInRow && Distinct(reorderableViews) && 0 <= i < |reorderableViews|
      requires view == reorderableViews[i] && pos == PositionOf(i, colsInRow)
      requires Placed(reorderableViews, Measures(), i)
      requires contentHeight == ContentHeight(initial, Heights(reorderableViews), Measures(), i)
      modifies this`contentHeight, view`x, view`y, view`gridPosition
      ensures Placed(reorderableViews, Measures(), i + 1)
      ensures contentHeight == ContentHeight(initial, Heights(reorderableViews), Measures(), i + 1)
    {
      ghost var target := LayoutRect(reorderableViews, Measures(), i);
      UpOfPositionOf(i, colsInRow);
      if i >= colsInRow {
        PlacedAt(reorderableViews, Measures(), i, i - colsInRow);
      }
      assert GridPositionToViewPosition(pos) == Point(target.x, target.y);
      PlaceView(view, pos);
      assert view.Frame() == target;
    }

    /**
     * `placeView`: record the position, move the view to the cell's origin,
     * and raise the content height to the view's bottom plus padding if that
     * is larger.
     */
    method PlaceView(view: ReorderableView, toGridPosition: GridPosition)
      requires toGridPosition.row >= 1 ==> 0 <= ArrayIndex(Up(toGridPosition).value, colsInRow) < |reorderableViews|
      modifies this`contentHeight, view`x, view`y, view`gridPosition
      ensures view.gridPosition == Some(toGridPosition)
      ensures view.x == old(GridPositionToViewPosition(toGridPosition)).x
      ensures view.y == old(GridPositionToViewPosition(toGridPosition)).y
      ensures contentHeight == if view.Bottom() + verticalPadding > old(contentHeight)
                               then view.Bottom() + verticalPadding else old(contentHeight)
    {
      var pos := GridPositionToViewPosition(toGridPosition);
      view.gridPosition := Some(toGridPosition);
      view.SetPosition(pos);

      var bottom := view.Bottom() + verticalPadding;
      if bottom > contentHeight {
        contentHeight := bottom;
      }
    }

    /**
     * `insertViewAtPosition`: nothing when the view already has that
     * position; else take it out at its own index, put it back at the
     * target's index, and lay everything out again.
     */
    method InsertViewAtPosition(view: ReorderableView, position: GridPosition)
      requires Valid() && view in reorderableViews
      requires 0 <= ArrayIndex(position, colsInRow) < |reorderableViews|
      modifies this, reorderableViews`x, reorderableViews`y, reorderableViews`gridPosition
      ensures Valid() && SameSettings()
      ensures old(view.gridPosition) == Some(position) ==> unchanged(this) && unchanged(old(reorderableViews))
      ensures forall k :: 0 <= k < |reorderableViews| ==> reorderableViews[k] in old(reorderableViews)
      ensures old(view.gridPosition) != Some(position) ==>
        && reorderableViews == Move(old(reorderableViews), IndexOf(old(reorderableViews), view), ArrayIndex(position, colsInRow))
        && FreshLayout()
    {
      if view.gridPosition == Some(position) {
        return;
      }
      SettledIndex(reorderableViews, colsInRow, view);
      MoveView(ArrayIndex(view.gridPosition.value, colsInRow), ArrayIndex(position, colsInRow));
      InvalidateLayout();
    }

    /** `removeAtIndex(from)` then `insert(view, atIndex: to)` on the array. */
    method MoveView(from: int, to: int)
      requires Distinct(reorderableViews) && 0 <= from < |reorderableViews| && 0 <= to < |reorderableViews|
      modifies this`reorderableViews
      ensures reorderableViews == Move(old(reorderableViews), from, to)
      ensures Distinct(reorderableViews)
      ensures forall k :: 0 <= k < |reorderableViews| ==> reorderableViews[k] in old(reorderableViews)
    {
      ghost var before := reorderableViews;
      var view := reorderableViews[from];
      reorderableViews := RemoveAt(reorderableViews, from);
      reorderableViews := InsertAt(reorderableViews, to, view);
      MoveDistinct(before, from, to);
      MoveMembers(before, from, to);
    }

    /**
     * `gridPositionToViewPosition`: x from the column alone, y the bottom of
     * the view in the cell above plus the vertical padding (0 in the first row).
     */
    function GridPositionToViewPosition(gridPosition: GridPosition): (r: Point)
      reads this, reorderableViews
      requires gridPosition.row >= 1 ==> 0 <= ArrayIndex(Up(gridPosition).value, colsInRow) < |reorderableViews|
      ensures gridPosition.row <= 0 ==> r.y == 0.0
      ensures gridPosition.row >= 1 ==> r.y == reorderableViews[ArrayIndex(gridPosition, colsInRow) - colsInRow].Bottom() + verticalPadding
    {
      var x := ColumnX(gridPosition.col, itemWidth, verticalPadding);
      match Up(gridPosition)
      case None => Point(x, 0.0)
      case Some(up) => Point(x, ViewAtGridPosition(up).value.Bottom() + verticalPadding)
    }

    /**
     * The pixel origin of a cell: x is `(col - 1) * (itemWidth + verticalPadding) + itemWidth`,
     * the column alone with the vertical padding; y is 0 in the first row and
     * otherwise the bottom of the view one row up plus the vertical padding,
     * a view whose index is `cols` smaller.
     */
    lemma ViewPositionOf(p: GridPosition)
      requires 1 <= colsInRow
      requires p.row >= 1 ==> 0 <= ArrayIndex(Up(p).value, colsInRow) < |reorderableViews|
      ensures GridPositionToViewPosition(p).x == (p.col - 1) as real * (itemWidth + verticalPadding) + itemWidth
      ensures p.row <= 0 ==> GridPositionToViewPosition(p).y == 0.0
      ensures p.row >= 1 ==>
        && ArrayIndex(Up(p).value, colsInRow) == ArrayIndex(p, colsInRow) - colsInRow < ArrayIndex(p, colsInRow)
        && GridPositionToViewPosition(p).y == reorderableViews[ArrayIndex(p, colsInRow) - colsInRow].Bottom() + verticalPadding
    {
      ColumnXFormula(p.col, itemWidth, verticalPadding);
      NeighbourIndices(p, colsInRow);
    }

    /**
     * After a full layout pass the content height is at least the bottom of the visible area and
     * at least every view's bottom plus the vertical padding, and it is one
     * of these values.
     */
    lemma ContentCoversViews()
      requires FreshLayout()
      ensures contentHeight >= contentOffsetY + height
      ensures forall k :: 0 <= k < |reorderableViews| ==> contentHeight >= reorderableViews[k].Bottom() + verticalPadding
      ensures contentHeight == contentOffsetY + height || exists k :: 0 <= k < |reorderableViews| && contentHeight == reorderableViews[k].Bottom() + verticalPadding
    {
      var heights := Heights(reorderableViews);
      ContentHeightIsMaximum(contentOffsetY + height, heights, Measures(), |reorderableViews|);
      forall k | 0 <= k < |reorderableViews|
        ensures PaddedBottom(heights, Measures(), k) == reorderableViews[k].Bottom() + verticalPadding
      {
        LaidOutAt(reorderableViews, Measures(), k);
      }
    }

    /** `viewAtGridPosition`: the view at the position's index, or none past the end. */
    function ViewAtGridPosition(gridPosition: GridPosition): (r: Option<ReorderableView>)
      reads this
      requires ArrayIndex(gridPosition, colsInRow) >= 0
      ensures r.None? <==> ArrayIndex(gridPosition, colsInRow) >= |reorderableViews|
      ensures r.Some? ==> r.value == reorderableViews[ArrayIndex(gridPosition, colsInRow)]
    {
      var index := ArrayIndex(gridPosition, colsInRow);
      if index < |reorderableViews| then Some(reorderableViews[index]) else None
    }

    /** In a valid grid the lookup of a view's own position finds that view: layout and lookup agree. */
    lemma LookupFindsPlacedView(i: int)
      requires Valid() && 0 <= i < |reorderableViews|
      ensures reorderableViews[i].gridPosition.Some?
      ensures ArrayIndex(reorderableViews[i].gridPosition.value, colsInRow) >= 0
      ensures ViewAtGridPosition(reorderableViews[i].gridPosition.value) == Some(reorderableViews[i])
    {
      SettledLookup(reorderableViews, colsInRow, i);
    }

    /** `addReorderableView(view)`: append and lay out. */
    method AddReorderableView(view: ReorderableView)
      requires Valid() && view !in reorderableViews
      modifies this, reorderableViews`x, reorderableViews`y, reorderableViews`gridPosition, view`x, view`y, view`gridPosition
      ensures Valid() && SameSettings()
      ensures reorderableViews == old(reorderableViews) + [view]
      ensures FreshLayout()
    {
      InsertDistinct(reorderableViews, |reorderableViews|, view);
      assert InsertAt(reorderableViews, |reorderableViews|, view) == reorderableViews + [view];
      reorderableViews := reorderableViews + [view];
      InvalidateLayout();
    }

    /** `addReorderableView(view, gridPosition:)`: insert at the position's index, or append when that is past the end. */
    method AddReorderableViewAt(view: ReorderableView, gridPosition: GridPosition)
      requires Valid() && view !in reorderableViews
      requires ArrayIndex(gridPosition, colsInRow) >= 0
      modifies this, reorderableViews`x, reorderableViews`y, reorderableViews`gridPosition, view`x, view`y, view`gridPosition
      ensures Valid() && SameSettings()
      ensures var index := ArrayIndex(gridPosition, old(colsInRow));
        reorderableViews == InsertAt(old(reorderableViews), if index < |old(reorderableViews)| then index else |old(reorderableViews)|, view)
      ensures FreshLayout()
    {
      var addingIndex := ArrayIndex(gridPosition, colsInRow);
      if addingIndex >= |reorderableViews| {
        addingIndex := |reorderableViews|;
      }
      InsertDistinct(reorderableViews, addingIndex, view);
      reorderableViews := InsertAt(reorderableViews, addingIndex, view);
      InvalidateLayout();
    }

    /** `removeReorderableViewAtGridPosition`: nothing when no view is there; else remove it and lay out. */
    method RemoveReorderableViewAtGridPosition(gridPosition: GridPosition)
      requires Valid()
      requires ArrayIndex(gridPosition, colsInRow) >= 0
      modifies this, reorderableViews`x, reorderableViews`y, reorderableViews`gridPosition
      ensures Valid() && SameSettings()
      ensures ArrayIndex(gridPosition, old(colsInRow)) >= |old(reorderableViews)| ==>
        unchanged(this) && unchanged(old(reorderableViews))
      ensures ArrayIndex(gridPosition, old(colsInRow)) < |old(reorderableViews)| ==>
        && reorderableViews == RemoveAt(old(reorderableViews), ArrayIndex(gridPosition, old(colsInRow)))
        && FreshLayout()
    {
      var found := ViewAtGridPosition(gridPosition);
      if found.Some? {
        ghost var before := reorderableViews;
        var index := ArrayIndex(gridPosition, colsInRow);
        RemoveDistinct(reorderableViews, index);
        reorderableViews := RemoveAt(reorderableViews, index);
        assert forall k :: 0 <= k < |reorderableViews| ==> reorderableViews[k] in before;
        InvalidateLayout();
      }
    }

    /**
     * `removeReorderableView`: nothing for a view without a grid position;
     * else remove whatever is at that position. For a member of this grid
     * that is exactly the view.
     */
    method RemoveReorderableView(view: ReorderableView)
      requires Valid()
      requires view.gridPosition.Some? ==> ArrayIndex(view.gridPosition.value, colsInRow) >= 0
      modifies this, reorderableViews`x, reorderableViews`y, reorderableViews`gridPosition
      ensures Valid() && SameSettings()
      ensures old(view.gridPosition).None? ==> unchanged(this) && unchanged(old(reorderableViews))
      ensures view in old(reorderableViews) ==>
        && reorderableViews == RemoveAt(old(reorderableViews), IndexOf(old(reorderableViews), view))
        && view !in reorderableViews
        && FreshLayout()
      ensures old(view.gridPosition).Some? && view !in old(reorderableViews) ==>
        var index := ArrayIndex(old(view.gridPosition).value, old(colsInRow));
        reorderableViews == if index < |old(reorderableViews)| then RemoveAt(old(reorderableViews), index) else old(reorderableViews)
    {
      if view.gridPosition.Some? {
        if view in reorderableViews {
          SettledIndex(reorderableViews, colsInRow, view);
          RemoveDistinct(reorderableViews, IndexOf(reorderableViews, view));
        }
        RemoveReorderableViewAtGridPosition(view.gridPosition.value);
      }
    }

    /**
     * `didReorderedView`: a drag move of `view` to `location`. Nothing when
     * the grid is not draggable; else the view follows the pointer and, when
     * the grid is reorderable, the rows `0 ..< count / cols` of the candidate
     * column are scanned as `ScanRows` describes. `notified` is whether the
     * `Draggable` delegate is told of the move; `moved` is whether the scan
     * moved the view, after which every view has its layout frame. Without a
     * move only the dragged view has changed: it is centred on the pointer.
     * The column is computed only when both switches are on, so only then
     * must it be defined.
     */
    method DidReorderedView(view: ReorderableView, location: Point) returns (notified: bool, ghost moved: bool)
      requires Valid() && view in reorderableViews
      requires draggable && reorderable ==> horizontalPadding.Some? && itemWidth + horizontalPadding.value >= 1.0
      requires draggable && reorderable ==>
        HitColumn(location.x, itemWidth, horizontalPadding.value, colsInRow) >= 0 || |reorderableViews| / colsInRow == 0
      modifies this, reorderableViews`x, reorderableViews`y, reorderableViews`gridPosition
      ensures Valid() && SameSettings()
      ensures notified == old(draggable)
      ensures !old(draggable) ==> unchanged(this) && unchanged(old(reorderableViews))
      ensures old(draggable) && old(reorderable) ==>
        && reorderableViews == ScanRows(old(reorderableViews), view,
                                        HitColumn(location.x, itemWidth, old(horizontalPadding).value, old(colsInRow)),
                                        0, |old(reorderableViews)| / old(colsInRow),
                                        location, old(Frames(reorderableViews)), false, old(Measures()))
        && moved == ScanMoved(old(reorderableViews), view,
                              HitColumn(location.x, itemWidth, old(horizontalPadding).value, old(colsInRow)),
                              0, |old(reorderableViews)| / old(colsInRow),
                              location, old(Frames(reorderableViews)), false, old(Measures()))
      ensures moved ==> old(draggable) && old(reorderable) && FreshLayout()
      ensures old(draggable) && !moved ==>
        && unchanged(this)
        && view.Frame() == Rect(location.x - view.width / 2.0, location.y - view.height / 2.0, view.width, view.height)
        && forall w :: w in old(reorderableViews) ==>
             w.gridPosition == old(w.gridPosition) && (w != view ==> w.x == old(w.x) && w.y == old(w.y))
    {
      moved := false;
      if !draggable {
        return false, moved;
      }
      notified := true;

      view.SetCenter(location);

      if !reorderable {
        return;
      }

      var col := HitColumn(location.x, itemWidth, horizontalPadding.value, colsInRow);
      moved := ScanColumn(view, col, location, old(Frames(reorderableViews)));
    }

    /**
     * The scan loop of `didReorderedView`: rows `0 ..< count / cols` of
     * column `col`, one `ScanRow` each. `frames0` are the frames the views
     * had when the move event arrived; only the dragged view has moved since.
     */
    method ScanColumn(view: ReorderableView, col: int, location: Point, ghost frames0: seq<Rect>) returns (ghost moved: bool)
      requires Valid() && view in reorderableViews
      requires 0 <= col || |reorderableViews| / colsInRow == 0
      requires |frames0| == |reorderableViews|
      requires forall k :: 0 <= k < |reorderableViews| && reorderableViews[k] != view ==> reorderableViews[k].Frame() == frames0[k]
      modifies this, reorderableViews`x, reorderableViews`y, reorderableViews`gridPosition
      ensures Valid() && SameSettings()
      ensures reorderableViews == ScanRows(old(reorderableViews), view, col, 0, |old(reorderableViews)| / old(colsInRow),
                                           location, frames0, false, old(Measures()))
      ensures moved == ScanMoved(old(reorderableViews), view, col, 0, |old(reorderableViews)| / old(colsInRow),
                                 location, frames0, false, old(Measures()))
      ensures moved ==> FreshLayout()
      ensures !moved ==> unchanged(this) && unchanged(old(reorderableViews))
    {
      ghost var s0 := reorderableViews;
      ghost var m := Measures();
      ghost var laidOut := false;

      // the bound `count / cols` is the same on every round: a move keeps the count
      var rows := |reorderableViews| / colsInRow;
      var row := 0;
      while row < rows
        invariant Scanning(view, s0, frames0, laidOut) && SameSettings() && Measures() == m
        invariant 0 <= row && (rows > 0 ==> row <= rows && 0 <= col)
        invariant ScanRows(reorderableViews, view, col, row, rows, location, frames0, laidOut, m)
               == ScanRows(s0, view, col, 0, rows, location, frames0, false, m)
        invariant ScanMoved(reorderableViews, view, col, row, rows, location, frames0, laidOut, m)
               == ScanMoved(s0, view, col, 0, rows, location, frames0, false, m)
        invariant !laidOut ==> unchanged(this) && unchanged(s0)
      {
        laidOut := ScanRow(view, col, row, rows, location, s0, frames0, laidOut);
        row := row + 1;
      }
      moved := laidOut;
    }

    /**
     * The state of the grid during the scan of one drag move: valid, with the
     * dragged view among the views of `s0`, the array as it was when the move
     * arrived (`s0`) and the other views' frames untouched until the first
     * move, and fully laid out after it.
     */
    ghost predicate Scanning(view: ReorderableView, s0: seq<ReorderableView>, frames0: seq<Rect>, laidOut: bool)
      reads this, reorderableViews
    {
      && Valid() && view in reorderableViews
      && |reorderableViews| == |s0| == |frames0|
      && (forall k :: 0 <= k < |reorderableViews| ==> reorderableViews[k] in s0)
      && (!laidOut ==> reorderableViews == s0)
      && (!laidOut ==> forall k :: 0 <= k < |s0| && s0[k] != view ==> s0[k].Frame() == frames0[k])
      && (laidOut ==> FreshLayout())
    }

    /**
     * One round of the scan loop of `didReorderedView`: look up the view at
     * (col, row); skip the dragged view itself; move the dragged view there
     * when that view's frame contains the pointer. `laidOut'` says whether a
     * move has happened so far, so that later rounds see layout frames.
     */
    method ScanRow(view: ReorderableView, col: int, row: int, ghost rows: int, location: Point,
                   ghost s0: seq<ReorderableView>, ghost frames0: seq<Rect>, ghost laidOut: bool) returns (ghost laidOut': bool)
      requires Scanning(view, s0, frames0, laidOut) && 0 <= col && 0 <= row < rows
      modifies this, s0`x, s0`y, s0`gridPosition
      ensures Scanning(view, s0, frames0, laidOut') && SameSettings() && Measures() == old(Measures())
      ensures laidOut' == (laidOut || Hit(old(reorderableViews), view, col, row, location, frames0, laidOut, Measures()))
      ensures Hit(old(reorderableViews), view, col, row, location, frames0, laidOut, Measures()) ==>
        reorderableViews == Move(old(reorderableViews), IndexOf(old(reorderableViews), view), ArrayIndex(GridPosition(col, row), colsInRow))
      ensures !Hit(old(reorderableViews), view, col, row, location, frames0, laidOut, Measures()) ==>
        reorderableViews == old(reorderableViews)
      // the round is one step of the scan function
      ensures ScanRows(reorderableViews, view, col, row + 1, rows, location, frames0, laidOut', Measures())
           == ScanRows(old(reorderableViews), view, col, row, rows, location, frames0, laidOut, Measures())
      ensures ScanMoved(reorderableViews, view, col, row + 1, rows, location, frames0, laidOut', Measures())
           == ScanMoved(old(reorderableViews), view, col, row, rows, location, frames0, laidOut, Measures())
      ensures !laidOut' ==> unchanged(this) && unchanged(s0)
    {
      ghost var s, m := reorderableViews, Measures();
      ghost var hit := Hit(s, view, col, row, location, frames0, laidOut, m);
      ScanStep(s, view, col, row, rows, location, frames0, laidOut, m);
      laidOut' := laidOut;
      RowStartBounds(row, colsInRow);
      var gridPos := GridPosition(col, row);
      var other := ViewAtGridPosition(gridPos);
      if other.Some? && other.value != view {
        ghost var k := ArrayIndex(gridPos, colsInRow);
        if laidOut {
          LaidOutAt(s, m, k);
        }
        assert other.value.Frame() == FrameAt(s, frames0, laidOut, m, k);
        if other.value.Frame().Contains(location) {
          assert hit;
          SettledIndex(s, colsInRow, view);
          InsertViewAtPosition(view, gridPos);
          laidOut' := true;
        } else {
          assert !hit;
        }
      } else {
        assert !hit;
      }
    }

    /** `didReorderEndForView`: lay out again when the grid is reorderable; `notifyDragEnd` is whether the `Draggable` delegate is told. */
    method DidReorderEndForView(view: ReorderableView) returns (notifyDragEnd: bool)
      requires Valid()
      modifies this, reorderableViews`x, reorderableViews`y, reorderableViews`gridPosition
      ensures Valid() && SameSettings()
      ensures notifyDragEnd == old(draggable)
      ensures old(reorderable) ==>
        && reorderableViews == old(reorderableViews)
        && FreshLayout()
      ensures !old(reorderable) ==> unchanged(this) && unchanged(old(reorderableViews))
    {
      if reorderable {
        InvalidateLayout();
      }
      notifyDragEnd := draggable;
    }
  }
}

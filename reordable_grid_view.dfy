/**
 * The older engine, `ReordableGridView`: the same row-major grid as the newer
 * one, with three differences that matter here. A layout pass starts the
 * content height at 0, `placeView` advances the wrapping counters itself,
 * and nothing is switched off: every drag move may reorder and every drag
 * end lays the grid out again. It has no positional add and no removal by
 * view. Its item views are `Items.ReorderableView`, whose code the older
 * `ReordableView` shares.
 *
 * As in the newer engine, the grid's methods may change only the frame and
 * the grid position of its item views, never their `isReordering` flag.
 */
module ReordableGrid {
  import opened Options
  import opened GridPositions
  import opened Layout
  import opened Sequences
  import opened Items
  import opened Reorder

  class ReordableGridView {
    var width: real              // the frame's width (`w`)
    var height: real             // the frame's height (`h`)
    const itemWidth: real
    const verticalPadding: real
    var horizontalPadding: Option<real>
    var colsInRow: int
    var reordableViews: seq<ReorderableView>
    var currentCol: int
    var currentRow: int
    var contentHeight: real      // `contentSize.height`

    /** The frame can hold at least one item column. */
    predicate Configured()
      reads this
    {
      itemWidth > 0.0 && width >= itemWidth
    }

    function Measures(): Metrics
      reads this
    {
      Metrics(colsInRow, itemWidth, verticalPadding)
    }

    /**
     * The grid's invariant between operations: the column count and padding
     * are those of the frame, the array holds each view once, and every view's
     * grid position is the row-major position of its index.
     */
    ghost predicate Valid()
      reads this, reordableViews
    {
      && Configured()
      && colsInRow == ColsInRow(width, itemWidth)
      && horizontalPadding == HorizontalPadding(width, itemWidth, colsInRow)
      && Distinct(reordableViews)
      && Settled(reordableViews, colsInRow)
    }

    /**
     * What a full `invalidateLayout` leaves: every view has the position and
     * frame of its index, and the content height is the lowest padded view
     * bottom (0 for an empty grid).
     */
    ghost predicate FreshLayout()
      reads this, reordableViews
    {
      && 1 <= colsInRow
      && LaidOut(reordableViews, Measures())
      && contentHeight == ContentHeight(0.0, Heights(reordableViews), Measures(), |reordableViews|)
    }

    /** The frame, which no grid operation changes. */
    twostate predicate SameFrame()
      reads this
    {
      width == old(width) && height == old(height)
    }

    /**
     * Setting `frame` (a host resizing the grid): the new width and height.
     * The column count and padding keep their old values until the next
     * `invalidateLayout`, which re-measures them whenever the new frame still
     * holds one item column.
     */
    method SetFrame(w: real, h: real)
      modifies this`width, this`height
      ensures width == w && height == h
      ensures Configured() <==> itemWidth > 0.0 && w >= itemWidth
    {
      width, height := w, h;
    }

    /** `init(frame:itemWidth:verticalPadding:)`: an empty grid, laid out, with no content height. */
    constructor (width: real, height: real, itemWidth: real, verticalPadding: real)
      requires itemWidth > 0.0 && width >= itemWidth
      ensures Valid() && FreshLayout() && reordableViews == []
      ensures contentHeight == 0.0
    {
      this.width := width;
      this.height := height;
      this.itemWidth := itemWidth;
      this.verticalPadding := verticalPadding;
      horizontalPadding := None;
      colsInRow := 0;
      reordableViews := [];
      currentCol := 0;
      currentRow := 0;
      contentHeight := 0.0;
      new;
      InvalidateLayout();
    }

    /** The clamp of `currentRow`'s observer. */
    method SetCurrentRow(value: int)
      modifies this`currentRow
      ensures currentRow == if value < 0 then 0 else value
    {
      currentRow := value;
      if currentRow < 0 {
        currentRow := 0;
      }
    }

    /** `currentCol`'s observer: past the last column wraps to the next row, before the first wraps back a row. */
    method SetCurrentCol(value: int)
      requires 1 <= colsInRow
      modifies this`currentCol, this`currentRow
      ensures 0 <= currentCol < colsInRow
      ensures value > colsInRow - 1 ==> currentCol == 0 && currentRow == if old(currentRow) + 1 < 0 then 0 else old(currentRow) + 1
      ensures value < 0 ==> currentCol == colsInRow - 1 && currentRow == if old(currentRow) - 1 < 0 then 0 else old(currentRow) - 1
      ensures 0 <= value <= colsInRow - 1 ==> currentCol == value && currentRow == old(currentRow)
    {
      currentCol := value;
      if currentCol > colsInRow - 1 {
        currentCol := 0;
        SetCurrentRow(currentRow + 1);
      } else if currentCol < 0 {
        currentCol := colsInRow - 1;
        SetCurrentRow(currentRow - 1);
      }
    }

    /**
     * `invalidateLayout`: recompute the column count and padding, reset the
     * content height to 0, then let `placeView` put view `i` at row-major
     * position `i`. Afterwards the counters name the next free cell.
     */
    method InvalidateLayout()
      requires Configured() && Distinct(reordableViews)
      modifies this`colsInRow, this`horizontalPadding, this`contentHeight, this`currentCol, this`currentRow
      modifies reordableViews`x, reordableViews`y, reordableViews`gridPosition
      ensures Valid() && FreshLayout()
      ensures GridPosition(currentCol, currentRow) == PositionOf(|reordableViews|, colsInRow)
    {
      Remeasure();
      if |reordableViews| == 0 {
        return;
      }
      LayOutViews();
    }

    /** The start of `invalidateLayout`: the measures of the frame, no content height, the counters at the first cell. */
    method Remeasure()
      requires Configured()
      modifies this`colsInRow, this`horizontalPadding, this`contentHeight, this`currentCol, this`currentRow
      ensures colsInRow == ColsInRow(width, itemWidth) && 1 <= colsInRow
      ensures horizontalPadding == HorizontalPadding(width, itemWidth, colsInRow)
      ensures contentHeight == 0.0
      ensures currentCol == 0 && currentRow == 0
    {
      colsInRow := ColsInRow(width, itemWidth);
      horizontalPadding := HorizontalPadding(width, itemWidth, colsInRow);
      contentHeight := 0.0;

      SetCurrentCol(0);
      SetCurrentRow(0);
    }

    /** The placement loop of `invalidateLayout`, from the counters at the first cell and no content height. */
    method LayOutViews()
      requires 1 <= colsInRow && Distinct(reordableViews)
      requires currentCol == 0 && currentRow == 0 && contentHeight == 0.0
      modifies this`contentHeight, this`currentCol, this`currentRow, reordableViews`x, reordableViews`y, reordableViews`gridPosition
      ensures FreshLayout() && Settled(reordableViews, colsInRow)
      ensures GridPosition(currentCol, currentRow) == PositionOf(|reordableViews|, colsInRow)
    {
      PlaceAll();
      PlacedAll();
    }

    /** The loop itself: every view is placed once, in array order. */
    method PlaceAll()
      requires PlacedUpTo(0)
      modifies this`contentHeight, this`currentCol, this`currentRow, reordableViews`x, reordableViews`y, reordableViews`gridPosition
      ensures PlacedUpTo(|reordableViews|)
    {
      for i := 0 to |reordableViews|
        invariant PlacedUpTo(i)
      {
        PlaceNext(i);
      }
    }

    /**
     * The state of the placement loop after `i` rounds: the counters name
     * row-major position `i`, the first `i` views are placed, and the content
     * height has grown by each of them from 0.
     */
    ghost predicate PlacedUpTo(i: int)
      reads this, reordableViews
    {
      && 1 <= colsInRow && Distinct(reordableViews) && 0 <= i <= |reordableViews|
      && GridPosition(currentCol, currentRow) == PositionOf(i, colsInRow)
      && Placed(reordableViews, Measures(), i)
      && contentHeight == ContentHeight(0.0, Heights(reordableViews), Measures(), i)
    }

    /** A pass that has placed every view leaves the array laid out and settled. */
    lemma PlacedAll()
      requires PlacedUpTo(|reordableViews|)
      ensures LaidOut(reordableViews, Measures()) && Settled(reordableViews, colsInRow)
      ensures contentHeight == ContentHeight(0.0, Heights(reordableViews), Measures(), |reordableViews|)
    {
      LaidOutSettled(reordableViews, Measures());
    }

    /** One round of the placement loop: a `placeView` of view `i` with the counters at row-major position `i` extends the placed prefix. */
    method PlaceNext(i: int)
      requires PlacedUpTo(i) && i < |reordableViews|
      modifies this`contentHeight, this`currentCol, this`currentRow, reordableViews`x, reordableViews`y, reordableViews`gridPosition
      ensures PlacedUpTo(i + 1)
    {
      ghost var s, m := reordableViews, Measures();
      ghost var target := LayoutRect(s, m, i);
      NextCell(i);
      var view := reordableViews[i];
      PlaceView(view);
      assert Measures() == m && GridPosition(currentCol, currentRow) == PositionOf(i + 1, colsInRow);
      assert view.Frame() == target && Placed(s, m, i);
      assert PaddedBottom(Heights(s), m, i) == view.Bottom() + verticalPadding;
    }

    /**
     * Before round `i` of the placement loop, the counters' cell has the
     * origin view `i` is laid out at, and advancing them gives position `i + 1`.
     */
    lemma NextCell(i: int)
      requires PlacedUpTo(i) && i < |reordableViews|
      ensures currentRow >= 1 ==> 0 <= ArrayIndex(GridPosition(currentCol, currentRow - 1), colsInRow) < |reordableViews|
      ensures var target := LayoutRect(reordableViews, Measures(), i);
        GridPositionToViewPosition(GridPosition(currentCol, currentRow)) == Point(target.x, target.y)
      ensures currentCol + 1 <= colsInRow - 1 ==> PositionOf(i + 1, colsInRow) == GridPosition(currentCol + 1, currentRow)
      ensures currentCol + 1 > colsInRow - 1 ==> PositionOf(i + 1, colsInRow) == GridPosition(0, currentRow + 1)
    {
      PositionOfSuccessor(i, colsInRow);
      UpOfPositionOf(i, colsInRow);
      var p := PositionOf(i, colsInRow);
      var rowY := RowY(Heights(reordableViews), Measures(), i);
      if i >= colsInRow {
        PlacedAt(reordableViews, Measures(), i, i - colsInRow);
        assert GridPositionToViewPosition(p).y == rowY;
      } else {
        assert GridPositionToViewPosition(p).y == rowY;
      }
    }

    /**
     * `placeView`: take the counters' cell and advance the counters
     * (reading the row counter, then post-incrementing the column counter), record the cell, move the
     * view to the cell's origin, and raise the content height to the view's
     * bottom plus padding if that is larger.
     */
    method PlaceView(view: ReorderableView)
      requires 1 <= colsInRow
      requires currentRow >= 1 ==> 0 <= ArrayIndex(GridPosition(currentCol, currentRow - 1), colsInRow) < |reordableViews|
      modifies this`contentHeight, this`currentCol, this`currentRow, view`x, view`y, view`gridPosition
      ensures view.gridPosition == Some(GridPosition(old(currentCol), old(currentRow)))
      ensures view.x == old(GridPositionToViewPosition(GridPosition(currentCol, currentRow))).x
      ensures view.y == old(GridPositionToViewPosition(GridPosition(currentCol, currentRow))).y
      ensures contentHeight == if view.Bottom() + verticalPadding > old(contentHeight)
                               then view.Bottom() + verticalPadding else old(contentHeight)
      // the post-increment, through the observers
      ensures old(currentCol) + 1 > colsInRow - 1 ==> currentCol == 0 && currentRow == if old(currentRow) + 1 < 0 then 0 else old(currentRow) + 1
      ensures old(currentCol) + 1 < 0 ==> currentCol == colsInRow - 1 && currentRow == if old(currentRow) - 1 < 0 then 0 else old(currentRow) - 1
      ensures 0 <= old(currentCol) + 1 <= colsInRow - 1 ==> currentCol == old(currentCol) + 1 && currentRow == old(currentRow)
    {
      var y := currentRow;
      var x := currentCol;
      var gridPosition := GridPosition(x, y);
      var pos := GridPositionToViewPosition(gridPosition);
      SetCurrentCol(currentCol + 1);

      view.gridPosition := Some(gridPosition);
      view.SetPosition(pos);

      var bottom := view.Bottom() + verticalPadding;
      if bottom > contentHeight {
        contentHeight := bottom;
      }
    }

    /**
     * `insertViewAtPosition`: nothing when the view already has that
     * position; else take it out at its own index, put it back at the
     * target's index, and lay everything out again.
     */
    method InsertViewAtPosition(view: ReorderableView, position: GridPosition)
      requires Valid() && view in reordableViews
      requires 0 <= ArrayIndex(position, colsInRow) < |reordableViews|
      modifies this, reordableViews`x, reordableViews`y, reordableViews`gridPosition
      ensures Valid() && SameFrame()
      ensures old(view.gridPosition) == Some(position) ==> unchanged(this) && unchanged(old(reordableViews))
      ensures forall k :: 0 <= k < |reordableViews| ==> reordableViews[k] in old(reordableViews)
      ensures old(view.gridPosition) != Some(position) ==>
        && reordableViews == Move(old(reordableViews), IndexOf(old(reordableViews), view), ArrayIndex(position, colsInRow))
        && FreshLayout()
    {
      if view.gridPosition == Some(position) {
        return;
      }
      SettledIndex(reordableViews, colsInRow, view);
      MoveView(ArrayIndex(view.gridPosition.value, colsInRow), ArrayIndex(position, colsInRow));
      InvalidateLayout();
    }

    /** `removeAtIndex(from)` then `insert(view, atIndex: to)` on the array. */
    method MoveView(from: int, to: int)
      requires Distinct(reordableViews) && 0 <= from < |reordableViews| && 0 <= to < |reordableViews|
      modifies this`reordableViews
      ensures reordableViews == Move(old(reordableViews), from, to)
      ensures Distinct(reordableViews)
      ensures forall k :: 0 <= k < |reordableViews| ==> reordableViews[k] in old(reordableViews)
    {
      ghost var before := reordableViews;
      var view := reordableViews[from];
      reordableViews := RemoveAt(reordableViews, from);
      reordableViews := InsertAt(reordableViews, to, view);
      MoveDistinct(before, from, to);
      MoveMembers(before, from, to);
    }

    /**
     * `gridPositionToViewPosition`: x from the column alone, y the bottom of
     * the view in the cell above plus the vertical padding (0 in the first row).
     */
    function GridPositionToViewPosition(gridPosition: GridPosition): (r: Point)
      reads this, reordableViews
      requires gridPosition.row >= 1 ==> 0 <= ArrayIndex(Up(gridPosition).value, colsInRow) < |reordableViews|
      ensures gridPosition.row <= 0 ==> r.y == 0.0
      ensures gridPosition.row >= 1 ==> r.y == reordableViews[ArrayIndex(gridPosition, colsInRow) - colsInRow].Bottom() + verticalPadding
    {
      var x := ColumnX(gridPosition.col, itemWidth, verticalPadding);
      match Up(gridPosition)
      case None => Point(x, 0.0)
      case Some(up) => Point(x, ViewAtGridPosition(up).value.Bottom() + verticalPadding)
    }

    /**
     * The pixel origin of a cell: x is `(col - 1) * (itemWidth + verticalPadding) + itemWidth`,
     * the column alone with the vertical padding; y is 0 in the first row and
     * otherwise the bottom of the view one row up plus the vertical padding,
     * a view whose index is `cols` smaller.
     */
    lemma ViewPositionOf(p: GridPosition)
      requires 1 <= colsInRow
      requires p.row >= 1 ==> 0 <= ArrayIndex(Up(p).value, colsInRow) < |reordableViews|
      ensures GridPositionToViewPosition(p).x == (p.col - 1) as real * (itemWidth + verticalPadding) + itemWidth
      ensures p.row <= 0 ==> GridPositionToViewPosition(p).y == 0.0
      ensures p.row >= 1 ==>
        && ArrayIndex(Up(p).value, colsInRow) == ArrayIndex(p, colsInRow) - colsInRow < ArrayIndex(p, colsInRow)
        && GridPositionToViewPosition(p).y == reordableViews[ArrayIndex(p, colsInRow) - colsInRow].Bottom() + verticalPadding
    {
      ColumnXFormula(p.col, itemWidth, verticalPadding);
      NeighbourIndices(p, colsInRow);
    }

    /**
     * After a full layout pass the content height is at least 0 and
     * at least every view's bottom plus the vertical padding, and it is one
     * of these values.
     */
    lemma ContentCoversViews()
      requires FreshLayout()
      ensures contentHeight >= 0.0
      ensures forall k :: 0 <= k < |reordableViews| ==> contentHeight >= reordableViews[k].Bottom() + verticalPadding
      ensures contentHeight == 0.0 || exists k :: 0 <= k < |reordableViews| && contentHeight == reordableViews[k].Bottom() + verticalPadding
    {
      var heights := Heights(reordableViews);
      ContentHeightIsMaximum(0.0, heights, Measures(), |reordableViews|);
      forall k | 0 <= k < |reordableViews|
        ensures PaddedBottom(heights, Measures(), k) == reordableViews[k].Bottom() + verticalPadding
      {
        LaidOutAt(reordableViews, Measures(), k);
      }
    }

    /** `viewAtGridPosition`: the view at the position's index, or none past the end. */
    function ViewAtGridPosition(gridPosition: GridPosition): (r: Option<ReorderableView>)
      reads this
      requires ArrayIndex(gridPosition, colsInRow) >= 0
      ensures r.None? <==> ArrayIndex(gridPosition, colsInRow) >= |reordableViews|
      ensures r.Some? ==> r.value == reordableViews[ArrayIndex(gridPosition, colsInRow)]
    {
      var index := ArrayIndex(gridPosition, colsInRow);
      if index < |reordableViews| then Some(reordableViews[index]) else None
    }

    /** In a valid grid the lookup of a view's own position finds that view: layout and lookup agree. */
    lemma LookupFindsPlacedView(i: int)
      requires Valid() && 0 <= i < |reordableViews|
      ensures reordableViews[i].gridPosition.Some?
      ensures ArrayIndex(reordableViews[i].gridPosition.value, colsInRow) >= 0
      ensures ViewAtGridPosition(reordableViews[i].gridPosition.value) == Some(reordableViews[i])
    {
      SettledLookup(reordableViews, colsInRow, i);
    }

    /** `addReordableView`: append and lay out. */
    method AddReordableView(view: ReorderableView)
      requires Valid() && view !in reordableViews
      modifies this, reordableViews`x, reordableViews`y, reordableViews`gridPosition, view`x, view`y, view`gridPosition
      ensures Valid() && SameFrame()
      ensures reordableViews == old(reordableViews) + [view]
      ensures FreshLayout()
    {
      InsertDistinct(reordableViews, |reordableViews|, view);
      assert InsertAt(reordableViews, |reordableViews|, view) == reordableViews + [view];
      reordableViews := reordableViews + [view];
      InvalidateLayout();
    }

    /** `removeReordableViewAtGridPosition`: nothing when no view is there; else remove it and lay out. */
    method RemoveReordableViewAtGridPosition(gridPosition: GridPosition)
      requires Valid()
      requires ArrayIndex(gridPosition, colsInRow) >= 0
      modifies this, reordableViews`x, reordableViews`y, reordableViews`gridPosition
      ensures Valid() && SameFrame()
      ensures ArrayIndex(gridPosition, old(colsInRow)) >= |old(reordableViews)| ==>
        unchanged(this) && unchanged(old(reordableViews))
      ensures ArrayIndex(gridPosition, old(colsInRow)) < |old(reordableViews)| ==>
        && reordableViews == RemoveAt(old(reordableViews), ArrayIndex(gridPosition, old(colsInRow)))
        && FreshLayout()
    {
      var found := ViewAtGridPosition(gridPosition);
      if found.Some? {
        ghost var before := reordableViews;
        var index := ArrayIndex(gridPosition, colsInRow);
        RemoveDistinct(reordableViews, index);
        reordableViews := RemoveAt(reordableViews, index);
        assert forall k :: 0 <= k < |reordableViews| ==> reordableViews[k] in before;
        InvalidateLayout();
      }
    }

    /**
     * `didReorderingView`: a drag move of `view` to `location`. The view
     * follows the pointer, then the rows `0 ..< count / cols` of the
     * candidate column are scanned as `ScanRows` describes. There is no
     * switch that turns either step off. `moved` is whether the scan moved
     * the view, after which every view has its layout frame. Without a move
     * only the dragged view has changed: it is centred on the pointer.
     */
    method DidReorderingView(view: ReorderableView, location: Point) returns (ghost moved: bool)
      requires Valid() && view in reordableViews
      requires horizontalPadding.Some? && itemWidth + horizontalPadding.value >= 1.0
      requires HitColumn(location.x, itemWidth, horizontalPadding.value, colsInRow) >= 0
            || |reordableViews| / colsInRow == 0
      modifies this, reordableViews`x, reordableViews`y, reordableViews`gridPosition
      ensures Valid() && SameFrame()
      ensures reordableViews == ScanRows(old(reordableViews), view,
                                         HitColumn(location.x, itemWidth, old(horizontalPadding).value, old(colsInRow)),
                                         0, |old(reordableViews)| / old(colsInRow),
                                         location, old(Frames(reordableViews)), false, old(Measures()))
      ensures moved == ScanMoved(old(reordableViews), view,
                                 HitColumn(location.x, itemWidth, old(horizontalPadding).value, old(colsInRow)),
                                 0, |old(reordableViews)| / old(colsInRow),
                                 location, old(Frames(reordableViews)), false, old(Measures()))
      ensures moved ==> FreshLayout()
      ensures !moved ==>
        && unchanged(this)
        && view.Frame() == Rect(location.x - view.width / 2.0, location.y - view.height / 2.0, view.width, view.height)
        && forall w :: w in old(reordableViews) ==>
             w.gridPosition == old(w.gridPosition) && (w != view ==> w.x == old(w.x) && w.y == old(w.y))
    {
      view.SetCenter(location);
      var col := HitColumn(location.x, itemWidth, horizontalPadding.value, colsInRow);
      moved := ScanColumn(view, col, location, old(Frames(reordableViews)));
    }

    /**
     * The scan loop of `didReorderingView`: rows `0 ..< count / cols` of
     * column `col`, one `ScanRow` each. `frames0` are the frames the views
     * had when the move event arrived; only the dragged view has moved since.
     */
    method ScanColumn(view: ReorderableView, col: int, location: Point, ghost frames0: seq<Rect>) returns (ghost moved: bool)
      requires Valid() && view in reordableViews
      requires 0 <= col || |reordableViews| / colsInRow == 0
      requires |frames0| == |reordableViews|
      requires forall k :: 0 <= k < |reordableViews| && reordableViews[k] != view ==> reordableViews[k].Frame() == frames0[k]
      modifies this, reordableViews`x, reordableViews`y, reordableViews`gridPosition
      ensures Valid() && SameFrame()
      ensures reordableViews == ScanRows(old(reordableViews), view, col, 0, |old(reordableViews)| / old(colsInRow),
                                         location, frames0, false, old(Measures()))
      ensures moved == ScanMoved(old(reordableViews), view, col, 0, |old(reordableViews)| / old(colsInRow),
                                 location, frames0, false, old(Measures()))
      ensures moved ==> FreshLayout()
      ensures !moved ==> unchanged(this) && unchanged(old(reordableViews))
    {
      ghost var s0 := reordableViews;
      ghost var m := Measures();
      ghost var laidOut := false;

      // `rowCount`: the bound `count / cols` is the same on every round, since a move keeps the count
      var rows := |reordableViews| / colsInRow;
      var row := 0;
      while row < rows
        invariant Scanning(view, s0, frames0, laidOut) && SameFrame() && Measures() == m
        invariant 0 <= row && (rows > 0 ==> row <= rows && 0 <= col)
        invariant ScanRows(reordableViews, view, col, row, rows, location, frames0, laidOut, m)
               == ScanRows(s0, view, col, 0, rows, location, frames0, false, m)
        invariant ScanMoved(reordableViews, view, col, row, rows, location, frames0, laidOut, m)
               == ScanMoved(s0, view, col, 0, rows, location, frames0, false, m)
        invariant !laidOut ==> unchanged(this) && unchanged(s0)
      {
        laidOut := ScanRow(view, col, row, rows, location, s0, frames0, laidOut);
        row := row + 1;
      }
      moved := laidOut;
    }

    /**
     * The state of the grid during the scan of one drag move: valid, with the
     * dragged view among the views of `s0`, the array as it was when the move
     * arrived (`s0`) and the other views' frames untouched until the first
     * move, and fully laid out after it.
     */
    ghost predicate Scanning(view: ReorderableView, s0: seq<ReorderableView>, frames0: seq<Rect>, laidOut: bool)
      reads this, reordableViews
    {
      && Valid() && view in reordableViews
      && |reordableViews| == |s0| == |frames0|
      && (forall k :: 0 <= k < |reordableViews| ==> reordableViews[k] in s0)
      && (!laidOut ==> reordableViews == s0)
      && (!laidOut ==> forall k :: 0 <= k < |s0| && s0[k] != view ==> s0[k].Frame() == frames0[k])
      && (laidOut ==> FreshLayout())
    }

    /**
     * One round of the scan loop of `didReorderingView`: look up the view at
     * (col, row); skip the dragged view itself; move the dragged view there
     * when that view's frame contains the pointer. `laidOut'` says whether a
     * move has happened so far, so that later rounds see layout frames.
     */
    method ScanRow(view: ReorderableView, col: int, row: int, ghost rows: int, location: Point,
                   ghost s0: seq<ReorderableView>, ghost frames0: seq<Rect>, ghost laidOut: bool) returns (ghost laidOut': bool)
      requires Scanning(view, s0, frames0, laidOut) && 0 <= col && 0 <= row < rows
      modifies this, s0`x, s0`y, s0`gridPosition
      ensures Scanning(view, s0, frames0, laidOut') && SameFrame() && Measures() == old(Measures())
      ensures laidOut' == (laidOut || Hit(old(reordableViews), view, col, row, location, frames0, laidOut, Measures()))
      ensures Hit(old(reordableViews), view, col, row, location, frames0, laidOut, Measures()) ==>
        reordableViews == Move(old(reordableViews), IndexOf(old(reordableViews), view), ArrayIndex(GridPosition(col, row), colsInRow))
      ensures !Hit(old(reordableViews), view, col, row, location, frames0, laidOut, Measures()) ==>
        reordableViews == old(reordableViews)
      // the round is one step of the scan function
      ensures ScanRows(reordableViews, view, col, row + 1, rows, location, frames0, laidOut', Measures())
           == ScanRows(old(reordableViews), view, col, row, rows, location, frames0, laidOut, Measures())
      ensures ScanMoved(reordableViews, view, col, row + 1, rows, location, frames0, laidOut', Measures())
           == ScanMoved(old(reordableViews), view, col, row, rows, location, frames0, laidOut, Measures())
      ensures !laidOut' ==> unchanged(this) && unchanged(s0)
    {
      ghost var s, m := reordableViews, Measures();
      ghost var hit := Hit(s, view, col, row, location, frames0, laidOut, m);
      ScanStep(s, view, col, row, rows, location, frames0, laidOut, m);
      laidOut' := laidOut;
      RowStartBounds(row, colsInRow);
      var gridPos := GridPosition(col, row);
      var other := ViewAtGridPosition(gridPos);
      if other.Some? && other.value != view {
        ghost var k := ArrayIndex(gridPos, colsInRow);
        if laidOut {
          LaidOutAt(s, m, k);
        }
        assert other.value.Frame() == FrameAt(s, frames0, laidOut, m, k);
        if other.value.Frame().Contains(location) {
          assert hit;
          SettledIndex(s, colsInRow, view);
          InsertViewAtPosition(view, gridPos);
          laidOut' := true;
        } else {
          assert !hit;
        }
      } else {
        assert !hit;
      }
    }

    /** `didReordererdView`: every drag end lays the grid out again, which restores the row-major positions. */
    method DidReordererdView(view: ReorderableView)
      requires Valid()
      modifies this, reordableViews`x, reordableViews`y, reordableViews`gridPosition
      ensures Valid() && SameFrame() && FreshLayout()
      ensures reordableViews == old(reordableViews)
    {
      InvalidateLayout();
    }
  }
}

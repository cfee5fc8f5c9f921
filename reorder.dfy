/**
 * What a grid's array of item views looks like after a layout pass, and the
 * drag-move hit-test rule as a function of the array: both engines share
 * them.
 */
module Reorder {
  import opened Options
  import opened GridPositions
  import opened Layout
  import opened Sequences
  import opened Items

  /** The frame heights of the views, in array order. */
  function Heights(s: seq<ReorderableView>): (r: seq<real>)
    ensures |r| == |s| && forall k :: 0 <= k < |s| ==> r[k] == s[k].height
  {
    seq(|s|, k requires 0 <= k < |s| => s[k].height)
  }

  /** The frame view `k` gets from a layout pass over the array `s`. */
  function LayoutRect(s: seq<ReorderableView>, m: Metrics, k: int): Rect
    requires 1 <= m.cols && 0 <= k < |s|
  {
    Rect(ColumnX(PositionOf(k, m.cols).col, m.itemWidth, m.verticalPadding), RowY(Heights(s), m, k), s[k].width, s[k].height)
  }

  /** Every view's grid position is the row-major position of its index. */
  ghost predicate Settled(s: seq<ReorderableView>, cols: int)
    reads s
  {
    1 <= cols && forall k {:trigger s[k].gridPosition} :: 0 <= k < |s| ==> s[k].gridPosition == Some(PositionOf(k, cols))
  }

  /**
   * The first `n` views have the grid positions and frames a layout pass
   * over `s` gives them. It reads only those views, so placing a later view
   * leaves it intact.
   */
  ghost predicate Placed(s: seq<ReorderableView>, m: Metrics, n: int)
    requires 0 <= n <= |s|
    reads s[..n]
    decreases n
  {
    && 1 <= m.cols
    && (n > 0 ==>
          && Placed(s, m, n - 1)
          && s[n - 1].gridPosition == Some(PositionOf(n - 1, m.cols))
          && s[n - 1].Frame() == LayoutRect(s, m, n - 1))
  }

  /** A placed prefix, read index by index. */
  lemma {:induction false} PlacedAt(s: seq<ReorderableView>, m: Metrics, n: int, k: int)
    requires 0 <= k < n <= |s| && Placed(s, m, n)
    ensures s[k].gridPosition == Some(PositionOf(k, m.cols))
    ensures s[k].Frame() == LayoutRect(s, m, k)
    decreases n
  {
    if k < n - 1 {
      PlacedAt(s, m, n - 1, k);
    }
  }

  /**
   * Every view has the grid position and the frame a layout pass over `s`
   * gives it: the state a full `invalidateLayout` leaves.
   */
  ghost predicate LaidOut(s: seq<ReorderableView>, m: Metrics)
    reads s
  {
    Placed(s, m, |s|)
  }

  /** A laid-out array, read index by index; in particular it is settled. */
  lemma LaidOutAt(s: seq<ReorderableView>, m: Metrics, k: int)
    requires LaidOut(s, m) && 0 <= k < |s|
    ensures 1 <= m.cols
    ensures s[k].gridPosition == Some(PositionOf(k, m.cols))
    ensures s[k].Frame() == LayoutRect(s, m, k)
  {
    PlacedAt(s, m, |s|, k);
  }

  /** A laid-out array is settled. */
  lemma LaidOutSettled(s: seq<ReorderableView>, m: Metrics)
    requires LaidOut(s, m)
    ensures Settled(s, m.cols)
  {
    forall k | 0 <= k < |s|
      ensures s[k].gridPosition == Some(PositionOf(k, m.cols))
    {
      PlacedAt(s, m, |s|, k);
    }
  }

  /** The current frames of the views, in array order. */
  ghost function Frames(s: seq<ReorderableView>): (r: seq<Rect>)
    reads s
    ensures |r| == |s| && forall k :: 0 <= k < |s| ==> r[k] == s[k].Frame()
  {
    seq(|s|, k reads s requires 0 <= k < |s| => s[k].Frame())
  }

  /**
   * The frame the hit test sees at index `k`: until the first move the
   * frames the views had when the move event arrived, after it the layout
   * frames, since every move ends in a full relayout.
   */
  function FrameAt(s: seq<ReorderableView>, frames0: seq<Rect>, laidOut: bool, m: Metrics, k: int): Rect
    requires 1 <= m.cols && 0 <= k < |s|
    requires !laidOut ==> |frames0| == |s|
  {
    if laidOut then LayoutRect(s, m, k) else frames0[k]
  }

  /**
   * Whether the scan of row `row` moves the dragged view `v`: the cell
   * (col, row) holds a view, that view is not `v`, and its frame contains
   * the pointer.
   */
  predicate Hit(s: seq<ReorderableView>, v: ReorderableView, col: int, row: int,
                loc: Point, frames0: seq<Rect>, laidOut: bool, m: Metrics)
    requires 1 <= m.cols
    requires !laidOut ==> |frames0| == |s|
  {
    var k := ArrayIndex(GridPosition(col, row), m.cols);
    0 <= k < |s| && s[k] != v && FrameAt(s, frames0, laidOut, m, k).Contains(loc)
  }

  /**
   * The array after the row scan of one drag move, from row `row` on: for
   * each row below `rows`, if the view at (col, row) is not the dragged view
   * `v` and its frame contains the pointer, `v` is moved to that cell. The
   * scan goes on after a move, with the array and frames that move left.
   * The result is a permutation that keeps the views distinct.
   */
  ghost function ScanRows(s: seq<ReorderableView>, v: ReorderableView, col: int, row: int, rows: int,
                          loc: Point, frames0: seq<Rect>, laidOut: bool, m: Metrics): (r: seq<ReorderableView>)
    requires 1 <= m.cols
    requires Distinct(s) && v in s
    requires !laidOut ==> |frames0| == |s|
    ensures |r| == |s| && v in r
    decreases rows - row
  {
    if row >= rows then s
    else if Hit(s, v, col, row, loc, frames0, laidOut, m) then
      var k := ArrayIndex(GridPosition(col, row), m.cols);
      var s' := Move(s, IndexOf(s, v), k);
      MoveDistinct(s, IndexOf(s, v), k);
      assert v in multiset(s');
      ScanRows(s', v, col, row + 1, rows, loc, frames0, true, m)
    else
      ScanRows(s, v, col, row + 1, rows, loc, frames0, laidOut, m)
  }

  /**
   * Whether the scan from row `row` on moves the dragged view at least once,
   * `laidOut` saying whether an earlier row already did. After a move the
   * grid is laid out again, so this says which frames the scan leaves.
   */
  ghost function ScanMoved(s: seq<ReorderableView>, v: ReorderableView, col: int, row: int, rows: int,
                           loc: Point, frames0: seq<Rect>, laidOut: bool, m: Metrics): bool
    requires 1 <= m.cols
    requires Distinct(s) && v in s
    requires !laidOut ==> |frames0| == |s|
    decreases rows - row
  {
    if row >= rows then laidOut
    else if Hit(s, v, col, row, loc, frames0, laidOut, m) then
      var k := ArrayIndex(GridPosition(col, row), m.cols);
      var s' := Move(s, IndexOf(s, v), k);
      MoveDistinct(s, IndexOf(s, v), k);
      assert v in multiset(s');
      ScanMoved(s', v, col, row + 1, rows, loc, frames0, true, m)
    else
      ScanMoved(s, v, col, row + 1, rows, loc, frames0, laidOut, m)
  }

  /**
   * One row of the scan: on a hit the dragged view moves to the row's cell
   * and the rest of the scan sees layout frames; otherwise the array is kept.
   */
  lemma ScanStep(s: seq<ReorderableView>, v: ReorderableView, col: int, row: int, rows: int,
                 loc: Point, frames0: seq<Rect>, laidOut: bool, m: Metrics)
    requires 1 <= m.cols && row < rows
    requires Distinct(s) && v in s
    requires !laidOut ==> |frames0| == |s|
    ensures Hit(s, v, col, row, loc, frames0, laidOut, m) ==>
      var s' := Move(s, IndexOf(s, v), ArrayIndex(GridPosition(col, row), m.cols));
      && Distinct(s') && v in s'
      && ScanRows(s', v, col, row + 1, rows, loc, frames0, true, m) == ScanRows(s, v, col, row, rows, loc, frames0, laidOut, m)
      && ScanMoved(s', v, col, row + 1, rows, loc, frames0, true, m) == ScanMoved(s, v, col, row, rows, loc, frames0, laidOut, m)
    ensures !Hit(s, v, col, row, loc, frames0, laidOut, m) ==>
      && ScanRows(s, v, col, row + 1, rows, loc, frames0, laidOut, m) == ScanRows(s, v, col, row, rows, loc, frames0, laidOut, m)
      && ScanMoved(s, v, col, row + 1, rows, loc, frames0, laidOut, m) == ScanMoved(s, v, col, row, rows, loc, frames0, laidOut, m)
  {
    if Hit(s, v, col, row, loc, frames0, laidOut, m) {
      var k := ArrayIndex(GridPosition(col, row), m.cols);
      MoveDistinct(s, IndexOf(s, v), k);
      assert v in multiset(Move(s, IndexOf(s, v), k));
    }
  }

  /** Once a move has happened the scan has moved, whatever the later rows hold. */
  lemma {:induction false} ScanMovedSticks(s: seq<ReorderableView>, v: ReorderableView, col: int, row: int, rows: int,
                                           loc: Point, frames0: seq<Rect>, m: Metrics)
    requires 1 <= m.cols
    requires Distinct(s) && v in s
    ensures ScanMoved(s, v, col, row, rows, loc, frames0, true, m)
    decreases rows - row
  {
    if row < rows {
      if Hit(s, v, col, row, loc, frames0, true, m) {
        var k := ArrayIndex(GridPosition(col, row), m.cols);
        var s' := Move(s, IndexOf(s, v), k);
        MoveDistinct(s, IndexOf(s, v), k);
        assert v in multiset(s');
        ScanMovedSticks(s', v, col, row + 1, rows, loc, frames0, m);
      } else {
        ScanMovedSticks(s, v, col, row + 1, rows, loc, frames0, m);
      }
    }
  }

  /**
   * A scan moves the dragged view exactly when some scanned cell of the
   * array, as the move event found it, holds another view whose frame at
   * that time contains the pointer.
   */
  lemma {:induction false} ScanMovedIff(s: seq<ReorderableView>, v: ReorderableView, col: int, row: int, rows: int,
                                        loc: Point, frames0: seq<Rect>, m: Metrics)
    requires 1 <= m.cols
    requires Distinct(s) && v in s && |frames0| == |s|
    ensures ScanMoved(s, v, col, row, rows, loc, frames0, false, m) <==>
            exists r' :: row <= r' < rows && Hit(s, v, col, r', loc, frames0, false, m)
    decreases rows - row
  {
    if row < rows {
      if Hit(s, v, col, row, loc, frames0, false, m) {
        var k := ArrayIndex(GridPosition(col, row), m.cols);
        var s' := Move(s, IndexOf(s, v), k);
        MoveDistinct(s, IndexOf(s, v), k);
        assert v in multiset(s');
        ScanMovedSticks(s', v, col, row + 1, rows, loc, frames0, m);
        assert ScanMoved(s, v, col, row, rows, loc, frames0, false, m);
      } else {
        ScanMovedIff(s, v, col, row + 1, rows, loc, frames0, m);
        assert ScanMoved(s, v, col, row, rows, loc, frames0, false, m) == ScanMoved(s, v, col, row + 1, rows, loc, frames0, false, m);
        HitLater(s, v, col, row, rows, loc, frames0, m);
      }
    }
  }

  /** When row `row` is no hit, a hit from `row` on is a hit from `row + 1` on. */
  lemma HitLater(s: seq<ReorderableView>, v: ReorderableView, col: int, row: int, rows: int,
                 loc: Point, frames0: seq<Rect>, m: Metrics)
    requires 1 <= m.cols && |frames0| == |s|
    requires !Hit(s, v, col, row, loc, frames0, false, m)
    ensures (exists r' :: row <= r' < rows && Hit(s, v, col, r', loc, frames0, false, m)) ==>
            exists r' :: row + 1 <= r' < rows && Hit(s, v, col, r', loc, frames0, false, m)
  {
    if exists r' :: row <= r' < rows && Hit(s, v, col, r', loc, frames0, false, m) {
      var r' :| row <= r' < rows && Hit(s, v, col, r', loc, frames0, false, m);
      assert row + 1 <= r';
    }
  }

  /** A scan that moves nothing leaves the array as it is. */
  lemma {:induction false} ScanUnmovedKeeps(s: seq<ReorderableView>, v: ReorderableView, col: int, row: int, rows: int,
                                            loc: Point, frames0: seq<Rect>, m: Metrics)
    requires 1 <= m.cols
    requires Distinct(s) && v in s && |frames0| == |s|
    requires !ScanMoved(s, v, col, row, rows, loc, frames0, false, m)
    ensures ScanRows(s, v, col, row, rows, loc, frames0, false, m) == s
    decreases rows - row
  {
    if row < rows {
      if Hit(s, v, col, row, loc, frames0, false, m) {
        var k := ArrayIndex(GridPosition(col, row), m.cols);
        var s' := Move(s, IndexOf(s, v), k);
        MoveDistinct(s, IndexOf(s, v), k);
        assert v in multiset(s');
        ScanMovedSticks(s', v, col, row + 1, rows, loc, frames0, m);
      } else {
        ScanUnmovedKeeps(s, v, col, row + 1, rows, loc, frames0, m);
      }
    }
  }

  /** The scan permutes the array and keeps it free of duplicates. */
  lemma {:induction false} ScanRowsPermutes(s: seq<ReorderableView>, v: ReorderableView, col: int, row: int, rows: int,
                                            loc: Point, frames0: seq<Rect>, laidOut: bool, m: Metrics)
    requires 1 <= m.cols
    requires Distinct(s) && v in s
    requires !laidOut ==> |frames0| == |s|
    ensures var r := ScanRows(s, v, col, row, rows, loc, frames0, laidOut, m);
      multiset(r) == multiset(s) && Distinct(r)
    decreases rows - row
  {
    if row < rows {
      if Hit(s, v, col, row, loc, frames0, laidOut, m) {
        var k := ArrayIndex(GridPosition(col, row), m.cols);
        var s' := Move(s, IndexOf(s, v), k);
        MoveDistinct(s, IndexOf(s, v), k);
        assert v in multiset(s');
        ScanRowsPermutes(s', v, col, row + 1, rows, loc, frames0, true, m);
      } else {
        ScanRowsPermutes(s, v, col, row + 1, rows, loc, frames0, laidOut, m);
      }
    }
  }

  /** Two arrays that hold the same element at the same index and agree once it is removed are equal. */
  lemma SameSlotSameArray<T>(a: seq<T>, b: seq<T>, i: int)
    requires 0 <= i < |a| && |a| == |b| && a[i] == b[i]
    requires RemoveAt(a, i) == RemoveAt(b, i)
    ensures a == b
  {
    forall j | 0 <= j < |a|
      ensures a[j] == b[j]
    {
      if j < i {
        assert a[j] == RemoveAt(a, i)[j];
      } else if j > i {
        assert a[j] == RemoveAt(a, i)[j - 1];
      }
    }
  }

  /** Only the dragged view moves: the other views keep their relative order. */
  lemma {:induction false} ScanRowsKeepsOthers(s: seq<ReorderableView>, v: ReorderableView, col: int, row: int, rows: int,
                                               loc: Point, frames0: seq<Rect>, laidOut: bool, m: Metrics)
    requires 1 <= m.cols
    requires Distinct(s) && v in s
    requires !laidOut ==> |frames0| == |s|
    ensures var r := ScanRows(s, v, col, row, rows, loc, frames0, laidOut, m);
      RemoveAt(r, IndexOf(r, v)) == RemoveAt(s, IndexOf(s, v))
    decreases rows - row
  {
    if row < rows {
      if Hit(s, v, col, row, loc, frames0, laidOut, m) {
        var k := ArrayIndex(GridPosition(col, row), m.cols);
        var s' := Move(s, IndexOf(s, v), k);
        MoveDistinct(s, IndexOf(s, v), k);
        IndexOfDistinct(s', k);
        MoveKeepsOthers(s, IndexOf(s, v), k);
        assert v in multiset(s');
        ScanRowsKeepsOthers(s', v, col, row + 1, rows, loc, frames0, true, m);
      } else {
        ScanRowsKeepsOthers(s, v, col, row + 1, rows, loc, frames0, laidOut, m);
      }
    }
  }

  /**
   * After the scan the dragged view is either where it was, and then the
   * array is unchanged, or it sits in the candidate column on one of the
   * scanned rows.
   */
  lemma {:induction false} ScanRowsTarget(s: seq<ReorderableView>, v: ReorderableView, col: int, row: int, rows: int,
                                          loc: Point, frames0: seq<Rect>, laidOut: bool, m: Metrics)
    requires 1 <= m.cols
    requires Distinct(s) && v in s
    requires !laidOut ==> |frames0| == |s|
    ensures var r := ScanRows(s, v, col, row, rows, loc, frames0, laidOut, m);
      r == s || exists row' :: row <= row' < rows && IndexOf(r, v) == ArrayIndex(GridPosition(col, row'), m.cols)
    decreases rows - row
  {
    if row < rows {
      if Hit(s, v, col, row, loc, frames0, laidOut, m) {
        var k := ArrayIndex(GridPosition(col, row), m.cols);
        var s' := Move(s, IndexOf(s, v), k);
        MoveDistinct(s, IndexOf(s, v), k);
        IndexOfDistinct(s', k);
        assert v in multiset(s');
        ScanRowsTarget(s', v, col, row + 1, rows, loc, frames0, true, m);
        var r := ScanRows(s', v, col, row + 1, rows, loc, frames0, true, m);
        assert r == ScanRows(s, v, col, row, rows, loc, frames0, laidOut, m);
        if r == s' {
          assert IndexOf(r, v) == ArrayIndex(GridPosition(col, row), m.cols);
        } else {
          var row' :| row + 1 <= row' < rows && IndexOf(r, v) == ArrayIndex(GridPosition(col, row'), m.cols);
          assert row <= row' < rows;
        }
      } else {
        ScanRowsTarget(s, v, col, row + 1, rows, loc, frames0, laidOut, m);
      }
    }
  }

  /** Whenever the dragged view ends where it started, the whole array is as it was. */
  lemma ScanRowsSameSlot(s: seq<ReorderableView>, v: ReorderableView, col: int, row: int, rows: int,
                         loc: Point, frames0: seq<Rect>, laidOut: bool, m: Metrics)
    requires 1 <= m.cols
    requires Distinct(s) && v in s
    requires !laidOut ==> |frames0| == |s|
    ensures var r := ScanRows(s, v, col, row, rows, loc, frames0, laidOut, m);
      IndexOf(r, v) == IndexOf(s, v) ==> r == s
  {
    var r := ScanRows(s, v, col, row, rows, loc, frames0, laidOut, m);
    ScanRowsKeepsOthers(s, v, col, row, rows, loc, frames0, laidOut, m);
    if IndexOf(r, v) == IndexOf(s, v) {
      SameSlotSameArray(r, s, IndexOf(r, v));
    }
  }

  /**
   * When no scanned cell holds a view other than the dragged one whose frame,
   * as the move event found it, contains the pointer, the array is left as it is.
   */
  lemma {:induction false} ScanRowsMiss(s: seq<ReorderableView>, v: ReorderableView, col: int, row: int, rows: int,
                                        loc: Point, frames0: seq<Rect>, m: Metrics)
    requires 1 <= m.cols
    requires Distinct(s) && v in s && |frames0| == |s|
    requires forall r' :: row <= r' < rows ==> !Hit(s, v, col, r', loc, frames0, false, m)
    ensures ScanRows(s, v, col, row, rows, loc, frames0, false, m) == s
    decreases rows - row
  {
    if row < rows {
      ScanRowsMiss(s, v, col, row + 1, rows, loc, frames0, m);
    }
  }

  /** In a settled array, looking up a view's own grid position finds that view. */
  lemma SettledLookup(s: seq<ReorderableView>, cols: int, i: int)
    requires Settled(s, cols) && 0 <= i < |s|
    ensures s[i].gridPosition.Some?
    ensures ArrayIndex(s[i].gridPosition.value, cols) == i
  {
    ArrayIndexOfPositionOf(i, cols);
  }

  /** In a settled array without duplicates, a member's grid position gives back its index. */
  lemma SettledIndex(s: seq<ReorderableView>, cols: int, v: ReorderableView)
    requires Settled(s, cols) && Distinct(s) && v in s
    ensures v.gridPosition == Some(PositionOf(IndexOf(s, v), cols))
    ensures ArrayIndex(v.gridPosition.value, cols) == IndexOf(s, v)
  {
    ArrayIndexOfPositionOf(IndexOf(s, v), cols);
  }
}

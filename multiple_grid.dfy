/**
 * The cross-grid rule of the two-grid demo controller: when a drag ends in
 * one of its two grids (`itemsGrid` and `selectedItemsGrid`) with the
 * dragged view's centre inside the other grid's container, the view leaves
 * its grid and is appended to the other one; otherwise the grid it came
 * from is laid out again. Whether the centre is inside the other container
 * (`convertPoint` then `CGRectContainsPoint`) is the boolean `inside`.
 */
module MultipleGrid {
  import opened GridPositions
  import opened Sequences
  import opened Items
  import opened Reorder
  import opened ReorderableGrid

  /** The grid a drag ended in, as the controller tells them apart. */
  datatype Source = ItemsGrid | SelectedItemsGrid | OtherGrid

  /** The membership of the two grids, items first. */
  datatype Grids<T> = Grids(items: seq<T>, selected: seq<T>)

  /**
   * The arrays of the two grids after a drag of `view` ended in `source`:
   * a drop inside the other container moves the view from its own grid to
   * the end of the other one; every other drag end keeps both as they are.
   */
  function Transfer<T(==)>(g: Grids<T>, source: Source, view: T, inside: bool): (r: Grids<T>)
    requires source == ItemsGrid ==> view in g.items
    requires source == SelectedItemsGrid ==> view in g.selected
    ensures source == ItemsGrid && inside ==> view in r.selected && |r.items| == |g.items| - 1
    ensures source == SelectedItemsGrid && inside ==> view in r.items && |r.selected| == |g.selected| - 1
  {
    match source
    case ItemsGrid =>
      if inside then Grids(RemoveAt(g.items, IndexOf(g.items, view)), g.selected + [view]) else g
    case SelectedItemsGrid =>
      if inside then Grids(g.items + [view], RemoveAt(g.selected, IndexOf(g.selected, view))) else g
    case OtherGrid => g
  }

  /** The same grids with their roles swapped. */
  function Swap<T>(g: Grids<T>): Grids<T>
  {
    Grids(g.selected, g.items)
  }

  /** The two directions are one rule: dropping from the selected grid is dropping from the items grid with the grids swapped. */
  lemma TransferSymmetric<T>(g: Grids<T>, view: T, inside: bool)
    requires view in g.selected
    ensures Transfer(g, SelectedItemsGrid, view, inside) == Swap(Transfer(Swap(g), ItemsGrid, view, inside))
  {
  }

  /** A drop outside the other container, or a drag end in neither grid, changes no membership. */
  lemma TransferStays<T>(g: Grids<T>, source: Source, view: T, inside: bool)
    requires source == ItemsGrid ==> view in g.items
    requires source == SelectedItemsGrid ==> view in g.selected
    requires !inside || source == OtherGrid
    ensures Transfer(g, source, view, inside) == g
  {
  }

  /** A transfer loses no view and creates none: the two grids together hold the same views as before. */
  lemma TransferKeepsViews<T>(g: Grids<T>, source: Source, view: T, inside: bool)
    requires source == ItemsGrid ==> view in g.items
    requires source == SelectedItemsGrid ==> view in g.selected
    ensures var r := Transfer(g, source, view, inside);
      && multiset(r.items) + multiset(r.selected) == multiset(g.items) + multiset(g.selected)
      && |r.items| + |r.selected| == |g.items| + |g.selected|
  {
    var r := Transfer(g, source, view, inside);
    if source == ItemsGrid && inside {
      var i := IndexOf(g.items, view);
      assert multiset(r.items) + multiset{view} == multiset(g.items);
    } else if source == SelectedItemsGrid && inside {
      var i := IndexOf(g.selected, view);
      assert multiset(r.selected) + multiset{view} == multiset(g.selected);
    }
    assert |multiset(r.items) + multiset(r.selected)| == |multiset(g.items) + multiset(g.selected)|;
  }

  /**
   * When the two grids share no view and hold each view once, they still do
   * after a drag end in one of them: the dragged view is in exactly one
   * grid, the other one exactly when the drop was inside it.
   */
  lemma {:induction false} TransferExclusive<T>(g: Grids<T>, source: Source, view: T, inside: bool)
    requires source != OtherGrid
    requires source == ItemsGrid ==> view in g.items
    requires source == SelectedItemsGrid ==> view in g.selected
    requires Distinct(g.items) && Distinct(g.selected) && Disjoint(g.items, g.selected)
    ensures var r := Transfer(g, source, view, inside);
      && Distinct(r.items) && Distinct(r.selected) && Disjoint(r.items, r.selected)
      && (view in r.items <==> !(view in r.selected))
      && (view in r.selected <==> (source == ItemsGrid) == inside)
  {
    var r := Transfer(g, source, view, inside);
    if !inside {
      DisjointMembers(g.items, g.selected, view);
    } else if source == ItemsGrid {
      MovedToEnd(g.items, g.selected, view);
    } else {
      MovedToEnd(g.selected, g.items, view);
      DisjointSwap(r.selected, r.items);
    }
  }

  /** A view of one of two disjoint sequences is not in the other. */
  lemma DisjointMembers<T>(a: seq<T>, b: seq<T>, x: T)
    requires Disjoint(a, b) && (x in a || x in b)
    ensures x in a <==> x !in b
  {
    if x in a {
      var i := IndexOf(a, x);
      forall j | 0 <= j < |b|
        ensures b[j] != x
      {
        assert a[i] != b[j];
      }
    }
  }

  /** No member of the second of two disjoint sequences is a member of the first. */
  lemma DisjointNotIn<T>(a: seq<T>, b: seq<T>)
    requires Disjoint(a, b)
    ensures forall x :: x in b ==> x !in a
  {
    forall x | x in b
      ensures x !in a
    {
      DisjointMembers(a, b, x);
    }
  }

  /** Disjointness does not depend on the order of the two sequences. */
  lemma DisjointSwap<T>(a: seq<T>, b: seq<T>)
    requires Disjoint(a, b)
    ensures Disjoint(b, a)
  {
    forall i, j | 0 <= i < |b| && 0 <= j < |a|
      ensures b[i] != a[j]
    {
      assert a[j] != b[i];
    }
  }

  /** Taking `x` out of `from` and appending it to a disjoint `to` keeps both free of duplicates and disjoint. */
  lemma MovedToEnd<T>(from: seq<T>, to: seq<T>, x: T)
    requires x in from && Distinct(from) && Distinct(to) && Disjoint(from, to)
    ensures var from' := RemoveAt(from, IndexOf(from, x));
      && Distinct(from') && Distinct(to + [x]) && Disjoint(from', to + [x])
      && x !in from' && x in to + [x]
  {
    var i := IndexOf(from, x);
    var from' := RemoveAt(from, i);
    RemoveDistinct(from, i);
    DisjointMembers(from, to, x);
    InsertDistinct(to, |to|, x);
    assert InsertAt(to, |to|, x) == to + [x];
    var to' := to + [x];
    forall a, b | 0 <= a < |from'| && 0 <= b < |to'|
      ensures from'[a] != to'[b]
    {
      var a' := if a < i then a else a + 1;
      assert from'[a] == from[a'];
      if b < |to| {
        assert to'[b] == to[b];
      } else {
        assert from[a'] != from[i];
      }
    }
  }

  /** A grid none of whose state changed keeps its invariant and its layout. */
  twostate lemma GridKept(g: ReorderableGridView)
    requires old(g.Valid()) && unchanged(g)
    requires forall k :: 0 <= k < |g.reorderableViews| ==> unchanged(g.reorderableViews[k])
    ensures g.Valid() && (old(g.FreshLayout()) ==> g.FreshLayout())
  {
  }

  /** The controller's state: its two grids, which are different grids sharing no view. */
  class MultipleGridViewController {
    var itemsGrid: ReorderableGridView
    var selectedItemsGrid: ReorderableGridView

    constructor (itemsGrid: ReorderableGridView, selectedItemsGrid: ReorderableGridView)
      ensures this.itemsGrid == itemsGrid && this.selectedItemsGrid == selectedItemsGrid
    {
      this.itemsGrid := itemsGrid;
      this.selectedItemsGrid := selectedItemsGrid;
    }

    ghost predicate Valid()
      reads this, itemsGrid, selectedItemsGrid, itemsGrid.reorderableViews, selectedItemsGrid.reorderableViews
    {
      && itemsGrid != selectedItemsGrid
      && itemsGrid.Valid() && selectedItemsGrid.Valid()
      && Disjoint(itemsGrid.reorderableViews, selectedItemsGrid.reorderableViews)
    }

    /** Which of the controller's grids `grid` is (`==` on the grid objects). */
    function SourceOf(grid: ReorderableGridView): (r: Source)
      reads this
      ensures r == ItemsGrid <==> grid == itemsGrid
      ensures r == SelectedItemsGrid <==> grid == selectedItemsGrid && grid != itemsGrid
    {
      if grid == itemsGrid then ItemsGrid
      else if grid == selectedItemsGrid then SelectedItemsGrid
      else OtherGrid
    }

    function Membership(): Grids<ReorderableView>
      reads this, itemsGrid, selectedItemsGrid
    {
      Grids(itemsGrid.reorderableViews, selectedItemsGrid.reorderableViews)
    }

    /**
     * `didDragEndFonView`: a drag of `view` ended in `grid`, a view of that
     * grid. A drop inside the other container moves the view there (remove,
     * then append, each with a relayout); any other drop in one of the two
     * grids lays that grid out again.
     */
    method DidDragEndFonView(grid: ReorderableGridView, view: ReorderableView, inside: bool)
      requires Valid()
      requires grid == itemsGrid ==> view in itemsGrid.reorderableViews
      requires grid == selectedItemsGrid ==> view in selectedItemsGrid.reorderableViews
      modifies itemsGrid, itemsGrid.reorderableViews`x, itemsGrid.reorderableViews`y, itemsGrid.reorderableViews`gridPosition
      modifies selectedItemsGrid, selectedItemsGrid.reorderableViews`x, selectedItemsGrid.reorderableViews`y, selectedItemsGrid.reorderableViews`gridPosition
      ensures Valid() && itemsGrid.SameSettings() && selectedItemsGrid.SameSettings()
      ensures Membership() == Transfer(old(Membership()), SourceOf(grid), view, inside)
      ensures SourceOf(grid) == OtherGrid ==>
        && unchanged(itemsGrid, selectedItemsGrid)
        && unchanged(old(itemsGrid.reorderableViews)) && unchanged(old(selectedItemsGrid.reorderableViews))
      // the grid the drag came from is laid out again, and so is the receiving grid of a transfer
      ensures SourceOf(grid) == ItemsGrid || (SourceOf(grid) == SelectedItemsGrid && inside) ==> itemsGrid.FreshLayout()
      ensures SourceOf(grid) == SelectedItemsGrid || (SourceOf(grid) == ItemsGrid && inside) ==> selectedItemsGrid.FreshLayout()
      // the other grid of a drop that stays in its grid is not touched
      ensures SourceOf(grid) == ItemsGrid && !inside ==>
        unchanged(selectedItemsGrid) && unchanged(old(selectedItemsGrid.reorderableViews))
      ensures SourceOf(grid) == SelectedItemsGrid && !inside ==>
        unchanged(itemsGrid) && unchanged(old(itemsGrid.reorderableViews))
      ensures SourceOf(grid) == ItemsGrid && !inside && old(selectedItemsGrid.FreshLayout()) ==> selectedItemsGrid.FreshLayout()
      ensures SourceOf(grid) == SelectedItemsGrid && !inside && old(itemsGrid.FreshLayout()) ==> itemsGrid.FreshLayout()
    {
      if grid == itemsGrid {
        DragEnded(itemsGrid, selectedItemsGrid, view, inside);
      } else if grid == selectedItemsGrid {
        DisjointSwap(itemsGrid.reorderableViews, selectedItemsGrid.reorderableViews);
        DragEnded(selectedItemsGrid, itemsGrid, view, inside);
        DisjointSwap(selectedItemsGrid.reorderableViews, itemsGrid.reorderableViews);
      }
    }

    /**
     * One branch of `didDragEndFonView`, for a drag of `view` that ended in
     * `from`, the other grid being `to`: hand the view over on a drop inside
     * `to`'s container, else lay `from` out again.
     */
    method DragEnded(from: ReorderableGridView, to: ReorderableGridView, view: ReorderableView, inside: bool)
      requires from != to && from.Valid() && to.Valid() && view in from.reorderableViews
      requires Disjoint(from.reorderableViews, to.reorderableViews)
      modifies from, from.reorderableViews`x, from.reorderableViews`y, from.reorderableViews`gridPosition
      modifies to, to.reorderableViews`x, to.reorderableViews`y, to.reorderableViews`gridPosition
      ensures from.Valid() && to.Valid() && from.FreshLayout() && (inside ==> to.FreshLayout())
      ensures from.SameSettings() && to.SameSettings()
      ensures Disjoint(from.reorderableViews, to.reorderableViews)
      ensures inside ==>
        && from.reorderableViews == RemoveAt(old(from.reorderableViews), IndexOf(old(from.reorderableViews), view))
        && to.reorderableViews == old(to.reorderableViews) + [view]
      ensures !inside ==> from.reorderableViews == old(from.reorderableViews) && to.reorderableViews == old(to.reorderableViews)
      ensures !inside ==> unchanged(to) && unchanged(old(to.reorderableViews))
      ensures !inside && old(to.FreshLayout()) ==> to.FreshLayout()
    {
      if inside {
        HandOver(from, to, view);
      } else {
        Relayout(from, to);
      }
    }

    /** Lays grid `g` out again, which leaves the other grid as it is. */
    method Relayout(g: ReorderableGridView, other: ReorderableGridView)
      requires g != other && g.Valid() && other.Valid() && Disjoint(g.reorderableViews, other.reorderableViews)
      modifies g, g.reorderableViews`x, g.reorderableViews`y, g.reorderableViews`gridPosition
      ensures g.Valid() && g.FreshLayout() && g.SameSettings() && g.reorderableViews == old(g.reorderableViews)
      ensures unchanged(other) && unchanged(old(other.reorderableViews))
      ensures other.Valid() && other.reorderableViews == old(other.reorderableViews)
      ensures old(other.FreshLayout()) ==> other.FreshLayout()
      ensures Disjoint(g.reorderableViews, other.reorderableViews)
    {
      DisjointSwap(g.reorderableViews, other.reorderableViews);
      forall k | 0 <= k < |other.reorderableViews|
        ensures other.reorderableViews[k] !in g.reorderableViews
      {
        DisjointMembers(other.reorderableViews, g.reorderableViews, other.reorderableViews[k]);
      }
      g.InvalidateLayout();
      GridKept(other);
    }

    /** Removes `view` from grid `from`, then appends it to grid `to`. */
    method HandOver(from: ReorderableGridView, to: ReorderableGridView, view: ReorderableView)
      requires from != to && from.Valid() && to.Valid() && view in from.reorderableViews
      requires Disjoint(from.reorderableViews, to.reorderableViews)
      modifies from, from.reorderableViews`x, from.reorderableViews`y, from.reorderableViews`gridPosition
      modifies to, to.reorderableViews`x, to.reorderableViews`y, to.reorderableViews`gridPosition
      ensures from.Valid() && to.Valid() && from.FreshLayout() && to.FreshLayout()
      ensures from.SameSettings() && to.SameSettings()
      ensures from.reorderableViews == RemoveAt(old(from.reorderableViews), IndexOf(old(from.reorderableViews), view))
      ensures to.reorderableViews == old(to.reorderableViews) + [view]
      ensures Disjoint(from.reorderableViews, to.reorderableViews)
    {
      RemoveFrom(from, to, view);
      AddTo(from, to, view);
    }

    /**
     * The first half of a hand-over: `view` leaves grid `from`, and `to` stays
     * as it is. `to` itself is outside the modifies clause; its views are
     * stated unchanged.
     */
    method RemoveFrom(from: ReorderableGridView, to: ReorderableGridView, view: ReorderableView)
      requires from != to && from.Valid() && to.Valid() && view in from.reorderableViews
      requires Disjoint(from.reorderableViews, to.reorderableViews)
      modifies from, from.reorderableViews`x, from.reorderableViews`y, from.reorderableViews`gridPosition
      ensures from.Valid() && from.FreshLayout() && to.Valid()
      ensures from.SameSettings() && unchanged(old(to.reorderableViews))
      ensures from.reorderableViews == RemoveAt(old(from.reorderableViews), IndexOf(old(from.reorderableViews), view))
      ensures to.reorderableViews == old(to.reorderableViews)
      ensures view !in from.reorderableViews && view !in to.reorderableViews
      ensures Disjoint(from.reorderableViews, to.reorderableViews + [view])
    {
      ghost var a := from.reorderableViews;
      ghost var b := to.reorderableViews;
      MovedToEnd(a, b, view);
      DisjointMembers(a, b, view);
      SettledIndex(a, from.colsInRow, view);
      DisjointNotIn(a, b);
      from.RemoveReorderableView(view);
    }

    /** The second half of a hand-over: `view` is appended to grid `to`, and `from` stays as it is. */
    method AddTo(from: ReorderableGridView, to: ReorderableGridView, view: ReorderableView)
      requires from != to && from.Valid() && from.FreshLayout() && to.Valid()
      requires view !in from.reorderableViews && view !in to.reorderableViews
      requires Disjoint(from.reorderableViews, to.reorderableViews + [view])
      modifies to, to.reorderableViews`x, to.reorderableViews`y, to.reorderableViews`gridPosition, view`x, view`y, view`gridPosition
      ensures from.Valid() && from.FreshLayout() && to.Valid() && to.FreshLayout()
      ensures to.SameSettings() && unchanged(from) && unchanged(old(from.reorderableViews))
      ensures from.reorderableViews == old(from.reorderableViews)
      ensures to.reorderableViews == old(to.reorderableViews) + [view]
      ensures Disjoint(from.reorderableViews, to.reorderableViews)
    {
      ghost var b := to.reorderableViews;
      forall k | 0 <= k < |from.reorderableViews|
        ensures from.reorderableViews[k] !in b + [view]
      {
        DisjointMembers(from.reorderableViews, b + [view], from.reorderableViews[k]);
      }
      to.AddReorderableView(view);
      GridKept(from);
    }
  }
}

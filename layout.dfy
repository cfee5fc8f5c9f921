/**
 * The arithmetic of a layout pass, shared by both engines: the column count
 * and padding derived from the frame width, the pixel origin of each cell,
 * the content height, and the column a drag pointer falls into.
 *
 * CGFloat values are `real`; Swift's `Int(_:)` conversion truncates toward
 * zero and Swift's `Int` division truncates toward zero too, both written out
 * below (Dafny's own `/` on `int` is Euclidean).
 */
module Layout {
  import opened Options

  datatype Point = Point(x: real, y: real)

  datatype Rect = Rect(x: real, y: real, width: real, height: real) {
    /** CGRectContainsPoint: left and top edges belong to the rectangle, right and bottom ones do not. */
    predicate Contains(p: Point)
    {
      x <= p.x < x + width && y <= p.y < y + height
    }
  }

  /** The measures one layout pass works with. */
  datatype Metrics = Metrics(cols: int, itemWidth: real, verticalPadding: real)

  /**
   * `Int(w / itemWidth)`, which truncates toward zero: the number of whole
   * items that fit across a frame of non-negative width.
   */
  function ColsInRow(width: real, itemWidth: real): (r: int)
    requires itemWidth > 0.0
    ensures 0.0 <= width ==> r as real <= width / itemWidth < r as real + 1.0
    ensures width >= itemWidth ==> r >= 1
  {
    assert width >= itemWidth ==> width / itemWidth >= 1.0 by {
      assert width / itemWidth * itemWidth == width;
    }
    assert 0.0 <= width ==> 0.0 <= width / itemWidth;
    Trunc(width / itemWidth)
  }

  /**
   * `(w - cols * itemWidth) / (cols - 1)`. With a single column the source
   * divides by zero; `None` stands for the non-finite value it then stores.
   */
  function HorizontalPadding(width: real, itemWidth: real, cols: int): (r: Option<real>)
    ensures r.None? <==> cols == 1
    ensures r.Some? ==> cols as real * itemWidth + (cols - 1) as real * r.value == width
  {
    if cols == 1 then None
    else
      var gap := (width - cols as real * itemWidth) / (cols - 1) as real;
      assert (cols - 1) as real * gap == width - cols as real * itemWidth;
      Some(gap)
  }

  /**
   * The x origin of a cell. It depends on the column alone: column 0 starts
   * at `-verticalPadding` and each further column is one item width plus the
   * vertical padding (not the horizontal one) to the right.
   */
  function ColumnX(col: int, itemWidth: real, verticalPadding: real): real
    decreases if col < 0 then -col else col
  {
    if col == 0 then -verticalPadding
    else if col > 0 then ColumnX(col - 1, itemWidth, verticalPadding) + itemWidth + verticalPadding
    else ColumnX(col + 1, itemWidth, verticalPadding) - (itemWidth + verticalPadding)
  }

  /** The closed form of the x origin: `(col - 1) * (itemWidth + verticalPadding) + itemWidth`. */
  lemma {:induction false} ColumnXFormula(col: int, itemWidth: real, verticalPadding: real)
    ensures ColumnX(col, itemWidth, verticalPadding) == (col - 1) as real * (itemWidth + verticalPadding) + itemWidth
    decreases if col < 0 then -col else col
  {
    if col > 0 {
      ColumnXFormula(col - 1, itemWidth, verticalPadding);
      MulStep((col - 1) as real, itemWidth + verticalPadding);
    } else if col < 0 {
      ColumnXFormula(col + 1, itemWidth, verticalPadding);
      MulStep(col as real, itemWidth + verticalPadding);
    }
  }

  /** One more copy of `a`: `c * a == (c - 1) * a + a`. */
  lemma MulStep(c: real, a: real)
    ensures c * a == (c - 1.0) * a + a
  {
  }

  /** Neighbouring columns are one item width plus the vertical padding apart. */
  lemma ColumnXSpacing(col: int, itemWidth: real, verticalPadding: real)
    ensures ColumnX(col + 1, itemWidth, verticalPadding) == ColumnX(col, itemWidth, verticalPadding) + itemWidth + verticalPadding
  {
    ColumnXFormula(col, itemWidth, verticalPadding);
    ColumnXFormula(col + 1, itemWidth, verticalPadding);
    MulStep(col as real, itemWidth + verticalPadding);
  }

  /**
   * The y origin of item `i` after a pass over items with the given heights:
   * 0 in the first row, else the bottom of the item directly above (index
   * `i - cols`) plus the vertical padding.
   */
  function RowY(heights: seq<real>, m: Metrics, i: int): real
    requires 1 <= m.cols && 0 <= i < |heights|
    decreases i
  {
    if i < m.cols then 0.0
    else RowY(heights, m, i - m.cols) + heights[i - m.cols] + m.verticalPadding
  }

  /** Bottom of item `k` plus the vertical padding: what `botttomWithOffset` gives after the item is placed. */
  function PaddedBottom(heights: seq<real>, m: Metrics, k: int): real
    requires 1 <= m.cols && 0 <= k < |heights|
  {
    RowY(heights, m, k) + heights[k] + m.verticalPadding
  }

  /**
   * The content height after the first `n` items are placed, starting from
   * `initial`: each placement raises it to the item's padded bottom when that
   * is larger.
   */
  function ContentHeight(initial: real, heights: seq<real>, m: Metrics, n: int): real
    requires 1 <= m.cols && 0 <= n <= |heights|
  {
    if n == 0 then initial
    else
      var before := ContentHeight(initial, heights, m, n - 1);
      var bottom := PaddedBottom(heights, m, n - 1);
      if bottom > before then bottom else before
  }

  /**
   * The content height never drops below its starting value, covers every
   * placed item's padded bottom, and is the starting value or one of those
   * bottoms: it is their maximum.
   */
  lemma {:induction false} ContentHeightIsMaximum(initial: real, heights: seq<real>, m: Metrics, n: int)
    requires 1 <= m.cols && 0 <= n <= |heights|
    ensures ContentHeight(initial, heights, m, n) >= initial
    ensures forall k :: 0 <= k < n ==> ContentHeight(initial, heights, m, n) >= PaddedBottom(heights, m, k)
    ensures ContentHeight(initial, heights, m, n) == initial
         || exists k :: 0 <= k < n && ContentHeight(initial, heights, m, n) == PaddedBottom(heights, m, k)
  {
    if n > 0 {
      ContentHeightIsMaximum(initial, heights, m, n - 1);
    }
  }

  /** Each placement can only raise the content height. */
  lemma {:induction false} ContentHeightGrows(initial: real, heights: seq<real>, m: Metrics, n: int, n': int)
    requires 1 <= m.cols && 0 <= n <= n' <= |heights|
    ensures ContentHeight(initial, heights, m, n) <= ContentHeight(initial, heights, m, n')
  {
    if n < n' {
      ContentHeightGrows(initial, heights, m, n, n' - 1);
    }
  }

  /**
   * With non-negative heights and padding, an item in a column ends, padding
   * included, no lower than where any later item of the same column starts:
   * items in one column never overlap.
   */
  lemma {:induction false} ColumnStacksDownward(heights: seq<real>, m: Metrics, col: int, r1: int, r2: int)
    requires 1 <= m.cols && 0 <= col < m.cols && 0 <= r1 < r2
    requires r2 * m.cols + col < |heights|
    requires m.verticalPadding >= 0.0 && forall k :: 0 <= k < |heights| ==> heights[k] >= 0.0
    ensures r1 * m.cols + col >= 0
    ensures PaddedBottom(heights, m, r1 * m.cols + col) <= RowY(heights, m, r2 * m.cols + col)
  {
    var i := r2 * m.cols + col;
    assert i - m.cols == (r2 - 1) * m.cols + col;
    assert r1 * m.cols >= 0;
    assert i >= m.cols by {
      assert (r2 - 1) * m.cols >= 0;
    }
    if r1 < r2 - 1 {
      ColumnStacksDownward(heights, m, col, r1, r2 - 1);
    }
  }

  /** `Int(r)` on a CGFloat: truncation toward zero. */
  function Trunc(r: real): (t: int)
    ensures 0.0 <= r ==> 0 <= t && t as real <= r < t as real + 1.0
    ensures r < 0.0 ==> t <= 0 && t as real - 1.0 < r <= t as real
  {
    if r >= 0.0 then r.Floor else -((-r).Floor)
  }

  /** Euclidean division of a non-negative number brackets it between two multiples of the divisor. */
  lemma DivBounds(a: int, b: int)
    requires 0 <= a && 1 <= b
    ensures 0 <= a / b && (a / b) * b <= a < (a / b) * b + b
  {
    assert a == (a / b) * b + a % b;
    assert 0 <= a % b < b;
  }

  /** Swift's `a / b` on `Int` for a positive divisor: the quotient truncated toward zero. */
  function TruncDiv(a: int, b: int): (q: int)
    requires b >= 1
    ensures 0 <= a ==> 0 <= q && q * b <= a < q * b + b
    ensures a < 0 ==> q <= 0 && q * b - b < a <= q * b
  {
    if a >= 0 then
      DivBounds(a, b);
      a / b
    else
      var p := (-a) / b;
      DivBounds(-a, b);
      assert (-p) * b == -(p * b);
      -p
  }

  /**
   * The candidate column of a drag move:
   * `min(Int(x) / Int(itemWidth + horizontalPadding), cols - 1)`. Clamped
   * on the right only: it is never past the last column, and it is a real
   * column whenever the pointer is not left of the grid.
   */
  function HitColumn(x: real, itemWidth: real, horizontalPadding: real, cols: int): (c: int)
    requires itemWidth + horizontalPadding >= 1.0
    ensures c <= cols - 1
    ensures 0.0 <= x && 1 <= cols ==> 0 <= c
    ensures 0.0 <= x && c < cols - 1 ==>
      var band := Trunc(itemWidth + horizontalPadding); c * band <= Trunc(x) < c * band + band
  {
    var band := Trunc(itemWidth + horizontalPadding);
    var c := TruncDiv(Trunc(x), band);
    if c < cols - 1 then c else cols - 1
  }

  /** A pointer one column band or more left of the grid gives a negative candidate column. */
  lemma HitColumnLeftOfGrid(x: real, itemWidth: real, horizontalPadding: real, cols: int)
    requires itemWidth + horizontalPadding >= 1.0 && 1 <= cols
    requires x <= -(itemWidth + horizontalPadding)
    ensures HitColumn(x, itemWidth, horizontalPadding, cols) < 0
  {
    var band := Trunc(itemWidth + horizontalPadding);
    assert Trunc(x) <= -band;
  }
}

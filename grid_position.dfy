/** An optional value: the Swift `T?` of the grid code. */
module Options {
  datatype Option<+T> = None | Some(value: T)
}

/**
 * The grid coordinate value type shared by both engines: a column (the
 * source's `x`) and a row (its `y`), the row-major `arrayIndex` and the four
 * neighbour helpers.
 */
module GridPositions {
  import opened Options

  datatype GridPosition = GridPosition(col: int, row: int)

  /**
   * `row * cols`, the linear index where a row starts, defined row by row
   * so that the solver meets no product of two unknowns;
   * `RowStartIsProduct` gives the closed form.
   */
  function RowStart(row: int, cols: int): int
    decreases if row < 0 then -row else row
  {
    if row == 0 then 0
    else if row > 0 then RowStart(row - 1, cols) + cols
    else RowStart(row + 1, cols) - cols
  }

  /** Row-major linear index of `p` in a grid `cols` columns wide: `row * cols + col`. */
  function ArrayIndex(p: GridPosition, cols: int): int
  {
    RowStart(p.row, cols) + p.col
  }

  /** The row start is the product of row and column count. */
  lemma {:induction false} RowStartIsProduct(row: int, cols: int)
    ensures RowStart(row, cols) == row * cols
    decreases if row < 0 then -row else row
  {
    if row > 0 {
      RowStartIsProduct(row - 1, cols);
      assert row * cols == (row - 1) * cols + cols;
    } else if row < 0 {
      RowStartIsProduct(row + 1, cols);
      assert row * cols == (row + 1) * cols - cols;
    }
  }

  /** `arrayIndex(colsInRow)` in closed form: `row * cols + col`. */
  lemma ArrayIndexFormula(p: GridPosition, cols: int)
    ensures ArrayIndex(p, cols) == p.row * cols + p.col
  {
    RowStartIsProduct(p.row, cols);
  }

  /** Consecutive rows start `cols` apart. */
  lemma RowStartStep(row: int, cols: int)
    ensures RowStart(row + 1, cols) == RowStart(row, cols) + cols
  {
  }

  /** With at least one column, rows from the first on start at a non-negative index, and later rows after it. */
  lemma {:induction false} RowStartBounds(row: int, cols: int)
    requires 1 <= cols
    ensures 0 <= row ==> 0 <= RowStart(row, cols)
    ensures 1 <= row ==> cols <= RowStart(row, cols)
    decreases if row < 0 then -row else row
  {
    if row > 0 {
      RowStartBounds(row - 1, cols);
    }
  }

  /**
   * The position the layout pass gives to the item at linear index `i`: the
   * first row holds indices `0 ..< cols`, and every later index sits one row
   * below the index `cols` before it.
   */
  function PositionOf(i: int, cols: int): (r: GridPosition)
    requires 0 <= i && 1 <= cols
    ensures 0 <= r.col < cols && 0 <= r.row
    decreases i
  {
    if i < cols then GridPosition(i, 0)
    else
      var p := PositionOf(i - cols, cols);
      GridPosition(p.col, p.row + 1)
  }

  /** The layout position of index `i` has index `i`. */
  lemma {:induction false} ArrayIndexOfPositionOf(i: int, cols: int)
    requires 0 <= i && 1 <= cols
    ensures ArrayIndex(PositionOf(i, cols), cols) == i
    decreases i
  {
    if i >= cols {
      ArrayIndexOfPositionOf(i - cols, cols);
    }
  }

  /** The cell above, or none in the first row (or above it). */
  function Up(p: GridPosition): (r: Option<GridPosition>)
    ensures r.None? <==> p.row <= 0
    ensures r.Some? ==> r.value.col == p.col && r.value.row == p.row - 1
  {
    if p.row <= 0 then None else Some(GridPosition(p.col, p.row - 1))
  }

  /** The cell below; unbounded, validity is the grid's concern. From any row on or below the first, `up` leads back. */
  function Down(p: GridPosition): (r: GridPosition)
    ensures p.row >= 0 ==> Up(r) == Some(p)
  {
    GridPosition(p.col, p.row + 1)
  }

  /** The cell to the left, or none in the first column (or left of it). */
  function Left(p: GridPosition): (r: Option<GridPosition>)
    ensures r.None? <==> p.col <= 0
    ensures r.Some? ==> r.value.row == p.row && r.value.col == p.col - 1
  {
    if p.col <= 0 then None else Some(GridPosition(p.col - 1, p.row))
  }

  /** The cell to the right; unbounded. From any column on or right of the first, `left` leads back. */
  function Right(p: GridPosition): (r: GridPosition)
    ensures p.col >= 0 ==> Left(r) == Some(p)
  {
    GridPosition(p.col + 1, p.row)
  }

  /** A grid cell inside the columns round-trips through its linear index. */
  lemma {:induction false} PositionOfArrayIndex(p: GridPosition, cols: int)
    requires 1 <= cols && 0 <= p.col < cols && 0 <= p.row
    ensures ArrayIndex(p, cols) >= 0
    ensures PositionOf(ArrayIndex(p, cols), cols) == p
    decreases p.row
  {
    RowStartBounds(p.row, cols);
    if p.row > 0 {
      PositionOfArrayIndex(GridPosition(p.col, p.row - 1), cols);
    }
  }

  /** A non-zero multiple of `c` is at least `c` away from zero. */
  lemma MultipleBound(d: int, c: int)
    requires 1 <= c
    ensures d >= 1 ==> d * c >= c
    ensures d <= -1 ==> d * c <= -c
  {
    if d >= 1 {
      assert d * c - c == (d - 1) * c;
    }
    if d <= -1 {
      assert d * c + c == (d + 1) * c;
    }
  }

  /** Euclidean division is unique: the quotient and remainder of `q*c + r`. */
  lemma DivModOf(q: int, c: int, r: int)
    requires 1 <= c && 0 <= r < c
    ensures (q * c + r) / c == q && (q * c + r) % c == r
  {
    var i := q * c + r;
    var d := i / c - q;
    assert d * c == r - i % c by {
      assert i == (i / c) * c + i % c;
      assert d * c == (i / c) * c - q * c;
    }
    MultipleBound(d, c);
  }

  /** The layout position of index `i` is its Euclidean remainder and quotient by `cols`. */
  lemma PositionOfDivMod(i: int, cols: int)
    requires 0 <= i && 1 <= cols
    ensures PositionOf(i, cols) == GridPosition(i % cols, i / cols)
  {
    var p := PositionOf(i, cols);
    RowStartIsProduct(p.row, cols);
    DivModOf(p.row, cols, p.col);
  }

  /** Two cells inside the columns are the same cell iff their indices agree. */
  lemma ArrayIndexInjective(p: GridPosition, q: GridPosition, cols: int)
    requires 1 <= cols && 0 <= p.col < cols && 0 <= p.row && 0 <= q.col < cols && 0 <= q.row
    ensures ArrayIndex(p, cols) == ArrayIndex(q, cols) <==> p == q
  {
    PositionOfArrayIndex(p, cols);
    PositionOfArrayIndex(q, cols);
  }

  /**
   * The cell above the position of item `i` exists exactly from the second
   * row on, and holds item `i - cols`: an item that comes earlier.
   */
  lemma UpOfPositionOf(i: int, cols: int)
    requires 0 <= i && 1 <= cols
    ensures Up(PositionOf(i, cols)).None? <==> i < cols
    ensures i >= cols ==> Up(PositionOf(i, cols)).value == PositionOf(i - cols, cols)
    ensures i >= cols ==> ArrayIndex(Up(PositionOf(i, cols)).value, cols) == i - cols
  {
    if i >= cols {
      ArrayIndexOfPositionOf(i - cols, cols);
    }
  }

  /** The layout position of item `i + 1` follows that of item `i` in row-major order. */
  lemma PositionOfSuccessor(i: int, cols: int)
    requires 0 <= i && 1 <= cols
    ensures var p := PositionOf(i, cols);
      p.col + 1 <= cols - 1 ==> PositionOf(i + 1, cols) == GridPosition(p.col + 1, p.row)
    ensures var p := PositionOf(i, cols);
      p.col + 1 > cols - 1 ==> PositionOf(i + 1, cols) == GridPosition(0, p.row + 1)
  {
    var p := PositionOf(i, cols);
    ArrayIndexOfPositionOf(i, cols);
    if p.col + 1 <= cols - 1 {
      PositionOfArrayIndex(GridPosition(p.col + 1, p.row), cols);
    } else {
      PositionOfArrayIndex(GridPosition(0, p.row + 1), cols);
    }
  }

  /** Moving to a neighbour changes the linear index by one or by a row. */
  lemma NeighbourIndices(p: GridPosition, cols: int)
    ensures ArrayIndex(Down(p), cols) == ArrayIndex(p, cols) + cols
    ensures ArrayIndex(Right(p), cols) == ArrayIndex(p, cols) + 1
    ensures Up(p).Some? ==> ArrayIndex(Up(p).value, cols) == ArrayIndex(p, cols) - cols
    ensures Left(p).Some? ==> ArrayIndex(Left(p).value, cols) == ArrayIndex(p, cols) - 1
  {
    RowStartStep(p.row, cols);
    RowStartStep(p.row - 1, cols);
  }

  /** `up` undoes `down` and `left` undoes `right` from any cell with non-negative coordinates. */
  lemma NeighboursInvert(p: GridPosition)
    ensures Up(Down(p)) == (if p.row >= 0 then Some(p) else None)
    ensures Left(Right(p)) == (if p.col >= 0 then Some(p) else None)
    ensures Up(p).Some? ==> Down(Up(p).value) == p
    ensures Left(p).Some? ==> Right(Left(p).value) == p
  {
  }
}

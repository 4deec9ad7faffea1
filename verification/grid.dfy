/** Where the items of a collection stand: rows and columns in both orders, cursor moves, and the lasso. */
module Grids {
  function Max(a: int, b: int): int {
    if a > b then a else b
  }

  function Min(a: int, b: int): int {
    if a < b then a else b
  }

  /** Division as in C: towards zero. */
  function Quotient(a: int, b: int): int
    requires b > 0
  {
    if a >= 0 then a / b else -((-a) / b)
  }

  datatype Cell = Cell(row: int, col: int)

  /** How many items there are, how many fit in a row, and whether columns are filled first. */
  datatype Grid = Grid(n: nat, columns: nat, vertical: bool) {
    ghost predicate Valid() {
      columns > 0
    }

    function Rows(): int
      requires Valid()
    {
      Max((n + columns - 1) / columns, 1)
    }

    function Cols(): int
      requires Valid()
    {
      if vertical then
        var rows := Rows();
        Max(1, (n + rows - 1) / rows)
      else columns
    }

    function CellOf(item: nat): Cell
      requires Valid()
    {
      if !vertical then Cell(item / columns, item % columns)
      else
        var rows := Rows();
        Cell(item % rows, item / rows)
    }

    /** May be `n` or more: no item is there. */
    function ItemAt(cell: Cell): int
      requires Valid()
    {
      if !vertical then cell.row * columns + cell.col
      else
        var rows := Rows();
        if cell.row >= rows then n else cell.row + cell.col * rows
    }

    predicate Has(cell: Cell)
      requires Valid()
    {
      0 <= cell.row < Rows() && 0 <= cell.col < Cols()
    }

    /** The item the cursor moves to, from `item` or from nowhere (-1), when rows `first` to `last` are in view. */
    function Target(item: int, drow: int, dcol: int, first: int, last: int): (target: int)
      requires Valid() && n > 0 && -1 <= item < n
      ensures 0 <= target < n
    {
      var cell := if item == -1 then Cell(first, 0) else Step(CellOf(item), drow, dcol, first, last);
      Min(Max(ItemAt(cell), 0), n - 1)
    }

    function Step(at: Cell, drow: int, dcol: int, first: int, last: int): Cell
      requires Valid()
    {
      var col := if vertical then Min(Max(0, at.col + dcol), Cols() - 1) else at.col + dcol;
      if at.row < first then Cell(first, col)
      else if at.row > last then Cell(last, col)
      else if vertical then StepDown(at.row, col, drow)
      else Cell(Min(Max(at.row + drow, 0), Rows() - 1), col)
    }

    /** In vertical order a move past the end of a column goes on in the next. */
    function StepDown(row: int, col: int, drow: int): Cell
      requires Valid()
    {
      if drow > 0 && row == Rows() - 1 then
        if col != Cols() - 1 then Cell(0, col + 1) else Cell(row, col)
      else if drow < 0 && row == 0 then
        if col != 0 then Cell(Rows() - 1, col - 1) else Cell(row, col)
      else Cell(Min(Max(row + drow, 0), Rows() - 1), col)
    }
  }

  lemma Order(a: int, b: int, d: int)
    requires d > 0
    ensures a <= b <==> a * d <= b * d
  {
  }

  lemma Division(a: int, d: int, q: int, r: int)
    requires d > 0 && 0 <= r < d && a == q * d + r
    ensures a / d == q && a % d == r
  {
    var k := a / d;
    assert a == k * d + a % d;
    assert (q + 1) * d == q * d + d && (k + 1) * d == k * d + d;
    Order(q + 1, k, d);
    Order(k + 1, q, d);
  }

  lemma QuotientBelow(a: nat, d: int, q: int)
    requires d > 0 && a < q * d
    ensures 0 <= a / d < q && 0 <= a % d < d && a == a / d * d + a % d
  {
    Order(q, a / d, d);
  }

  /** Rounded up, q is what is needed to hold n. */
  lemma RoundUp(n: nat, d: int)
    requires d > 0
    ensures var q := (n + d - 1) / d;
            n <= q * d && (n > 0 ==> (q - 1) * d < n) && 0 <= q <= n
  {
    var q := (n + d - 1) / d;
    assert n + d - 1 == q * d + (n + d - 1) % d;
    assert (q - 1) * d == q * d - d && (n + 1) * d == n * d + d;
    Order(n + 1, q, d);
    Order(1, d, n + 1);
  }

  /** Every item has a cell in the grid, and is the item of that cell. */
  lemma ItemHasCell(g: Grid, item: nat)
    requires g.Valid() && item < g.n
    ensures g.Has(g.CellOf(item)) && g.ItemAt(g.CellOf(item)) == item && g.CellOf(item).col < g.columns
  {
    RoundUp(g.n, g.columns);
    var rows := g.Rows();
    if !g.vertical {
      QuotientBelow(item, g.columns, rows);
    } else {
      RoundUp(g.n, rows);
      ColumnsFit(g);
      QuotientBelow(item, rows, g.Cols());
    }
  }

  /** No more columns are filled than there are. */
  lemma ColumnsFit(g: Grid)
    requires g.Valid()
    ensures 1 <= g.Cols() <= g.columns
  {
    var rows := g.Rows();
    RoundUp(g.n, g.columns);
    RoundUp(g.n, rows);
    Order(g.columns, (g.n + rows - 1) / rows - 1, rows);
    assert g.columns * rows == rows * g.columns;
  }

  /** A cell of the grid that holds an item is the cell of that item. */
  lemma CellHasItem(g: Grid, cell: Cell)
    requires g.Valid() && 0 <= cell.row < g.Rows() && 0 <= cell.col < g.columns && g.ItemAt(cell) < g.n
    ensures g.ItemAt(cell) >= 0 && g.CellOf(g.ItemAt(cell)) == cell
  {
    if !g.vertical {
      assert cell.row * g.columns >= 0;
      Division(g.ItemAt(cell), g.columns, cell.row, cell.col);
    } else {
      assert cell.col * g.Rows() >= 0;
      Division(g.ItemAt(cell), g.Rows(), cell.col, cell.row);
    }
  }

  /** There are just as many rows as the items need, one if there are none; no cell below them holds an item. */
  lemma RowsExactly(g: Grid, cell: Cell)
    requires g.Valid()
    ensures if g.n == 0 then g.Rows() == 1 else (g.Rows() - 1) * g.columns < g.n <= g.Rows() * g.columns
    ensures cell.row >= g.Rows() && cell.col >= 0 ==> g.ItemAt(cell) >= g.n
  {
    RoundUp(g.n, g.columns);
    if cell.row >= g.Rows() && !g.vertical {
      Order(g.Rows(), cell.row, g.columns);
    }
  }

  lemma NextAndPrevious(a: int, d: int)
    ensures (a + 1) * d == a * d + d && (a - 1) * d == a * d - d
  {
  }

  /** Down goes to the next item in vertical order, as long as the cursor is in view. */
  lemma DownGoesOn(g: Grid, item: nat, first: int, last: int)
    requires g.Valid() && g.vertical && item < g.n && first <= g.CellOf(item).row <= last
    ensures g.Target(item, 1, 0, first, last) == Min(item + 1, g.n - 1)
  {
    ItemHasCell(g, item);
    NextAndPrevious(g.CellOf(item).col, g.Rows());
    RoundUp(g.n, g.Rows());
  }

  /** Up goes to the one before. */
  lemma UpGoesBack(g: Grid, item: nat, first: int, last: int)
    requires g.Valid() && g.vertical && item < g.n && first <= g.CellOf(item).row <= last
    ensures g.Target(item, -1, 0, first, last) == Max(item - 1, 0)
  {
    ItemHasCell(g, item);
    NextAndPrevious(g.CellOf(item).col, g.Rows());
    Order(0, g.CellOf(item).col, g.Rows());
  }

  /** Right goes to the next item in horizontal order, Left to the one before. */
  lemma RightAndLeft(g: Grid, item: nat, first: int, last: int)
    requires g.Valid() && !g.vertical && item < g.n && first <= g.CellOf(item).row <= last
    ensures g.Target(item, 0, 1, first, last) == Min(item + 1, g.n - 1)
    ensures g.Target(item, 0, -1, first, last) == Max(item - 1, 0)
  {
    ItemHasCell(g, item);
  }

  /** Across the filling order a move goes one whole line, to the edge at most. */
  lemma DownOneRow(g: Grid, item: nat, first: int, last: int)
    requires g.Valid() && !g.vertical && item < g.n && first <= g.CellOf(item).row <= last
    ensures g.Target(item, 1, 0, first, last)
         == if g.CellOf(item).row == g.Rows() - 1 then item else Min(item + g.columns, g.n - 1)
  {
    ItemHasCell(g, item);
    NextAndPrevious(g.CellOf(item).row, g.columns);
  }

  lemma UpOneRow(g: Grid, item: nat, first: int, last: int)
    requires g.Valid() && !g.vertical && item < g.n && first <= g.CellOf(item).row <= last
    ensures g.Target(item, -1, 0, first, last) == if item < g.columns then item else item - g.columns
  {
    ItemHasCell(g, item);
    NextAndPrevious(g.CellOf(item).row, g.columns);
    Order(1, g.CellOf(item).row, g.columns);
  }

  lemma RightOneColumn(g: Grid, item: nat, first: int, last: int)
    requires g.Valid() && g.vertical && item < g.n && first <= g.CellOf(item).row <= last
    ensures g.Target(item, 0, 1, first, last)
         == if g.CellOf(item).col == g.Cols() - 1 then item else Min(item + g.Rows(), g.n - 1)
  {
    ItemHasCell(g, item);
    NextAndPrevious(g.CellOf(item).col, g.Rows());
  }

  lemma LeftOneColumn(g: Grid, item: nat, first: int, last: int)
    requires g.Valid() && g.vertical && item < g.n && first <= g.CellOf(item).row <= last
    ensures g.Target(item, 0, -1, first, last) == if item < g.Rows() then item else item - g.Rows()
  {
    ItemHasCell(g, item);
    NextAndPrevious(g.CellOf(item).col, g.Rows());
    Order(1, g.CellOf(item).col, g.Rows());
  }

  /**
   * A move by whole pages stays in its column and ends in the first or the last row at most; the last item
   * stands in when no item is there. Only at an end of a column in vertical order is there more to a move.
   */
  lemma ManyRows(g: Grid, item: nat, drow: int, first: int, last: int)
    requires g.Valid() && item < g.n && first <= g.CellOf(item).row <= last
    requires g.vertical && drow > 0 ==> g.CellOf(item).row < g.Rows() - 1
    requires g.vertical && drow < 0 ==> g.CellOf(item).row > 0
    ensures var t, row := g.Target(item, drow, 0, first, last), g.CellOf(item).row + drow;
            var cell := Cell(if row < 0 then 0 else if row < g.Rows() then row else g.Rows() - 1, g.CellOf(item).col);
            if g.ItemAt(cell) < g.n then g.CellOf(t) == cell else t == g.n - 1
  {
    ItemHasCell(g, item);
    var row := g.CellOf(item).row + drow;
    var cell := Cell(if row < 0 then 0 else if row < g.Rows() then row else g.Rows() - 1, g.CellOf(item).col);
    if g.ItemAt(cell) < g.n {
      CellHasItem(g, cell);
    }
  }

  /**
   * A cursor out of view comes back to the nearest row in view and stays in its column; the
   * last item stands in when no item is there.
   */
  lemma BackIntoView(g: Grid, item: nat, drow: int, first: int, last: int)
    requires g.Valid() && item < g.n && 0 <= first <= last < g.Rows()
    requires g.CellOf(item).row < first || g.CellOf(item).row > last
    ensures var t := g.Target(item, drow, 0, first, last);
            var cell := Cell(if g.CellOf(item).row < first then first else last, g.CellOf(item).col);
            if g.ItemAt(cell) < g.n then g.CellOf(t) == cell else t == g.n - 1
  {
    ItemHasCell(g, item);
    var cell := Cell(if g.CellOf(item).row < first then first else last, g.CellOf(item).col);
    if g.ItemAt(cell) < g.n {
      CellHasItem(g, cell);
    }
  }

  /** From nowhere it comes to the first item of the first row in view. */
  lemma FromNowhere(g: Grid, drow: int, dcol: int, first: int, last: int)
    requires g.Valid() && g.n > 0 && 0 <= first < g.Rows()
    ensures g.Target(-1, drow, dcol, first, last) == Min(if g.vertical then first else first * g.columns, g.n - 1)
  {
  }

  /** The margin on both sides of a cell that a lasso must pass. */
  function Margin(step: int): int
    requires step > 0
  {
    Min(step / 4, 40)
  }

  /** A quarter of the cell on either side, in whole pixels, and never more than 40. */
  lemma MarginExactly(step: int)
    requires step > 0
    ensures 0 <= Margin(step) <= 40 && 4 * Margin(step) <= step
    ensures Margin(step) == 40 || 4 * Margin(step) > step - 4
  {
  }

  /** First cell and number of cells covered along one axis. */
  function GetRange(from_: int, to: int, step: int): (int, int)
    requires step > 0
  {
    var low, high := Min(from_, to), Max(from_, to);
    var first := Max(Quotient(low + Margin(step), step), 0);
    (first, Quotient(high + step - Margin(step), step) - first)
  }

  /** Some pixel of the dragged interval lies in cell i, margins off. */
  ghost predicate Meets(i: int, from_: int, to: int, step: int)
    requires step > 0
  {
    exists p :: InCell(i, p, step) && Min(from_, to) <= p <= Max(from_, to)
  }

  ghost predicate InCell(i: int, p: int, step: int)
    requires step > 0
  {
    i * step + Margin(step) <= p < (i + 1) * step - Margin(step)
  }

  /** Dividing towards zero, counts from 0 compare as they should. */
  lemma QuotientBound(a: int, d: int, i: nat)
    requires d > 0
    ensures i < Quotient(a, d) <==> (i + 1) * d <= a
    ensures Max(Quotient(a, d), 0) <= i <==> a < (i + 1) * d
  {
    Order(1, i + 1, d);
    if a >= 0 {
      DivisionBound(a, d, i + 1);
    } else {
      DivisionBound(-a, d, 0);
    }
  }

  lemma DivisionBound(a: nat, d: int, k: int)
    requires d > 0
    ensures k <= a / d <==> k * d <= a
  {
    var q := a / d;
    assert a == q * d + a % d;
    NextAndPrevious(q, d);
    Order(k, q, d);
    Order(q + 1, k, d);
  }

  lemma RangeExact(from_: int, to: int, step: int, i: nat)
    requires step > 0
    ensures var (first, count) := GetRange(from_, to, step);
            first >= 0 && (first <= i < first + count <==> Meets(i, from_, to, step))
  {
    var m, low, high := Margin(step), Min(from_, to), Max(from_, to);
    QuotientBound(low + m, step, i);
    QuotientBound(high + step - m, step, i);
    assert (i + 1) * step == i * step + step;
    var left := i * step + m;
    if left <= high && low < left + step - 2 * m {
      assert InCell(i, Max(left, low), step);
    }
  }

  datatype Area = Area(x: int, y: int, width: int, height: int) {
    predicate Contains(cell: Cell) {
      y <= cell.row < y + height && x <= cell.col < x + width
    }
  }

  /** The corners of the dragged box, in pixels. */
  datatype Box = Box(x0: int, y0: int, x1: int, y1: int) {
    function Width(): nat {
      if x0 > x1 then x0 - x1 else x1 - x0
    }

    function Height(): nat {
      if y0 > y1 then y0 - y1 else y1 - y0
    }
  }

  function FindLassoArea(box: Box, columns: nat, itemWidth: nat, itemHeight: nat): Area
    requires itemWidth > 0 && itemHeight > 0
  {
    if box.Width() < 8 && box.Height() < 8 then Area(0, 0, 0, 0)
    else
      var (x, w) := GetRange(box.x0, box.x1, itemWidth);
      var (y, h) := GetRange(box.y0, box.y1, itemHeight);
      var width := if x >= columns then 0 else if x + w > columns then columns - x else w;
      Area(x, y, width, h)
  }

  /** The lasso takes exactly the cells it meets on both axes, once it is 8 pixels long on one. */
  lemma LassoExact(box: Box, columns: nat, itemWidth: nat, itemHeight: nat, cell: Cell)
    requires itemWidth > 0 && itemHeight > 0 && cell.row >= 0 && 0 <= cell.col < columns
    ensures FindLassoArea(box, columns, itemWidth, itemHeight).Contains(cell) <==>
            && (box.Width() >= 8 || box.Height() >= 8)
            && Meets(cell.col, box.x0, box.x1, itemWidth)
            && Meets(cell.row, box.y0, box.y1, itemHeight)
  {
    RangeExact(box.x0, box.x1, itemWidth, cell.col);
    RangeExact(box.y0, box.y1, itemHeight, cell.row);
  }
}

/**
 * The grid window's cell array (`tui_window_grid_*`): `w * h` squares
 * stored row by row, each with a colour and a symbol, where a zero
 * colour channel or a NUL symbol means "not set".
 */
module Grid {
  import opened Base

  datatype Square = Square(color: Color, symbol: char)

  /** A zeroed square: no colour, no symbol. */
  const BLANK: Square := Square(Color(COLOR_NONE, COLOR_NONE), '\0')

  /** `tui_window_grid_square_get`: the row-major position of (x, y), when it lies in the grid. */
  function Index(size: Size, x: int, y: int): (r: Option<int>)
    requires size.w > 0 && size.h > 0
    ensures r.Some? <==> 0 <= x < size.w && 0 <= y < size.h
    ensures r.Some? ==> 0 <= r.value < size.w * size.h
  {
    if x >= 0 && x < size.w && y >= 0 && y < size.h then
      RowMajorBound(size, x, y);
      Some(y * size.w + x)
    else None
  }

  lemma RowMajorBound(size: Size, x: int, y: int)
    requires 0 <= x < size.w && 0 <= y < size.h
    ensures 0 <= y * size.w + x < size.w * size.h
  {
    assert y * size.w <= (size.h - 1) * size.w;
  }

  /** `d` whole rows are at least one row long. */
  lemma {:induction false} RowsAtLeast(d: int, w: int)
    requires w > 0
    ensures d >= 1 ==> d * w >= w
    decreases d
  {
    if d > 1 {
      RowsAtLeast(d - 1, w);
      assert d * w == (d - 1) * w + w;
    }
  }

  /** A square in an earlier row comes before every square of a later row. */
  lemma EarlierRow(w: int, x1: int, y1: int, x2: int, y2: int)
    requires w > 0 && 0 <= x1 < w && 0 <= x2 < w
    ensures y1 < y2 ==> y1 * w + x1 < y2 * w + x2
  {
    RowsAtLeast(y2 - y1, w);
    assert (y2 - y1) * w == y2 * w - y1 * w;
  }

  /** Distinct squares of the grid have distinct positions. */
  lemma IndexInjective(size: Size, x1: int, y1: int, x2: int, y2: int)
    requires size.w > 0 && size.h > 0 && Index(size, x1, y1).Some? && Index(size, x2, y2).Some?
    requires Index(size, x1, y1) == Index(size, x2, y2)
    ensures x1 == x2 && y1 == y2
  {
    EarlierRow(size.w, x1, y1, x2, y2);
    EarlierRow(size.w, x2, y2, x1, y1);
  }

  /** Every slot of the grid is the position of a square: (i mod w, i div w). */
  lemma IndexOnto(size: Size, i: int)
    requires size.w > 0 && size.h > 0 && 0 <= i < size.w * size.h
    ensures Index(size, i % size.w, i / size.w) == Some(i)
  {
    var x, y := i % size.w, i / size.w;
    assert y * size.w + x == i;
    EarlierRow(size.w, size.w - 1, size.h - 1, x, y);
    assert (size.h - 1) * size.w + size.w == size.w * size.h;
  }

  /**
   * `tui_window_grid_square_modify` on one square: each of foreground,
   * background and symbol is replaced only when the new square sets it.
   */
  function Merge(old_: Square, new_: Square): Square
  {
    var fg := if new_.color.fg != COLOR_NONE then new_.color.fg else old_.color.fg;
    var bg := if new_.color.bg != COLOR_NONE then new_.color.bg else old_.color.bg;
    var symbol := if new_.symbol != '\0' then new_.symbol else old_.symbol;
    Square(Color(fg, bg), symbol)
  }

  /** Modifying twice with the same square is modifying once. */
  lemma MergeIdempotent(s: Square, t: Square)
    ensures Merge(Merge(s, t), t) == Merge(s, t)
  {
  }

  /** A square that sets every part replaces the old one, as `tui_window_grid_square_set` does. */
  lemma MergeFull(s: Square, t: Square)
    requires IsOpaque(t.color) && t.symbol != '\0'
    ensures Merge(s, t) == t
  {
  }

  /** A blank square changes nothing. */
  lemma MergeBlank(s: Square)
    ensures Merge(s, BLANK) == s
  {
  }

  /** The grid part of `tui_window_grid_t`: the requested size, the allocated size and the squares. */
  class Cells {
    var size: Size
    var gridSize: Size
    var grid: array<Square>

    ghost predicate Valid()
      reads this
    {
      gridSize.w > 0 && gridSize.h > 0 && grid.Length == gridSize.w * gridSize.h
    }

    /** The successful part of `_tui_window_grid_create`: a blank grid of the configured size. */
    constructor (size: Size)
      requires size.w > 0 && size.h > 0
      ensures Valid() && this.size == size && gridSize == size
      ensures forall i :: 0 <= i < grid.Length ==> grid[i] == BLANK
    {
      this.size := size;
      gridSize := size;
      grid := new Square[size.w * size.h](_ => BLANK);
    }

    /** `tui_window_grid_resize`: 1 for a non-positive size, else a fresh blank grid of that size and 0. */
    method Resize(size: Size) returns (code: int)
      requires Valid()
      modifies this
      ensures Valid() && this.size == old(this.size)
      ensures code == 0 || code == 1
      ensures code == 1 <==> size.w <= 0 || size.h <= 0
      ensures code == 1 ==> gridSize == old(gridSize) && grid == old(grid)
      ensures code == 0 ==> gridSize == size && fresh(grid)
      ensures code == 0 ==> forall i :: 0 <= i < grid.Length ==> grid[i] == BLANK
    {
      if size.w <= 0 || size.h <= 0 {
        return 1;
      }
      var squareCount := size.w * size.h;
      grid := new Square[squareCount](_ => BLANK);
      gridSize := size;
      return 0;
    }

    /** `tui_window_grid_square_set`: replaces the square at (x, y) when it lies in the grid. */
    method SquareSet(x: int, y: int, square: Square)
      requires Valid()
      modifies grid
      ensures Valid()
      ensures Index(gridSize, x, y).None? ==> grid[..] == old(grid[..])
      ensures Index(gridSize, x, y).Some? ==> grid[..] == old(grid[..])[Index(gridSize, x, y).value := square]
    {
      var index := Index(gridSize, x, y);
      if index.Some? {
        grid[index.value] := square;
      }
    }

    /** `tui_window_grid_square_modify`: merges the given square into the one at (x, y). */
    method SquareModify(x: int, y: int, square: Square)
      requires Valid()
      modifies grid
      ensures Valid()
      ensures Index(gridSize, x, y).None? ==> grid[..] == old(grid[..])
      ensures Index(gridSize, x, y).Some? ==>
        var i := Index(gridSize, x, y).value;
        grid[..] == old(grid[..])[i := Merge(old(grid[i]), square)]
    {
      var index := Index(gridSize, x, y);
      if index.Some? {
        var old_ := grid[index.value];
        var fg := old_.color.fg;
        var bg := old_.color.bg;
        var symbol := old_.symbol;
        if square.color.fg != COLOR_NONE {
          fg := square.color.fg;
        }
        if square.color.bg != COLOR_NONE {
          bg := square.color.bg;
        }
        if square.symbol != '\0' {
          symbol := square.symbol;
        }
        grid[index.value] := Square(Color(fg, bg), symbol);
      }
    }
  }

  /** `_tui_window_grid_create`'s grid: none (NULL) when the configured size is not positive. */
  method Create(size: Size) returns (cells: Cells?)
    ensures cells == null <==> size.w <= 0 || size.h <= 0
    ensures cells != null ==> fresh(cells) && cells.Valid() && cells.size == size && cells.gridSize == size
    ensures cells != null ==> forall i :: 0 <= i < cells.grid.Length ==> cells.grid[i] == BLANK
  {
    if size.w <= 0 || size.h <= 0 {
      return null;
    }
    cells := new Cells(size);
  }
}

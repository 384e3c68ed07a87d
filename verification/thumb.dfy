/** Placement of sticker thumbnails on the square preview image of a set. */
module Thumb {
  import opened Wrappers

  const MAX_GRID: nat := 3

  function Min(a: nat, b: nat): nat { if a < b then a else b }

  /** `get_grid_size`: the side of the smallest square grid (at most 3 × 3)
      that holds the stickers; no grid for no stickers. */
  function GetGridSize(stickerCount: nat): (r: Result<nat, string>)
    ensures r.Failure? <==> stickerCount == 0
    ensures r.Success? ==> 1 <= r.value <= MAX_GRID
    ensures r.Success? ==> r.value * r.value >= Min(stickerCount, MAX_GRID * MAX_GRID)
    ensures r.Success? ==> (r.value - 1) * (r.value - 1) < Min(stickerCount, MAX_GRID * MAX_GRID)
  {
    if stickerCount == 0 then Failure("no stickers")
    else if stickerCount == 1 then Success(1)
    else if stickerCount <= 4 then Success(2)
    else Success(3)
  }

  /** Only the first grid² stickers are drawn. */
  function DrawnCount(stickerCount: nat, grid: nat): (n: nat)
    ensures n <= grid * grid && n <= stickerCount
    ensures n == stickerCount || n == grid * grid
  {
    Min(stickerCount, grid * grid)
  }

  /** Side of one cell: the image side divided by the grid side, rounded down
      (`u32` division). */
  function ThumbSize(size: nat, grid: nat): nat
    requires grid > 0
  {
    size / grid
  }

  /** Top-left corner of the cell of the `i`-th drawn sticker: row-major,
      the row index as the first coordinate. */
  function CellTopLeft(i: nat, grid: nat, size: nat): (nat, nat)
    requires grid > 0
  {
    ((i / grid) * ThumbSize(size, grid), (i % grid) * ThumbSize(size, grid))
  }

  lemma MulMono(a: nat, b: nat, c: nat)
    requires a <= b
    ensures a * c <= b * c
  {
  }

  /** Every drawn cell lies entirely inside the `size` × `size` image. */
  lemma CellInsideCanvas(i: nat, grid: nat, size: nat)
    requires grid > 0 && i < grid * grid
    ensures var (x, y) := CellTopLeft(i, grid, size);
      x + ThumbSize(size, grid) <= size && y + ThumbSize(size, grid) <= size
  {
    var t := ThumbSize(size, grid);
    var q, r := i / grid, i % grid;
    RowBelowGrid(i, grid);
    CellStep(q, grid, t);
    CellStep(r, grid, t);
    GridFits(size, grid);
  }

  /** The row of a drawn sticker is inside the grid. */
  lemma RowBelowGrid(i: nat, grid: nat)
    requires grid > 0 && i < grid * grid
    ensures i / grid < grid
  {
    assert i >= (i / grid) * grid;
    if i / grid >= grid {
      MulMono(grid, i / grid, grid);
    }
  }

  /** A cell that starts at a row or column below `grid` ends at most `grid`
      cells in. */
  lemma CellStep(k: nat, grid: nat, t: nat)
    requires k < grid
    ensures k * t + t <= grid * t
  {
    MulMono(k + 1, grid, t);
    assert (k + 1) * t == k * t + t;
  }

  /** `grid` cells of the rounded-down side fit in the image. */
  lemma GridFits(size: nat, grid: nat)
    requires grid > 0
    ensures grid * ThumbSize(size, grid) <= size
  {
    assert size == (size / grid) * grid + size % grid;
  }

  /** Distinct stickers get distinct cells (when cells are not empty): the
      cell determines the sticker's index. */
  lemma CellDeterminesIndex(i: nat, j: nat, grid: nat, size: nat)
    requires grid > 0 && size >= grid
    requires CellTopLeft(i, grid, size) == CellTopLeft(j, grid, size)
    ensures i == j
  {
    var t := ThumbSize(size, grid);
    assert t >= 1;
    MulCancel(i / grid, j / grid, t);
    MulCancel(i % grid, j % grid, t);
    assert i == (i / grid) * grid + i % grid;
    assert j == (j / grid) * grid + j % grid;
  }

  lemma MulStrict(a: nat, b: nat, t: nat)
    requires t > 0
    ensures a < b ==> a * t < b * t
  {
  }

  lemma MulCancel(a: nat, b: nat, t: nat)
    requires t > 0 && a * t == b * t
    ensures a == b
  {
    MulStrict(a, b, t);
    MulStrict(b, a, t);
  }
}

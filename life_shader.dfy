/** The Game of Life compute shader: `cellIndex`, `cellActive` and the body of
    `computeMain`, on a GRID_SIZE x GRID_SIZE grid of u32 cells whose edges wrap
    around (a torus). A grid is a sequence of CELL_COUNT cells stored row by row. */
module LifeShader {
  import opened U32

  /** Width and height of the grid; the shader reads it as `u32(grid.x)` and `u32(grid.y)`. */
  const GRID_SIZE: nat := 256

  const CELL_COUNT: nat := GRID_SIZE * GRID_SIZE

  predicate IsGrid(cells: seq<u32>)
  {
    |cells| == CELL_COUNT
  }

  /** Every cell is dead (0) or alive (1). */
  predicate IsBinary(cells: seq<u32>)
  {
    forall i :: 0 <= i < |cells| ==> cells[i] <= 1
  }

  /** `cellIndex`: the position of cell (x, y) in the buffer, both coordinates
      reduced modulo the grid size. The column is the remainder and the row the
      quotient of the index, so the index is always in bounds. */
  function CellIndex(x: u32, y: u32): (i: u32)
    ensures i < CELL_COUNT
    ensures i % GRID_SIZE == x % GRID_SIZE && i / GRID_SIZE == y % GRID_SIZE
  {
    Add(Mul(y % GRID_SIZE, GRID_SIZE), x % GRID_SIZE)
  }

  /** `cellActive`: the input cell at (x, y), both coordinates wrapped onto the torus. */
  function CellActive(cells: seq<u32>, x: u32, y: u32): (v: u32)
    requires IsGrid(cells)
    ensures v == cells[TorusIndex(x, y)]
  {
    cells[CellIndex(x, y)]
  }

  /** The `activeNeighbors` sum of `computeMain`, in the shader's order, with its
      u32 coordinate arithmetic (x - 1 at x = 0 wraps to 2^32 - 1) and its u32 sum. */
  function Neighbours(cells: seq<u32>, x: u32, y: u32): (n: u32)
    requires IsGrid(cells)
    ensures IsBinary(cells) ==> n <= 8
  {
    var right, left, up, down := Add(x, 1), Sub(x, 1), Add(y, 1), Sub(y, 1);
    Add(Add(Add(Add(Add(Add(Add(
      CellActive(cells, right, up),
      CellActive(cells, right, y)),
      CellActive(cells, right, down)),
      CellActive(cells, x, down)),
      CellActive(cells, left, down)),
      CellActive(cells, left, y)),
      CellActive(cells, left, up)),
      CellActive(cells, x, up))
  }

  /** The `switch activeNeighbors` of `computeMain`: the new value of a cell. */
  function Rule(cell: u32, neighbours: u32): (next: u32)
    ensures cell <= 1 ==> next <= 1
    ensures next != 0 ==> neighbours == 2 || neighbours == 3
  {
    if neighbours == 2 then cell
    else if neighbours == 3 then 1
    else 0
  }

  /** The value the invocation for the cell at position i writes. On a
      dead-or-alive grid this is Conway's rule B3/S23 on the torus. */
  function NextCell(cells: seq<u32>, i: nat): (next: u32)
    requires IsGrid(cells) && i < CELL_COUNT
    ensures IsBinary(cells) ==>
              var n := LiveNeighbours(cells, i % GRID_SIZE, i / GRID_SIZE);
              next == if n == 3 || (n == 2 && cells[i] == 1) then 1 else 0
  {
    var col, row := i % GRID_SIZE, i / GRID_SIZE;
    assert row * GRID_SIZE + col == i && row < GRID_SIZE;
    if IsBinary(cells) then
      RuleCountsTorus(cells, col, row);
      Rule(cells[i], Neighbours(cells, col, row))
    else
      Rule(cells[i], Neighbours(cells, col, row))
  }

  /** The proof step of NextCell: on a dead-or-alive grid the switch, fed the
      shader's neighbour sum for the cell at (col, row), applies B3/S23 to its
      torus neighbour count. */
  lemma RuleCountsTorus(cells: seq<u32>, col: u32, row: u32)
    requires IsGrid(cells) && IsBinary(cells) && col < GRID_SIZE && row < GRID_SIZE
    ensures var n := LiveNeighbours(cells, col, row);
            var cell := cells[row * GRID_SIZE + col];
            Rule(cell, Neighbours(cells, col, row)) ==
              if n == 3 || (n == 2 && cell == 1) then 1 else 0
  {
    NeighboursCountTorus(cells, col, row);
    LiveNeighboursOfReduced(cells, col, row);
  }

  /** A column and row already inside the grid are their own residues. */
  lemma LiveNeighboursOfReduced(cells: seq<u32>, col: u32, row: u32)
    requires IsGrid(cells) && col < GRID_SIZE && row < GRID_SIZE
    ensures LiveNeighbours(cells, col % GRID_SIZE, row % GRID_SIZE) == LiveNeighbours(cells, col, row)
  {
    assert col % GRID_SIZE == col && row % GRID_SIZE == row;
  }

  /** The output buffer after every invocation of `computeMain` has run once:
      the invocation for (x, y) writes cell `CellIndex(x, y)`. */
  function NextGeneration(cells: seq<u32>): (next: seq<u32>)
    requires IsGrid(cells)
    ensures IsGrid(next)
    ensures IsBinary(cells) ==> IsBinary(next)
  {
    seq(CELL_COUNT, i requires 0 <= i < CELL_COUNT => NextCell(cells, i))
  }

  // ---------------------------------------------------------------------
  // Reference definition: the torus, with signed integer coordinates.

  /** Position of the cell at column `col`, row `row`, each taken modulo the grid size. */
  function TorusIndex(col: int, row: int): (i: nat)
    ensures i < CELL_COUNT
  {
    (row % GRID_SIZE) * GRID_SIZE + col % GRID_SIZE
  }

  /** The eight (dx, dy) offsets around a cell, in the order the shader adds them. */
  const NEIGHBOUR_OFFSETS: seq<(int, int)> :=
    [(1, 1), (1, 0), (1, -1), (0, -1), (-1, -1), (-1, 0), (-1, 1), (0, 1)]

  /** Position of the k-th of the eight torus neighbours of (col, row). */
  function NeighbourIndex(col: int, row: int, k: nat): nat
    requires k < |NEIGHBOUR_OFFSETS|
  {
    TorusIndex(col + NEIGHBOUR_OFFSETS[k].0, row + NEIGHBOUR_OFFSETS[k].1)
  }

  /** Sum of the first k torus neighbours of (col, row). */
  function LiveAmong(cells: seq<u32>, col: int, row: int, k: nat): nat
    requires IsGrid(cells) && k <= |NEIGHBOUR_OFFSETS|
  {
    if k == 0 then 0 else LiveAmong(cells, col, row, k - 1) + cells[NeighbourIndex(col, row, k - 1)]
  }

  /** Number of live cells among the eight torus neighbours of (col, row). */
  function LiveNeighbours(cells: seq<u32>, col: int, row: int): nat
    requires IsGrid(cells)
  {
    LiveAmong(cells, col, row, |NEIGHBOUR_OFFSETS|)
  }

  // ---------------------------------------------------------------------
  // Lemmas

  /** With dead-or-alive cells, a sum of k neighbours is at most k. */
  lemma {:induction false} LiveAmongBound(cells: seq<u32>, col: int, row: int, k: nat)
    requires IsGrid(cells) && IsBinary(cells) && k <= |NEIGHBOUR_OFFSETS|
    ensures LiveAmong(cells, col, row, k) <= k
  {
    if k > 0 {
      LiveAmongBound(cells, col, row, k - 1);
    }
  }

  /** Stepping one cell left or right with u32 wrap-around lands on the
      neighbouring column modulo the grid size; this holds because the grid
      size 256 divides 2^32. */
  lemma WrappedStep(x: u32)
    ensures Add(x, 1) % GRID_SIZE == (x % GRID_SIZE + 1) % GRID_SIZE
    ensures Sub(x, 1) % GRID_SIZE == (x % GRID_SIZE + GRID_SIZE - 1) % GRID_SIZE
  {
  }

  /** `cellIndex` depends only on the coordinates modulo the grid size, and agrees
      with the torus position. */
  lemma CellIndexIsTorusIndex(x: u32, y: u32)
    ensures CellIndex(x, y) == TorusIndex(x, y)
    ensures CellIndex(x, y) == CellIndex(x % GRID_SIZE, y % GRID_SIZE)
  {
  }

  /** Coordinate `v` moved by `d` in -1..1 the way the shader does it: `v + 1`,
      `v` or `v - 1` in u32 arithmetic. */
  function Shift(v: u32, d: int): u32
  {
    if d == 1 then Add(v, 1) else if d == -1 then Sub(v, 1) else v
  }

  /** A shifted coordinate, taken modulo the grid size, is the shifted column modulo the grid size. */
  lemma ShiftMod(v: u32, d: int)
    requires -1 <= d <= 1
    ensures Shift(v, d) % GRID_SIZE == (v % GRID_SIZE + d) % GRID_SIZE
  {
    WrappedStep(v);
  }

  /** The cell the shader reads for the k-th offset is the k-th torus neighbour. */
  lemma ShiftedCellIsNeighbour(cells: seq<u32>, x: u32, y: u32, k: nat)
    requires IsGrid(cells) && k < |NEIGHBOUR_OFFSETS|
    ensures CellActive(cells, Shift(x, NEIGHBOUR_OFFSETS[k].0), Shift(y, NEIGHBOUR_OFFSETS[k].1))
            == cells[NeighbourIndex(x % GRID_SIZE, y % GRID_SIZE, k)]
  {
    var (dx, dy) := NEIGHBOUR_OFFSETS[k];
    var sx, sy := Shift(x, dx), Shift(y, dy);
    ShiftMod(x, dx);
    ShiftMod(y, dy);
    CellIndexIsTorusIndex(sx, sy);
    calc {
      CellIndex(sx, sy);
      TorusIndex(sx, sy);
      (sy % GRID_SIZE) * GRID_SIZE + sx % GRID_SIZE;
      TorusIndex(x % GRID_SIZE + dx, y % GRID_SIZE + dy);
    }
  }

  /** With dead-or-alive cells the shader's neighbour sum counts exactly the live
      cells among the eight torus neighbours of (x, y), so it lies in 0..8. */
  lemma NeighboursCountTorus(cells: seq<u32>, x: u32, y: u32)
    requires IsGrid(cells) && IsBinary(cells)
    ensures Neighbours(cells, x, y) == LiveNeighbours(cells, x % GRID_SIZE, y % GRID_SIZE)
    ensures Neighbours(cells, x, y) <= 8
  {
    var col, row := x % GRID_SIZE, y % GRID_SIZE;
    var right, left, up, down := Add(x, 1), Sub(x, 1), Add(y, 1), Sub(y, 1);
    ShiftedCellIsNeighbour(cells, x, y, 0);
    ShiftedCellIsNeighbour(cells, x, y, 1);
    ShiftedCellIsNeighbour(cells, x, y, 2);
    ShiftedCellIsNeighbour(cells, x, y, 3);
    ShiftedCellIsNeighbour(cells, x, y, 4);
    ShiftedCellIsNeighbour(cells, x, y, 5);
    ShiftedCellIsNeighbour(cells, x, y, 6);
    ShiftedCellIsNeighbour(cells, x, y, 7);
    var s1 := CellActive(cells, right, up);
    var s2 := Add(s1, CellActive(cells, right, y));
    var s3 := Add(s2, CellActive(cells, right, down));
    var s4 := Add(s3, CellActive(cells, x, down));
    var s5 := Add(s4, CellActive(cells, left, down));
    var s6 := Add(s5, CellActive(cells, left, y));
    var s7 := Add(s6, CellActive(cells, left, up));
    var s8 := Add(s7, CellActive(cells, x, up));
    assert s1 == LiveAmong(cells, col, row, 1);
    assert s2 == LiveAmong(cells, col, row, 2);
    assert s3 == LiveAmong(cells, col, row, 3);
    assert s4 == LiveAmong(cells, col, row, 4);
    assert s5 == LiveAmong(cells, col, row, 5);
    assert s6 == LiveAmong(cells, col, row, 6);
    assert s7 == LiveAmong(cells, col, row, 7);
    assert s8 == LiveAmong(cells, col, row, 8);
    LiveAmongBound(cells, col, row, 8);
  }

  /** The shader's neighbour sum only depends on where (x, y) lies on the torus,
      whatever the cell values. */
  lemma NeighboursPeriodic(cells: seq<u32>, x: u32, y: u32)
    requires IsGrid(cells)
    ensures Neighbours(cells, x, y) == Neighbours(cells, x % GRID_SIZE, y % GRID_SIZE)
  {
    var x0, y0 := x % GRID_SIZE, y % GRID_SIZE;
    WrappedStep(x);
    WrappedStep(y);
    WrappedStep(x0);
    WrappedStep(y0);
    CellIndexIsTorusIndex(Add(x, 1), Add(y, 1));
    CellIndexIsTorusIndex(Add(x0, 1), Add(y0, 1));
    CellIndexIsTorusIndex(Add(x, 1), y);
    CellIndexIsTorusIndex(Add(x0, 1), y0);
    CellIndexIsTorusIndex(Add(x, 1), Sub(y, 1));
    CellIndexIsTorusIndex(Add(x0, 1), Sub(y0, 1));
    CellIndexIsTorusIndex(x, Sub(y, 1));
    CellIndexIsTorusIndex(x0, Sub(y0, 1));
    CellIndexIsTorusIndex(Sub(x, 1), Sub(y, 1));
    CellIndexIsTorusIndex(Sub(x0, 1), Sub(y0, 1));
    CellIndexIsTorusIndex(Sub(x, 1), y);
    CellIndexIsTorusIndex(Sub(x0, 1), y0);
    CellIndexIsTorusIndex(Sub(x, 1), Add(y, 1));
    CellIndexIsTorusIndex(Sub(x0, 1), Add(y0, 1));
    CellIndexIsTorusIndex(x, Add(y, 1));
    CellIndexIsTorusIndex(x0, Add(y0, 1));
  }

  /** The eight neighbours of a cell are eight different cells, none of them the cell itself. */
  lemma NeighboursDistinct(col: nat, row: nat, j: nat, k: nat)
    requires col < GRID_SIZE && row < GRID_SIZE
    requires j < |NEIGHBOUR_OFFSETS| && k < |NEIGHBOUR_OFFSETS|
    ensures NeighbourIndex(col, row, k) != TorusIndex(col, row)
    ensures j != k ==> NeighbourIndex(col, row, j) != NeighbourIndex(col, row, k)
  {
  }

  /** Conway's rule B3/S23: on a dead-or-alive grid, a cell of the next generation
      is alive exactly when it has three live torus neighbours, or two and was
      alive; it is dead otherwise. */
  lemma ConwayRule(cells: seq<u32>, x: u32, y: u32)
    requires IsGrid(cells) && IsBinary(cells)
    ensures var n := LiveNeighbours(cells, x % GRID_SIZE, y % GRID_SIZE);
            NextGeneration(cells)[CellIndex(x, y)] ==
              if n == 3 || (n == 2 && cells[CellIndex(x, y)] == 1) then 1 else 0
  {
    var i := CellIndex(x, y);
    var col, row := i % GRID_SIZE, i / GRID_SIZE;
    assert col == x % GRID_SIZE && row == y % GRID_SIZE;
    assert col % GRID_SIZE == col && row % GRID_SIZE == row;
    NeighboursCountTorus(cells, col, row);
    var n := LiveNeighbours(cells, col, row);
    assert NextGeneration(cells)[i] == Rule(cells[i], n);
  }
}

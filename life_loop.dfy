/** The TypeScript host of the Game of Life: the seeding loop, the compute
    dispatch, the two bind groups that swap the two cell-state storage buffers,
    and `updateGrid`, which runs one simulation step and draws the result. */
module LifeLoop {
  import opened U32
  import opened LifeShader

  /** Threads per workgroup along each axis (`@workgroup_size(8, 8)`). */
  const WORKGROUP_SIZE: nat := 8

  /** `Math.ceil(extent / size)`: the fewest workgroups of `size` threads that
      cover `extent` cells. */
  function WorkgroupCount(extent: nat, size: nat): (count: nat)
    requires size > 0
    ensures count * size >= extent
    ensures count > 0 ==> (count - 1) * size < extent
  {
    var q := extent / size;
    assert q * size + extent % size == extent;
    if extent % size == 0 then q else q + 1
  }

  /** Invocation ids run from 0 to this bound along each axis of the dispatch. */
  function DispatchExtent(): (extent: nat)
    ensures extent == GRID_SIZE
  {
    WorkgroupCount(GRID_SIZE, WORKGROUP_SIZE) * WORKGROUP_SIZE
  }

  /** One invocation of `computeMain` for the invocation id (x, y): it reads only
      `cellStateIn` and writes the one cell `CellIndex(x, y)` of `cellStateOut`. */
  method ComputeMain(cellStateIn: array<u32>, cellStateOut: array<u32>, x: u32, y: u32)
    requires cellStateIn != cellStateOut
    requires cellStateIn.Length == CELL_COUNT && cellStateOut.Length == CELL_COUNT
    modifies cellStateOut
    ensures cellStateOut[..] ==
      old(cellStateOut[..])[CellIndex(x, y) := NextGeneration(cellStateIn[..])[CellIndex(x, y)]]
    ensures cellStateIn[..] == old(cellStateIn[..])
  {
    var activeNeighbors := Neighbours(cellStateIn[..], x, y);
    var i := CellIndex(x, y);
    if activeNeighbors == 2 {
      cellStateOut[i] := cellStateIn[i];
    } else if activeNeighbors == 3 {
      cellStateOut[i] := 1;
    } else {
      cellStateOut[i] := 0;
    }
    NeighboursPeriodic(cellStateIn[..], x, y);
    assert i % GRID_SIZE == x % GRID_SIZE && i / GRID_SIZE == y % GRID_SIZE;
  }

  /** The compute pass: every invocation of the dispatch grid, one after the
      other. Each writes a different output cell and none reads the output, so
      this order gives what the parallel dispatch gives. */
  method SimulationPass(cellStateIn: array<u32>, cellStateOut: array<u32>)
    requires cellStateIn != cellStateOut
    requires cellStateIn.Length == CELL_COUNT && cellStateOut.Length == CELL_COUNT
    modifies cellStateOut
    ensures cellStateOut[..] == NextGeneration(cellStateIn[..])
    ensures cellStateIn[..] == old(cellStateIn[..])
  {
    var extent := DispatchExtent();
    ghost var next := NextGeneration(cellStateIn[..]);
    var y: u32 := 0;
    while y < extent
      invariant y <= extent
      invariant forall i :: 0 <= i < y * GRID_SIZE ==> cellStateOut[i] == next[i]
    {
      var x: u32 := 0;
      while x < extent
        invariant x <= extent
        invariant forall i :: 0 <= i < y * GRID_SIZE + x ==> cellStateOut[i] == next[i]
      {
        assert CellIndex(x, y) == y * GRID_SIZE + x;
        ComputeMain(cellStateIn, cellStateOut, x, y);
        x := x + 1;
      }
      y := y + 1;
    }
  }

  // ---------------------------------------------------------------------
  // Seeding

  /** Iterations of the seeding loop `for (i = 0; i < length; i += 3)`; the loop
      draws one random value per iteration. */
  const SEED_COUNT: nat := (CELL_COUNT + 2) / 3

  /** `cells` is the seeded grid: a cell whose index is a multiple of 3 is alive
      when its random draw came out true; every other cell is dead. */
  predicate SeededFrom(cells: seq<u32>, coins: seq<bool>)
    requires |coins| == SEED_COUNT
  {
    |cells| == CELL_COUNT &&
    forall i :: 0 <= i < CELL_COUNT ==>
      cells[i] == if i % 3 == 0 && coins[i / 3] then 1 else 0
  }

  /** The seeding loop over a fresh, zeroed `Uint32Array`; `coins[k]` stands for
      the outcome of `Math.random() > 0.1` in the k-th iteration. */
  method InitialCells(coins: seq<bool>) returns (cells: seq<u32>)
    requires |coins| == SEED_COUNT
    ensures SeededFrom(cells, coins)
    ensures IsGrid(cells) && IsBinary(cells)
    ensures forall i :: 0 <= i < |cells| && i % 3 != 0 ==> cells[i] == 0
  {
    var cellStateArray := new u32[CELL_COUNT](_ => 0);
    var i := 0;
    while i < CELL_COUNT
      invariant i % 3 == 0 && i <= CELL_COUNT + 2
      invariant forall j :: 0 <= j < CELL_COUNT ==>
        cellStateArray[j] == if j % 3 == 0 && j < i && coins[j / 3] then 1 else 0
    {
      cellStateArray[i] := if coins[i / 3] then 1 else 0;
      i := i + 3;
    }
    cells := cellStateArray[..];
  }

  // ---------------------------------------------------------------------
  // Bind groups and the frame

  /** A bind group's storage bindings: binding 1 reads `cellStateStorage[input]`,
      binding 2 writes `cellStateStorage[output]`. (Binding 0, the grid uniform,
      is the same in both groups.) */
  datatype BindGroup = BindGroup(input: nat, output: nat)

  /** Groups A and B: group k reads buffer k and writes the other buffer. */
  function BindGroups(): (groups: seq<BindGroup>)
    ensures |groups| == 2
    ensures forall k :: 0 <= k < 2 ==> groups[k].input == k && groups[k].output == 1 - k
  {
    [BindGroup(0, 1), BindGroup(1, 0)]
  }

  /** Successive steps alternate: the buffer step s writes is the one step s + 1
      reads, and the two steps write different buffers. */
  lemma PingPong(s: nat)
    ensures BindGroups()[s % 2].output == BindGroups()[(s + 1) % 2].input
    ensures BindGroups()[s % 2].output != BindGroups()[(s + 1) % 2].output
    ensures BindGroups()[s % 2].input != BindGroups()[s % 2].output
  {
  }

  /** Square vertices of the cell mesh: 12 floats, two per vertex. */
  const CELL_VERTEX_FLOATS: nat := 12

  /** What one `updateGrid` records: the bind group and workgroup grid of the
      compute pass, then the bind group and the counts of the draw. */
  datatype FrameCommands = FrameCommands(
    computeGroup: nat, workgroupsX: nat, workgroupsY: nat,
    renderGroup: nat, vertexCount: nat, instanceCount: nat)

  /** The simulation state `updateGrid` works on: the two storage buffers
      `cellStateStorage[0]` and `cellStateStorage[1]`, and the step counter. */
  class Simulation {
    var cellStateA: array<u32>
    var cellStateB: array<u32>
    var step: nat

    ghost predicate Valid()
      reads this
    {
      cellStateA != cellStateB &&
      cellStateA.Length == CELL_COUNT && cellStateB.Length == CELL_COUNT
    }

    /** `cellStateStorage[k]`. */
    function Storage(k: nat): array<u32>
      requires k < 2
      reads this
    {
      if k == 0 then cellStateA else cellStateB
    }

    /** The generation the render pass shows: the buffer at binding 1 of group `step % 2`. */
    function Displayed(): seq<u32>
      requires Valid()
      reads this, cellStateA, cellStateB
    {
      Storage(BindGroups()[step % 2].input)[..]
    }

    /** Seeding: both storage buffers receive the same seeded grid, and no step has run. */
    constructor (coins: seq<bool>)
      requires |coins| == SEED_COUNT
      ensures Valid() && fresh(cellStateA) && fresh(cellStateB)
      ensures step == 0
      ensures Storage(0)[..] == Storage(1)[..]
      ensures SeededFrom(Storage(0)[..], coins) && IsBinary(Displayed())
    {
      var cells := InitialCells(coins);
      cellStateA := new u32[CELL_COUNT](i requires 0 <= i < CELL_COUNT => cells[i]);
      cellStateB := new u32[CELL_COUNT](i requires 0 <= i < CELL_COUNT => cells[i]);
      step := 0;
      new;
      assert cellStateA[..] == cells;
      assert cellStateB[..] == cells;
    }

    /** `updateGrid`: the compute pass with group `step % 2` writes the next
        generation of the displayed grid into the other buffer and leaves its
        input alone; `step` goes up by one; the render pass then binds group
        `step % 2`, whose binding 1 is the buffer just written. */
    method UpdateGrid() returns (frame: FrameCommands)
      requires Valid()
      modifies Storage(BindGroups()[step % 2].output), this`step
      ensures Valid() && step == old(step) + 1
      ensures cellStateA == old(cellStateA) && cellStateB == old(cellStateB)
      ensures frame.computeGroup == old(step) % 2 && frame.renderGroup == step % 2
      ensures BindGroups()[frame.renderGroup].input == BindGroups()[frame.computeGroup].output
      ensures Displayed() == NextGeneration(old(Displayed()))
      ensures Storage(BindGroups()[frame.computeGroup].input)[..] == old(Displayed())
      ensures frame.workgroupsX * WORKGROUP_SIZE == GRID_SIZE && frame.workgroupsY == frame.workgroupsX
      ensures frame.vertexCount == 6 && frame.instanceCount == CELL_COUNT
    {
      var computeGroup := step % 2;
      var group := BindGroups()[computeGroup];
      var workgroupCount := WorkgroupCount(GRID_SIZE, WORKGROUP_SIZE);
      SimulationPass(Storage(group.input), Storage(group.output));
      step := step + 1;
      PingPong(step - 1);
      frame := FrameCommands(computeGroup, workgroupCount, workgroupCount,
                             step % 2, CELL_VERTEX_FLOATS / 2, GRID_SIZE * GRID_SIZE);
    }
  }
}

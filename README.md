# WebGPU grass and Game of Life: a Dafny model

This project models the two WebGPU demos of the `webgpu-grass` repository.

**Game of Life (`src/GOL.tsx`).** A compute shader runs Conway's Game of Life on a
256 x 256 grid of `u32` cells whose edges wrap around (a torus). The TypeScript host
sets up several things. It seeds every third cell at random. It keeps two cell-state
storage buffers and two bind groups that swap which buffer is read and which is
written. Each frame it dispatches 32 x 32 workgroups of 8 x 8 threads, increments a
step counter and draws one square instance per cell. The model covers:
- the shader functions `cellIndex`, `cellActive` and `computeMain`, using WGSL's
  wrap-around `u32` arithmetic (module `U32`, module `LifeShader`);
- the seeding loop, the dispatch, the bind groups and `updateGrid`, as a class that
  owns the two buffers and `step` (module `LifeLoop`).

**Grass (`src/Grass.tsx`).** The blade mesh is a constant table of 5 vertices, each
with 3 position floats and 3 colour floats. A vertex buffer layout with a 24-byte
stride describes it, and 18 indices make 6 triangles. Each frame `updateGrid`
increments `step`, writes it into the one-float `time` uniform and issues one indexed
draw (module `Grass`).

The central results are:
- `LifeShader.ConwayRule`: on a grid of 0/1 cells, a cell of the next generation is
  alive exactly when it has three live torus neighbours, or two live torus neighbours
  and was alive (B3/S23).
- `LifeShader.NeighboursCountTorus`: the shader's u32 neighbour sum counts exactly the
  eight wrapped neighbours, even though `x - 1` at `x = 0` wraps to 2^32 - 1.
- `LifeLoop.Simulation.UpdateGrid`: after each frame, the buffer the render pass reads
  holds the next generation of the buffer it read before the frame.

## Model

| member | source | states |
|---|---|---|
| U32.Add | src/GOL.tsx:152-159 | u32 `+` gives the sum, less 2^32 when the sum overflows |
| U32.Sub | src/GOL.tsx:154-158 | u32 `-` gives the difference, plus 2^32 when it underflows (`0 - 1` is 2^32 - 1) |
| U32.Mul | src/GOL.tsx:141 | u32 `*` is exact whenever the product fits in 32 bits |
| LifeShader.CellIndex | src/GOL.tsx:140-142 | `cellIndex(x, y)` is below 256*256; its remainder by 256 is `x mod 256` and its quotient is `y mod 256`, so every read and write is in bounds and no u32 overflow happens |
| LifeShader.CellActive | src/GOL.tsx:144-146 | `cellActive(x, y)` reads the input cell at the torus position of (x, y), wrapping both coordinates modulo 256 |
| LifeShader.Neighbours | src/GOL.tsx:152-159 | with 0/1 cells the u32 `activeNeighbors` sum of eight `cellActive` reads never exceeds 8, so it cannot wrap (its exact meaning is `NeighboursCountTorus`) |
| LifeShader.NextCell | src/GOL.tsx:160-171 | with 0/1 cells the value the invocation for position i writes is 1 exactly when the cell has 3 live torus neighbours, or 2 live torus neighbours and is live itself, and 0 otherwise |
| LifeShader.Rule | src/GOL.tsx:161-171 | the switch keeps a 0/1 cell 0/1, and it only yields a non-zero value for 2 or 3 neighbours |
| LifeShader.NextGeneration | src/GOL.tsx:148-173 | the output of a full pass has one cell per grid cell, and a 0/1 input gives a 0/1 output |
| LifeShader.LiveAmongBound | src/GOL.tsx:152-159 | with 0/1 cells a sum of k neighbour cells is at most k |
| LifeShader.WrappedStep | src/GOL.tsx:154-158 | `x + 1` and `x - 1` in u32, taken mod 256, are the next and previous column mod 256 (256 divides 2^32) |
| LifeShader.CellIndexIsTorusIndex | src/GOL.tsx:140-142 | `cellIndex` equals the torus position of (x, y) and depends only on x and y mod 256 |
| LifeShader.ShiftedCellIsNeighbour | src/GOL.tsx:144-159 | each of the eight `cellActive` reads of `computeMain` returns the matching torus neighbour |
| LifeShader.NeighboursCountTorus | src/GOL.tsx:152-159 | with 0/1 cells, `activeNeighbors` is the number of live cells among the eight torus neighbours, so it lies in 0..8 |
| LifeShader.NeighboursPeriodic | src/GOL.tsx:152-159 | for any cell values, the neighbour sum at (x, y) equals the sum at (x mod 256, y mod 256) |
| LifeShader.NeighboursDistinct | src/GOL.tsx:152-159 | the eight neighbours summed are eight different cells, and none of them is the cell itself |
| LifeShader.ConwayRule | src/GOL.tsx:150-171 | B3/S23: the next value is 1 when there are 3 live neighbours, or 2 live neighbours and the cell was live, and 0 otherwise |
| LifeLoop.WorkgroupCount | src/GOL.tsx:292 | `Math.ceil(n / size)` gives the fewest workgroups whose threads cover n cells |
| LifeLoop.DispatchExtent | src/GOL.tsx:292-293 | the dispatch covers exactly the 256 columns and 256 rows: ceil(256/8)*8 = 256 |
| LifeLoop.ComputeMain | src/GOL.tsx:150-172 | one invocation changes only output cell `cellIndex(x, y)`, sets it to that cell of the next generation, and leaves the input buffer unchanged |
| LifeLoop.SimulationPass | src/GOL.tsx:289-294 | running every invocation of the dispatch leaves the output buffer holding the next generation of the input buffer |
| LifeLoop.InitialCells | src/GOL.tsx:68-85 | after the seeding loop, cells whose index is a multiple of 3 hold their random draw (1 or 0), and all other cells are 0 |
| LifeLoop.BindGroups | src/GOL.tsx:207-244 | bind group k reads storage buffer k at binding 1 and writes buffer 1-k at binding 2 |
| LifeLoop.PingPong | src/GOL.tsx:291-295 | the buffer written at step s is the one read at step s+1; successive steps write different buffers, and no group reads the buffer it writes |
| LifeLoop.Simulation.constructor | src/GOL.tsx:68-91 | both storage buffers receive the same seeded grid of 0/1 cells, and `step` starts at 0 |
| LifeLoop.Simulation.UpdateGrid | src/GOL.tsx:284-316 | the compute pass uses group `step % 2`; `step` goes up by one; the render group `step % 2` reads the buffer just written, which holds the next generation of the grid the compute pass read; the compute input is unchanged; 32x32 workgroups; the draw has 6 vertices and one instance per cell |
| Grass.Vertices | src/Grass.tsx:28-59 | the vertex table has 30 floats (5 vertices of 6 floats), and every colour component lies in [0, 1] |
| Grass.GrassVertexLayout | src/Grass.tsx:74-89 | the 24-byte stride is 6 float32s; position (offset 0) and colour (offset 12) are 12 bytes each, do not overlap, end within the stride and use distinct shader locations |
| Grass.VertexBufferHoldsOneStridePerVertex | src/Grass.tsx:66-86 | `vertices.byteLength` equals 5 strides; the attributes start at float 0 and float 3 of each vertex row |
| Grass.Indexes | src/Grass.tsx:91-93 | the index list has 18 entries, a multiple of 3, and every index is below 5, the vertex count |
| Grass.TrianglesNonDegenerate | src/Grass.tsx:91-93 | the list forms 6 triangles, each with three distinct vertices; the first two split the base square along the diagonal 0-2 |
| Grass.SidesFanToTip | src/Grass.tsx:92 | triangles 2..5 join consecutive base corners (k, k+1 mod 4) to the tip vertex 4 |
| Grass.BaseCornersAdjacent | src/Grass.tsx:28-59 | the base corners lie at z = 0, consecutive corners differ in exactly one coordinate (they share an edge of the square), and the tip lies above the base |
| Grass.GrassDraw | src/Grass.tsx:245-246 | the indexed draw uses `indexes.length` indices and one instance; every index it reads is inside the index buffer, and every vertex it fetches is inside the vertex buffer |
| Grass.FrameLoop.constructor | src/Grass.tsx:113-120 | `time` is a one-float array filling the 4-byte uniform buffer; it starts at 0 and is written to the buffer |
| Grass.FrameLoop.UpdateGrid | src/Grass.tsx:210-252 | `step` goes up by one, `time[0] = step` is written to the uniform buffer (so it goes up by exactly 1 per frame and always equals the number of frames), and the draw is `GrassDraw` |

## Left out

- Adapter, device and canvas acquisition, DOM attachment and React mount/cleanup: host I/O, with no data to model.
- Buffer, layout, pipeline, texture and command-encoder creation, `queue.writeBuffer` and `submit`: these are WebGPU API calls. The model keeps only the data they carry: buffer contents, bind-group pairings, dispatch sizes and draw arguments.
- `setInterval` scheduling: timer-driven and asynchronous. Each `UpdateGrid` method is one timer tick.
- `Math.random()` in the seeding loop: `coins[k]` stands for the outcome of the k-th draw.
- The floating-point vertex and fragment shaders of the Game of Life, and `src/Grass.wgsl`: floating-point numerics. `src/Grass.wgsl` is not part of this model.
- The grid uniform `vec2f(256, 256)`: the shader reads it as `u32(grid.x)`, and the model uses the constant 256.
- GPU-parallel execution of `computeMain`: modelled as a sequential loop over invocation ids. Every invocation writes a different output cell and reads only the input buffer, so the order does not matter.
- `src/App.tsx`: UI composition only.
- Grass.Vertices: the decimal literals are exact reals. Their rounding to float32 is not modelled.
- Grass.FrameLoop.UpdateGrid: `time[0]` is modelled as the exact real `step`. Float32 stores integers exactly only up to 2^24 frames, and rounding beyond that is not modelled.
- LifeLoop.Simulation.UpdateGrid: the JavaScript number `step` is an unbounded natural number. Precision loss beyond 2^53 is not modelled.

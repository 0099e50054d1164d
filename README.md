# Chunked terrain store of imgui-test

A Dafny model of the terrain store at the heart of `main-loop.cpp`: a
fixed-size, open-addressed hash table of terrain chunks, each chunk a square
height map of `CHUNK_SIZE × CHUNK_SIZE` cells. Each slot carries a
generation tag. A slot is *live* when its tag equals the game state's
`terrain_gen_id`; every other slot is *stale* and free. Regenerating the
terrain increments the generation, which makes every slot stale at once.
It then fills, chunk by chunk, every chunk of the current extent
`[-floor(w/2), floor(w/2)) × [-floor(h/2), floor(h/2))` with a weighted sum
of noise octaves. A height query maps a world position to its chunk and
cell and reads the cell through the same probing lookup. When the camera
leaves the generated extent, the main loop grows the extent by one on the
offending axis and regenerates.

Files:

- `chunk_math.dfy` (module `ChunkMath`): pure index arithmetic. It covers
  the 32-bit shift-xor hash of a chunk coordinate and its reduction to a
  base slot, the chunk containing a world position, the row-major cell
  index, the height read of `get_height_from_chunk`, and the extent ranges.
- `octaves.dfy` (module `Octaves`): the height generated for a world cell,
  as a weighted sum of noise octaves.
- `chunk_table.dfy` (module `ChunkTable`): the table as a sequence of slot
  records. It covers linear probing, the probing invariant (`Consistent`),
  uniqueness of live coordinates, and the count of live slots.
- `terrain.dfy` (module `Terrain`): the mutable `GameState` class. Its slot
  array is an `array<TerrainChunk>` updated in place. Its generation
  counter, extents and octave settings are fields that the methods modify.

The central invariant is `GameState.Valid`. For every live slot, every slot
that probing for that slot's coordinate passes on the way is live and holds
another coordinate. From it follow uniqueness (`ChunkTable.ConsistentUnique`)
and lookup correctness (`ChunkTable.ProbeStop`). `GenerateTerrain` establishes
it from `Wellformed`, and `GetTerrainChunk`, `GenerateChunk`, `GenerateColumn`,
`TerrainHeightAt` and `ExtendTerrainForCamera` preserve it.

Three behaviours of the code are easy to miss, and the model keeps each:

- A claimed stale slot keeps the heights of its previous occupant:
  main-loop.cpp:128-132 writes only the position and the tag. A height
  query for a chunk outside the extent therefore reads leftover data.
  `GetTerrainChunk` and `TerrainHeightAt` state that the heights are
  unchanged.
- An extent of `(1, 1)` generates no chunk at all, because `floor(1/2) = 0`
  (main-loop.cpp:156-161). The smallest extent that generates the chunk at
  the origin is `(2, 2)`. `ChunkMath.AxisCountIntegral` states that an odd
  dimension `d` yields only `d - 1` chunk indices.
- Growing an even dimension by one adds no chunk (main-loop.cpp:799-811,
  `ChunkMath.GrowthReachesNeighbour`). The camera's chunk is still outside
  after the regeneration, so the next frame grows and regenerates again.

## Model

| member | source | states |
|---|---|---|
| ChunkMath.ChunkHashRange | main-loop.cpp:105-107 | the hash of every chunk coordinate is a signed 32-bit value, in `[-2^31, 2^31)` |
| ChunkMath.ChunkHashSmall | main-loop.cpp:105-107 | the two shift-xor rounds hash `(0, 0)`, `(1, 0)`, `(0, 1)` and `(1, 1)` to 0, 128, 1 and 129: x is shifted left by 7 in the second round, y enters unshifted |
| ChunkMath.SlotIndexExamples | main-loop.cpp:102-110 | the base slot of `(0, 0)` is 0 and that of `(1, 0)` is `128 % capacity`, for every table length |
| ChunkMath.TruncatedRem | main-loop.cpp:108 | C's `%` on `int`: the result is congruent to the dividend modulo the divisor, has the dividend's sign, and has magnitude below the divisor |
| ChunkMath.ToSize | main-loop.cpp:108 | the `int` to `size_t` conversion lands in `[0, 2^64)` and agrees with the signed value modulo 2^64 |
| ChunkMath.SlotIndex | main-loop.cpp:102-110 | the base slot of any chunk coordinate lies inside the table, for every table length |
| ChunkMath.ChunkIndex | main-loop.cpp:188-193 | the floored index `k` of a coordinate `v` satisfies `k*size <= v < (k+1)*size` |
| ChunkMath.ChunkIndexUnique | main-loop.cpp:188-193 | that containment determines the chunk index uniquely |
| ChunkMath.ChunkPosition | main-loop.cpp:188-193 | the chunk of a world position contains the position on both axes |
| ChunkMath.ChunkOffset | main-loop.cpp:199-200 | measured from the position's own chunk, the offset lies in `[0, CHUNK_SIZE)` on both axes |
| ChunkMath.Truncate | main-loop.cpp:145 | C's `int(r)` truncates toward zero: for `r >= 0`, `t <= r < t + 1`; for `r < 0`, `t - 1 < r <= t` |
| ChunkMath.HeightFromChunk | main-loop.cpp:142-146 | the value read is the height map's entry for the cell `(x, y)` whose unit square contains the offset |
| ChunkMath.CellIndex | main-loop.cpp:143-146 | the cell index `y*CHUNK_SIZE + x` of a cell lies in `[0, CHUNK_SIZE²)`, and division and remainder recover `y` and `x` |
| ChunkMath.CellIndexInjective | main-loop.cpp:143-146 | distinct cells have distinct indices |
| ChunkMath.CellOfIndex | main-loop.cpp:143-146 | every index of the height map is the index of exactly the cell its quotient and remainder name |
| ChunkMath.QueryRoundTrip | main-loop.cpp:195-203 | a world position `c*CHUNK_SIZE + (x+fx, y+fy)` lands in chunk `c` with an in-range offset, and the height read is cell `(x, y)` of the map |
| ChunkMath.AxisRoundTrip | main-loop.cpp:188-193 | a coordinate `c*size + x + f` with `0 <= x < size` and `0 <= f < 1` lies in chunk `c` |
| ChunkMath.AxisCount | main-loop.cpp:156-161 | the number `n` of generated indices per axis is even, is zero exactly when `floor(d/2) <= 0`, and the generated range is exactly `[-n/2, n/2)`, so `n` is its size |
| ChunkMath.AxisCountIntegral | main-loop.cpp:156-161 | an integral dimension `d` yields `d` indices when even and `d - 1` when odd |
| ChunkMath.GrowthKeepsRange | main-loop.cpp:799-811 | growing a dimension by one keeps every index it already generated |
| ChunkMath.GrowthReachesNeighbour | main-loop.cpp:799-811 | the index just outside an integral dimension's range enters the range of `d + 1` exactly when `d` is odd |
| Octaves.OctaveSumPrefix | main-loop.cpp:175-180 | only the first `n_perlins` octaves contribute: settings that agree on them give the same height |
| Octaves.SingleOctave | main-loop.cpp:175-180 | with one octave of amplitude 1, the generated height is the raw noise at the cell |
| ChunkTable.Probe | main-loop.cpp:118-126 | the slot after `d` steps is `(base + d) % n`: one slot forward per step, wrapping from the last slot to slot 0. It returns to the base slot exactly after 0 or `n` steps |
| ChunkTable.Dist | main-loop.cpp:118-126 | every slot is reached from every base slot after exactly one number of steps below `n` |
| ChunkTable.ConsistentUnique | main-loop.cpp:114-139 | under the probing invariant, a coordinate is held by at most one live slot |
| ChunkTable.LiveSlotIs | main-loop.cpp:114-139 | a live slot is the live slot of its own coordinate |
| ChunkTable.ProbeStop | main-loop.cpp:118-136 | where probing first stops, a live slot holds the coordinate, and a stale slot means no live slot holds it |
| ChunkTable.FullProbe | main-loop.cpp:118-126 | probing that comes back to its base slot has seen a full table that lacks the coordinate |
| ChunkTable.ClaimPreservesConsistent | main-loop.cpp:128-132 | retagging the stale slot where probing stopped keeps the probing invariant |
| ChunkTable.HeightsPreserveConsistent | main-loop.cpp:181 | writing heights, which leaves positions and tags alone, keeps the probing invariant |
| ChunkTable.PresentKept | main-loop.cpp:128-132 | a coordinate stays present while its live slot is untouched |
| ChunkTable.CountLive | main-loop.cpp:114-139 | the number of live slots never exceeds the table length |
| ChunkTable.CountLiveFull | main-loop.cpp:125 | the live count equals the table length exactly when every slot is live |
| ChunkTable.CountLiveEmpty | main-loop.cpp:152 | the live count is zero exactly when no slot is live, as after a generation increment |
| ChunkTable.CountLiveUpdate | main-loop.cpp:128-132 | replacing one slot changes the live count by the change in that slot's liveness |
| Terrain.GameState.constructor | main-loop.cpp:382-392 | the initial terrain settings: extent 5 × 5, 15 octaves of period 16 and amplitude 1, generation 0, on a zeroed slot array |
| Terrain.GameState.GetTerrainChunk | main-loop.cpp:113-139 | it returns a slot holding the coordinate at the current generation, and keeps the invariant. A live coordinate comes back from its own slot with no write. Otherwise only the stopped slot changes: position and tag set, heights kept, live count up by one. It aborts (`None`) exactly when the table is full and lacks the coordinate |
| Terrain.GameState.TerrainOffset | main-loop.cpp:174-180 | the accumulated height is the octave sum over the first `n_perlins` octaves |
| Terrain.GameState.FillChunk | main-loop.cpp:165-182 | every cell of the slot holds the height generated for its world position; the slot's position and tag and all other slots are unchanged |
| Terrain.GameState.GenerateChunk | main-loop.cpp:162-182 | an absent chunk becomes present with generated heights, raising the live count by one; it aborts exactly when the table is full |
| Terrain.GameState.GenerateColumn | main-loop.cpp:159-183 | one column of the extent becomes present, in visiting order; on abort the table is full before the column completes |
| Terrain.GameState.GenerateTerrain | main-loop.cpp:149-184 | the generation rises by exactly one and the current extent becomes the user extent. It succeeds exactly when the extent's chunk count fits the table, and then the live chunks are exactly the extent's chunks. Every live slot holds generated heights; stale slots keep their old contents |
| Terrain.GameState.GenerateExtent | main-loop.cpp:156-183 | from a table with no live slot, the chunks of the extent become exactly the live ones when they fit, and the abort happens exactly when they do not |
| Terrain.GameState.ExtentComplete | main-loop.cpp:156-161 | once all columns are done, a chunk is live exactly when it lies in the extent |
| Terrain.GameState.TerrainHeightAt | main-loop.cpp:196-203 | the value read is the height at the position's offset in the live slot of the position's chunk. No slot's heights change, every slot live before the query is unchanged, and a present chunk causes no write. For an absent chunk exactly one stale slot changes, becoming its live slot, and the live count rises by one. It aborts exactly when the table is full and lacks the chunk |
| Terrain.GameState.ExtendTerrainForCamera | main-loop.cpp:794-816 | on each axis where the camera's chunk is outside the current extent, the user extent becomes the current extent plus one. Regeneration happens once when either axis triggered, and otherwise nothing changes. In both cases every slot stale afterwards keeps its contents |
| Terrain.GameState.HeightAfterGeneration | main-loop.cpp:149-203 | after generation, a query inside cell `(x, y)` of any chunk of the extent returns exactly the generated height of that cell, when the extent fits |
| Terrain.GeneratedHeightQuery | main-loop.cpp:187-203 | in a table whose live slots hold generated heights, a query at `c*CHUNK_SIZE + (x+fx, y+fy)` reads the generated height of cell `(x, y)` of `c` |

## Left out

- The noise function of `perlin.cpp` is a parameter (`perlin`), a total function of the integer world cell and the period; perlin.cpp is not part of this model.
- Floating point: world positions, offsets, extents and heights are exact reals. Rounding in `1.0/CHUNK_SIZE` and in the subtraction of line 200 is not modelled. Chunk coordinates and cell translations, which the source keeps as integral floats, are integers.
- ChunkMath.ChunkHash: the hash is specified by its signed 32-bit range (`ChunkHashRange`) and by the concrete values of `ChunkHashSmall`, not by how it mixes bits; the table properties do not depend on the hash beyond its being a function of the coordinate. The float-to-`int` cast of a coordinate wraps modulo 2^32 in the model. In C++ an out-of-range cast is undefined, and so is the left shift of a negative hash.
- ChunkMath.HeightFromChunk: it requires the offset inside the chunk, which every caller guarantees (the ensures of `ChunkOffset`). The source reads out of bounds otherwise.
- `CHUNK_SIZE`, the table length and the octave array length are defined outside `main-loop.cpp`. They are parameters of the constructor: a positive chunk size, a positive table length, and at least 15 octave slots.
- `assert` in the probe loop aborts the program when `NDEBUG` is not defined; in a release build the assert at main-loop.cpp:125 is compiled out and the loop at lines 118-126 never ends on a full table that lacks the coordinate. The model returns `None` from `GetTerrainChunk` and `TerrainHeightAt`, and `false` from the generation methods, and leaves the table unchanged from that point.
- Terrain.GameState.constructor: it stops before the call to `generate_terrain` at line 393. That call is `GenerateTerrain`, whose precondition the constructed state meets.
- `terrain_gen_id` overflow after 2^31 generations is not modelled; the counter is an unbounded integer.
- The render loop's reads of chunks (lines 947-990) are not modelled, although they go through `get_terrain_chunk` and can claim slots. The same goes for the camera physics, input handling and UI windows, OpenGL, frame timing and shutdown.
- `main-loop.h` is not part of this model: its declarations do not match `main-loop.cpp`.

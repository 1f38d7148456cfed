# WorldChunk — a verified model of one chunk of a voxel world

This project models `WorldChunk` from `scripts/worldChunk.js` of MinecraftCloneJS. A chunk holds a dense
`width × height × width` grid of cells. Each cell has a block id and an optional instance id: the slot of the
block type's instanced mesh that draws the cell.

`generate` fills the grid in a fixed pipeline:

1. empty every cell;
2. lay noise-thresholded ores;
3. apply the per-column sand / grass / dirt / empty rule;
4. grow trees: a trunk above the first grass cell and a spherical canopy of leaves;
5. put clouds on the top layer;
6. apply the player's persisted edits.

It then builds one instance table per block type, holding exactly the cells that are not hidden on all six sides.
`addBlock` and `removeBlock` edit the grid and keep the tables in step. `removeBlock` frees a slot by moving the
table's last entry into it (swap-with-last).

The model is imperative, as the source is. `Chunk.WorldChunk` is a class:
- the grid is two `array3`s, `blockIds` and `instanceIds`;
- the instance tables are an `array2<Coord>` `matrices`, indexed by block id and then slot;
- `counts` is an `array<nat>` holding each mesh's `count`.

A table entry holds the coordinate that the source's translation matrix encodes, which is what
`deleteBlockInstance` reads back. Every generation stage is a method with the source's nested loops. Each is
proved to leave every cell as a stated function of its old id and the stage's inputs:
- empty, for the initial pass;
- a rule stated as a function in module `Rules`, for resources, terrain, clouds and each single tree;
- the stored edit where there is one, for the player's changes.

The tree stage as a whole is stated as a relation, `Rules.TreeStep`, which says how it may change each cell. The
lemmas in `Rules` say what the rules mean.

The central invariant is `Valid()`:
- every cell's slot is live in its type's table and records that cell;
- every live slot `0 .. count - 1` records a cell of that type that holds it;
- `count` never exceeds the capacity `width * width * height`.

`Covered()` adds that every drawn cell has an instance. `generate` establishes both. `addBlock`,
`addBlockInstance` and `deleteBlockInstance` preserve `Valid()`. `removeBlock` preserves `Valid()`, and it
preserves `Covered()` everywhere except at the six neighbours of the removed cell.

Modules, one file each:
- `Wrappers` (`wrappers.dfy`): `Option`.
- `Blocks` (`blocks.dfy`): block ids and the ordered resource list.
- `EditStore` (`editstore.dfy`): the persisted edit store as a map.
- `Random` (`random.dfy`): the seeded generator as a stream of draws, and `Math.round`.
- `Counting` (`counting.dfy`): the scan-order numbering of cells, and a pigeonhole argument behind the capacity
  bound.
- `Rules` (`rules.dfy`): the per-cell generation rules.
- `Chunk` (`chunk.dfy`): the `WorldChunk` class.

Inputs the chunk cannot compute are parameters:
- the simplex noise fields are `Rules.Noise`, oracles already divided by their scales;
- the generator is `Random.Rng` over a fixed stream `draws: nat -> real`;
- `Rng.Valid()` says that the stream's values lie in [0, 1). Only the bounds on how far a tree reaches assume it;
- each `new SimplexNoise(rng)` consumes `noise.setupDraws` values of that stream;
- the edit store is `EditStore.DataStore`.

## Model

| member | source | states |
|---|---|---|
| Chunk.WorldChunk.constructor | scripts/worldChunk.js:16-24 | a new chunk is not loaded and has the given size, origin, parameters and store; every cell is empty without an instance, every table count is zero, and Valid() holds |
| Chunk.WorldChunk.InBounds | scripts/worldChunk.js:428-436 | the box [0, width) × [0, height) × [0, width); InBoundsScan characterises it independently |
| Chunk.WorldChunk.InBoundsScan | scripts/worldChunk.js:428-436 | given y and z in range, a cell is in the grid exactly when its scan position lies in [0, width · width · height), the capacity of every table |
| Chunk.WorldChunk.IdOrEmpty | scripts/worldChunk.js:448-453 | the id read for a neighbour is empty exactly when that cell is not a non-empty cell of the grid, so cells outside the grid read as empty |
| Chunk.WorldChunk.GetBlock | scripts/worldChunk.js:291-297 | returns nothing exactly when (x, y, z) is outside [0, width) × [0, height) × [0, width); otherwise the cell's id and instance id |
| Chunk.WorldChunk.IsBlockObscured | scripts/worldChunk.js:447-466 | true exactly when all six axis neighbours are in the grid and non-empty; hence a cell on the grid's boundary is never obscured |
| Chunk.WorldChunk.SetBlockId | scripts/worldChunk.js:402-406 | in bounds, only that cell's id changes, to id; out of bounds, no cell changes |
| Chunk.WorldChunk.SetBlockInstanceId | scripts/worldChunk.js:415-419 | in bounds, only that cell's instance id changes; out of bounds, no cell changes |
| Chunk.WorldChunk.InitializeTerrain | scripts/worldChunk.js:42-58 | every cell becomes empty with no instance |
| Chunk.WorldChunk.PlaceResource | scripts/worldChunk.js:64-76 | one resource pass: each cell whose noise exceeds the resource's scarcity takes the resource id, whatever it held; every other cell is unchanged |
| Chunk.WorldChunk.GenerateResources | scripts/worldChunk.js:61-78 | the generator advances by the noise set-up only, and every cell ends as Rules.OreAfter over the whole resource list in order |
| Rules.OreAfter | scripts/worldChunk.js:63-77 | a cell after the resource passes holds its old id or one of the resource ids, and a registered id stays registered |
| Rules.LastResourceWins | scripts/worldChunk.js:63-77 | when resource k's threshold is exceeded and no later resource's is, the cell ends as resource k: passes overwrite unconditionally, so the last hit wins |
| Rules.NoResourceKeeps | scripts/worldChunk.js:71-73 | a cell that no resource's threshold reaches keeps its id |
| Rules.SurfaceHeight | scripts/worldChunk.js:92-97 | the column height is floor(offset + magnitude · noise), clamped into [0, height - 1] |
| Rules.TerrainRule | scripts/worldChunk.js:99-108 | a cell is emptied exactly when y > h; y ≤ waterOffset and y ≤ h gives sand; otherwise y = h gives grass, and y < h gives dirt on an empty cell while keeping a resource |
| Chunk.WorldChunk.GenerateTerrain | scripts/worldChunk.js:81-112 | every cell of every column follows Rules.TerrainRule for that column's height; the extra pass at y = height writes nothing |
| Chunk.WorldChunk.GenerateClouds | scripts/worldChunk.js:181-195 | only the top layer changes, to a cloud exactly where the remapped cloud noise is below the density |
| Chunk.WorldChunk.LoadPlayerChanges | scripts/worldChunk.js:223-234 | every cell with a stored edit takes the stored id; every other cell is unchanged |
| Rules.FirstGrass | scripts/worldChunk.js:128-130 | the result is the lowest y of the column holding grass, or nothing when the column holds none |
| Chunk.WorldChunk.FindGrass | scripts/worldChunk.js:128-138 | the scan returns the column's first grass cell, as Rules.FirstGrass defines it |
| Chunk.WorldChunk.PlaceTrunk | scripts/worldChunk.js:132-134 | the cells g + 1 .. g + h of the tree's column become trunk; nothing else changes |
| Rules.LeafCell | scripts/worldChunk.js:150-157 | a cell changes only to leaves, only when empty, inside the sphere and with its draw below the density; all of these together give leaves |
| Rules.CanopyCell | scripts/worldChunk.js:147-161 | a canopy changes a cell only to leaves, only on an empty cell of the sphere within the cube; on such a cell, leaves exactly when that offset's own draw is below the density |
| Rules.CubeIndexInRange | scripts/worldChunk.js:147-150 | each offset of the cube [-r, r]^3 takes a draw position in [0, (2r + 1)^3) |
| Rules.CubeIndexInjective | scripts/worldChunk.js:147-150 | distinct offsets of the cube take distinct draw positions, so each offset has a draw of its own |
| Rules.CubeScanEnd | scripts/worldChunk.js:147-161 | the cube scan ends after exactly (2r + 1)^3 draws, or none when r is negative |
| Chunk.WorldChunk.CanopyPoint | scripts/worldChunk.js:150-157 | one offset of the canopy: only the cell at that offset changes, following Rules.LeafCell for its draw |
| Chunk.WorldChunk.CanopyRow | scripts/worldChunk.js:149-159 | the innermost canopy loop consumes one draw per offset and applies Rules.CanopyCell to its row of cells |
| Chunk.WorldChunk.CanopySlice | scripts/worldChunk.js:148-160 | the middle canopy loop consumes one draw per offset and applies Rules.CanopyCell to its slice of cells |
| Chunk.WorldChunk.GenerateTreeCanopy | scripts/worldChunk.js:142-162 | one draw for the radius, then one per cube offset, masked ones included; every cell ends as Rules.CanopyCell; with draws in [0, 1) and 0 ≤ minRadius ≤ maxRadius, no cell farther than maxRadius from the centre on any axis changes |
| Chunk.WorldChunk.GenerateTreeTrunk | scripts/worldChunk.js:122-139 | one draw for the height; without grass in the column nothing else happens; otherwise the trunk sits above the first grass cell and the canopy is centred on its top, with the exact draws consumed; with draws in [0, 1) and 0 ≤ minRadius ≤ maxRadius, only columns within maxRadius of the tree's column change |
| Random.RoundedDrawInRange | scripts/worldChunk.js:125 | Math.round(lo + (hi - lo) · v) with v in [0, 1) lies in [lo, hi] (trunk heights and canopy radii) |
| Rules.FirstGrassStable | scripts/worldChunk.js:166-172 | changes of the kind the tree stage makes never move a column's first grass cell, so earlier trees do not move where later trunks start |
| Chunk.WorldChunk.GenerateTrees | scripts/worldChunk.js:121-173 | one placement draw per interior column; a cell either keeps its id, becomes leaves from empty, or becomes trunk on an interior column strictly above that column's first grass cell |
| Random.Round | scripts/worldChunk.js:125 | Math.round(v) is an integer n with v - 0.5 < n ≤ v + 0.5: the nearest integer, halves rounded up |
| Random.Rng.Advance | scripts/worldChunk.js:62 | building a SimplexNoise from the generator advances it by the noise's set-up draws, here and at lines 82 and 182 |
| Random.Rng.Random | scripts/worldChunk.js:168 | rng.random() yields the next value of the stream and advances it by one |
| Random.Rng.constructor | scripts/worldChunk.js:164 | a generator made from the seed starts at the beginning of the seed's stream |
| EditStore.DataStore.Set | scripts/worldChunk.js:310 | after set, contains reports the key and get returns the id; every other key reads as before, in contains and in get |
| Chunk.WorldChunk.MeshCell | scripts/worldChunk.js:264-276 | after cell (x, y, z), the tables index exactly the exposed cells scanned so far and stay within capacity; only that cell's instance id can change |
| Chunk.WorldChunk.MeshedSkip | scripts/worldChunk.js:266-271 | an empty or obscured cell leaves the scan's table invariant as it was |
| Chunk.WorldChunk.GenerateMeshRow | scripts/worldChunk.js:263-277 | the innermost table loop keeps the scan invariant over its row |
| Chunk.WorldChunk.GenerateMeshSlice | scripts/worldChunk.js:262-278 | the middle table loop keeps the scan invariant over its slice |
| Chunk.WorldChunk.FillTables | scripts/worldChunk.js:261-279 | after the scan, every exposed cell holds a live slot recording it, and the instance ids of other cells are untouched |
| Chunk.WorldChunk.GenerateMeshes | scripts/worldChunk.js:240-282 | tables rebuilt from zero counts; on a grid without slots, the result satisfies Valid() and Covered() |
| Chunk.WorldChunk.MeshedComplete | scripts/worldChunk.js:240-282 | a finished scan over a grid whose unscanned cells hold no slot gives Valid() and Covered() |
| Chunk.WorldChunk.CapacityLeft | scripts/worldChunk.js:245 | a cell without a slot leaves room in every table: live slots record distinct cells, so count < width · width · height |
| Counting.ScanIndexInjective | scripts/worldChunk.js:261-263 | distinct cells have distinct positions in the x, y, z scan |
| Counting.ScanIndexInRange | scripts/worldChunk.js:245 | a cell's scan position is below width · width · height |
| Counting.Pigeonhole | scripts/worldChunk.js:245 | distinct numbers below n that avoid one value are fewer than n |
| Chunk.WorldChunk.AddBlockInstance | scripts/worldChunk.js:376-393 | on an in-grid non-empty cell without an instance, the cell takes slot count of its type, that entry records it, and count grows by one; otherwise nothing changes; Valid() is preserved and no cell loses its instance |
| Chunk.WorldChunk.DeleteBlockInstance | scripts/worldChunk.js:336-368 | on a non-empty cell with a slot, the table's last entry moves into the freed slot, the cell it records is re-pointed there, count shrinks by one and the cell's slot is cleared; no other cell or entry changes; otherwise nothing changes; Valid() is preserved |
| Chunk.WorldChunk.Retype | scripts/worldChunk.js:308 | setting the id of a cell without a slot keeps Valid(), changes only that cell, and exposes nothing except at the cell and its six neighbours (nothing but the cell itself when it was empty) |
| Chunk.WorldChunk.AddBlock | scripts/worldChunk.js:306-312 | on an empty cell, sets the id, appends the cell to its type's table (no table change when the id is empty) and records the edit in the store; on an occupied cell nothing changes; Valid() and Covered() are preserved |
| Chunk.WorldChunk.RemoveBlock | scripts/worldChunk.js:320-327 | on a non-empty in-grid cell, frees its slot by swap-with-last (or leaves the tables alone when it had none), empties it and records an empty edit; otherwise nothing changes; Valid() is preserved, and Covered() is kept except at the six neighbours |
| Chunk.WorldChunk.RemoveAboveObscured | scripts/worldChunk.js:320-327 | removing the block above an obscured block without an instance leaves that block exposed and still without one, so the chunk alone does not keep Covered() |
| Chunk.WorldChunk.AddThenRemove | scripts/worldChunk.js:306-327 | addBlock then removeBlock on an empty cell restores the grid, every instance id, every count and every live table entry; the store keeps an empty edit for the cell |
| Chunk.WorldChunk.GenerateGrid | scripts/worldChunk.js:27-34 | after the grid stages every cell holds a registered id and no instance, every stored edit wins its cell, a cloud column without an edit has a cloud on top, and every other cell holds its procedural id (the resources over an empty cell, then the terrain rule) or what one tree step makes of it, over the first grass cell of the procedural column |
| Chunk.WorldChunk.Generate | scripts/worldChunk.js:27-38 | the chunk ends loaded and Valid(); a cell holds an instance exactly when it is drawn (non-empty and not obscured); every stored edit wins its cell, an unedited cloud cell holds a cloud, and every other cell holds its procedural id or what one tree step makes of it, as for GenerateGrid |

## Left out

- The simplex noise and the seeded generator (`scripts/rng.js`, which is not part of this model) are oracles.
  - The noise samples already divided by their scales are given functions.
  - The generator is a given stream of reals. `Rng.Valid()` states the range [0, 1) where a bound needs it.
  - How many draws a `SimplexNoise` takes while it is built is a parameter (`setupDraws`).
  - Floating-point rounding, NaN and infinities are not modelled; the model's arithmetic is exact.
- `Math.round` is modelled as floor(v + 0.5), its definition for finite values.
- `waterOffset` is an integer. It is only compared with integer heights, so `y <= waterOffset` is the same as
  comparing with its floor.
- Rendering is not modelled: the three.js objects, `generateWater`, `disposeInstances`, `disposeChunks`,
  `this.clear()` and `this.add(...)`, `instanceMatrix.needsUpdate` and `computeBoundingSphere`. A table entry
  is the coordinate of the translation matrix, not the matrix.
- Chunk.WorldChunk.constructor: the grid and the tables are allocated once, at full size, and every stage refills
  them in place.
  - The source reallocates `data` in `initializeTerrain` and creates new meshes in `generateMeshes`.
  - Before the first `generate` the source's `data` is `[]`, where the model has an all-empty grid.
- Chunk.WorldChunk.AddBlock requires an in-grid cell and a registered id.
  - Outside the grid the source throws: it reads `.id` of `null`.
  - With an unregistered non-empty id, `addBlockInstance` throws after the id has already been written.
  - The model does not capture either throw.
- Chunk.WorldChunk.DeleteBlockInstance requires an in-grid cell, because the source reads `.id` of `null`
  outside the grid.
- The edit operations require `Valid()`. The source calls them only on a generated chunk, whose meshes exist and
  whose tables agree with the grid.
- Chunk.WorldChunk.RemoveBlock does not re-cover the neighbours a removal exposes. `removeBlock` itself gives
  them no instance. The caller in `scripts/world.js`, which is not part of this model, is where revealing
  neighbours belongs. `RemoveAboveObscured` states the gap.
- Chunk.WorldChunk.GenerateTrees states how each cell may change (`Rules.TreeStep`), not the exact final grid.
  Each tree is stated exactly by `GenerateTreeTrunk`. Overlapping canopies make the composed result a
  sequential fold over the placed trees, which is not spelled out. Which columns get a tree (the placement draw
  below the frequency) is likewise not stated.
- The edit store's persistence and sharing across chunks are not modelled. Its interface is a map with
  `contains`, `get` and `set`.
- `scripts/blocks.js` supplies only the block ids, the resource order and the scarcities. Textures, materials and
  the per-axis resource scales are left out; the scales are folded into the noise oracle.

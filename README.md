# rust-game core logic in Dafny

A model of the discrete logic underneath a Bevy game that generates an
island world and meshes its terrain. The modelled parts are:

- **The `Grid<T>` container** (`rg_grid`, and the older copy in `rg_core` with
  its element-wise operators). It is a dense row-major 2D array with an
  integer origin offset. Pure operations work on a value triple (origin,
  size, cells). The class `Grids.Grid` holds the cells in an array for the
  operations that write in place.
- **The island mask pipeline** (`rg_worldgen` `island.rs` and
  `island_shaping.rs`):
  - the scan-line stack flood fill, hole filling and small-island removal;
  - connected-component labelling and keeping one island;
  - erosion, majority smoothing and the land-fraction tests;
  - random 2× upsampling and the retry loops.

  Both files share one `random_zoom`, with the same text at
  island.rs:187-209 and island_shaping.rs:174-196, and `Island.RandomZoom`
  models it for both. The random generator is an oracle parameter.
- **The river drainage network** (`rivers.rs`):
  - a max-priority queue seeded with ocean-to-land edges grows a drainage
    forest;
  - the forest is inverted into upstream lists;
  - water volume and Strahler order are accumulated over it.
- **The terrace meshers** of `rg_terrain`:
  - the current chunk surface mesher (`surface/mesh.rs`) and its post-passes
    (quad merging, rejected-index removal, degenerate-triangle removal,
    vertex sharing);
  - the earlier `mesher.rs`;
  - the first flat-grid `generator.rs`.

  The per-cell level logic they share is in `MarchingSquares`. The buffer
  facts behind the post-passes are in `MeshData` and `MeshPasses`.
- **Chunk bookkeeping**: the copy-on-write `ChunkMap`, the chunk registries
  of `chunk.rs` and `chunks.rs`, and the floating world origin.
- **Smaller parts**:
  - the Poisson-disc spatial hash;
  - the navigation connection bitmasks;
  - the behaviour-tree stack machine and its built-in actions;
  - the packed progress counter and the stage conversions;
  - biome classification;
  - the topographic thresholds and pixel unpacking;
  - the developer overlay's frame-time buffer.

There is one Dafny module per source file, plus these shared modules:

- `Wrappers`: `Option`.
- `Arith`: multiplication and row-major facts.
- `Connectivity`: 4-connected components of a mask.
- `Floodfill`.
- `MarchingSquares`, `MeshData` and `MeshPasses`.
- `ChunkUnits`: the shared chunk sizes.

Floats are modelled as Dafny reals. NaN, where the source uses it as an
"empty" or "not walkable" marker, becomes `None`. Unsigned and signed widths
are written out wherever the source converts between them or wraps around.

## Model

| member | source | states |
|---|---|---|
| Grids.IndexRange | crates/rg_grid/src/lib.rs:129-138 | an in-bounds cell's row-major index lies in [0, w·h) |
| Grids.IndexInBounds | crates/rg_grid/src/lib.rs:129-132 | the index of an in-bounds cell is in range and maps back to the cell |
| Grids.CellAtInBounds | crates/rg_grid/src/lib.rs:170-175 | the cell at row-major position i < w·h is in bounds and has index i |
| Grids.IndexInjective | crates/rg_grid/src/lib.rs:129-132 | distinct in-bounds cells have distinct indices |
| Grids.Get | crates/rg_grid/src/lib.rs:140-147 | `get` returns a value iff the cell is in bounds (origin ≤ c < origin + size) |
| Grids.At | crates/rg_core/src/grid.rs:278-291 | `grid[c]`, defined only in bounds, equals `get(c)` |
| Grids.ClampedGet | crates/rg_grid/src/lib.rs:158-164 | on a non-empty grid the clamped cell is in bounds, and an in-bounds cell reads itself |
| Grids.GetWith | crates/rg_grid/src/lib.rs:166-168 | after a write, the written in-bounds cell reads the new value and every other cell reads its old value |
| Grids.FromFnGet | crates/rg_grid/src/lib.rs:69-75 | every cell of a `from_fn_with_origin` grid holds f of its own coordinate |
| Grids.ParFromFnWithOrigin | crates/rg_grid/src/lib.rs:81-99 | as written: the result has the given size and origin, but f is applied to origin-free coordinates |
| Grids.ParFromFnIsShifted | crates/rg_grid/src/lib.rs:91-95 | the parallel constructor equals the sequential one applied to f shifted by the origin; the two agree only at the zero origin |
| Grids.CellsEnumerate | crates/rg_grid/src/lib.rs:170-175 | `cells` lists every in-bounds cell exactly once, in row-major order, and nothing else |
| Grids.EntriesAgreeWithGet | crates/rg_grid/src/lib.rs:211-213 | every entry pairs a cell with the value `get` returns for it |
| Grids.Map | crates/rg_grid/src/lib.rs:233-239 | `map` keeps size and origin |
| Grids.MapGet | crates/rg_grid/src/lib.rs:233-239 | each mapped cell is f of the cell and its old value; outside cells stay absent |
| Grids.MapValues | crates/rg_grid/src/lib.rs:233-239 | mapping with a value-only function maps the cells pointwise |
| Grids.NeighborhoodSpec | crates/rg_grid/src/lib.rs:265-283 | the neighbourhood holds exactly the in-bounds cells center + dir, tagged with dir's position, in increasing tag order |
| Grids.Rows | crates/rg_grid/src/lib.rs:285-287 | `rows` has one row per y |
| Grids.RowsSpec | crates/rg_grid/src/lib.rs:285-287 | each row has width cells and row y, column x is the cell origin + (x, y) |
| Grids.Transpose | crates/rg_grid/src/lib.rs:307-312 | the corrected transpose swaps size and origin |
| Grids.TransposeGet | crates/rg_grid/src/lib.rs:307-312 | cell (y, x) of the corrected transpose reads cell (x, y) of the grid |
| Grids.TransposeTwice | crates/rg_grid/src/lib.rs:307-312 | transposing twice gives back the grid |
| Grids.TransposeAsWritten | crates/rg_grid/src/lib.rs:307-312 | the transpose as written, through `par_from_fn_with_origin`, swaps size and origin |
| Grids.TransposeAsWrittenNeedsZeroOrigin | crates/rg_grid/src/lib.rs:307-312 | on a non-empty grid the as-written transpose stays in bounds iff the origin is zero, and then equals the corrected one |
| Grids.TransposeAsWrittenPanicsAtOffset | crates/rg_grid/src/lib.rs:307-312 | a 1×1 grid at origin (1, 1) makes the as-written transpose read out of bounds |
| Grids.ToF32 | crates/rg_grid/src/lib.rs:342-344 | `to_f32` keeps the shape and maps true to 1.0 and false to 0.0 |
| Grids.Grid.New | crates/rg_grid/src/lib.rs:45-57 | `Grid::new` panics unless both sides are below i32::MAX, and yields w·h copies of fill at the zero origin |
| Grids.Grid.FromData | crates/rg_grid/src/lib.rs:59-67 | `from_data` needs exactly w·h elements and holds them at the zero origin |
| Grids.Grid.Set | crates/rg_grid/src/lib.rs:166-168 | `set` returns the old value (None outside) and writes only that cell |
| Grids.Grid.Put | crates/rg_core/src/grid/ops.rs:17-21 | `grid[c] = v` needs an in-bounds cell and writes only that cell |
| Grids.Grid.MapInPlace | crates/rg_grid/src/lib.rs:253-255 | `map_inplace` leaves the grid equal to its map |
| Grids.Grid.TransposeInPlace | crates/rg_grid/src/lib.rs:314-319 | corrected (see Findings): `transpose_in_place` leaves the grid equal to its corrected transpose; the source builds it with `par_from_fn_with_origin`, which panics on a non-empty grid away from the zero origin (Grids.TransposeAsWrittenNeedsZeroOrigin) |
| GridOps.BinaryOpAsWritten | crates/rg_core/src/grid.rs:295-308 | as written: the binary grid operator asserts equal size and origin and keeps that shape |
| GridOps.BinaryOpAsWrittenIgnoresRhs | crates/rg_core/src/grid.rs:302 | as written, the right-hand grid never matters: every cell is op(a[c], a[c]) |
| GridOps.BinaryOpAsWrittenAddsSelf | crates/rg_core/src/grid/ops.rs:31-45 | for one-cell grids [1] and [2], the as-written sum is [2] where the intended sum is [3] |
| GridOps.BinaryOp | crates/rg_core/src/grid/ops.rs:31-45 | the corrected binary operator needs equal size and origin and keeps that shape |
| GridOps.BinaryOpGet | crates/rg_core/src/grid/ops.rs:31-45 | each cell of the corrected result is op(a[c], b[c]); cells outside stay absent |
| GridOps.ScalarOp | crates/rg_core/src/grid.rs:319-335 | a grid-and-scalar operator keeps the grid's shape |
| GridOps.ScalarOpGet | crates/rg_core/src/grid/ops.rs:55-63 | each cell of a grid-and-scalar result is op(a[c], s) |
| GridOps.UnaryOp | crates/rg_core/src/grid.rs:389-410 | a unary operator keeps the grid's shape |
| GridOps.UnaryOpGet | crates/rg_core/src/grid/ops.rs:125-143 | each cell of a unary result is f(a[c]) |
| GridOps.NegTwice | crates/rg_core/src/grid/ops.rs:125-143 | negating a grid twice gives it back |
| GridOps.CompoundAssign | crates/rg_core/src/grid/ops.rs:88-96 | `lhs op= rhs` asserts equal shapes and leaves lhs equal to the corrected binary result |
| GridOps.CompoundAssignScalar | crates/rg_core/src/grid/ops.rs:104-110 | `lhs op= s` leaves lhs equal to the scalar result |
| GridOps.ToBool | crates/rg_core/src/grid.rs:516-518 | `to_bool` keeps the shape |
| GridOps.ToBoolGet | crates/rg_core/src/grid.rs:516-518 | a cell is true iff its value exceeds the cutoff, false iff it does not |
| GridOps.ToBoolOfToF32 | crates/rg_core/src/grid.rs:568-570 | for a cutoff in [0, 1), `to_bool` undoes `to_f32` |
| Connectivity.AdjacentSym | crates/rg_worldgen/src/island_shaping.rs:151-153 | 4-adjacency is symmetric |
| Connectivity.LinkedSym | crates/rg_worldgen/src/island_shaping.rs:121-162 | same-value 4-connectivity is symmetric |
| Connectivity.LinkedTrans | crates/rg_worldgen/src/island_shaping.rs:121-162 | same-value 4-connectivity is transitive |
| Connectivity.SameComponent | crates/rg_worldgen/src/island_shaping.rs:121-162 | linked cells have the same component |
| Connectivity.ComponentCells | crates/rg_worldgen/src/island_shaping.rs:121-162 | a component holds only cells of its value and contains its own seed |
| Floodfill.NoReachWithoutSeed | crates/rg_worldgen/src/island.rs:116-131 | when the start cell is not inside, no cell is reached |
| Floodfill.ClosedHoldsReach | crates/rg_worldgen/src/island.rs:109-175 | a set holding the seed and closed under inside-adjacency holds every reached cell |
| Floodfill.Complete | crates/rg_worldgen/src/island.rs:109-175 | with the span stack empty, the filled cells are exactly the cells reachable from pos |
| Floodfill.RegionIsFilled | crates/rg_worldgen/src/island.rs:109-175 | the filled set equals the region of cells 4-connected to pos through inside cells |
| Floodfill.Fill | crates/rg_worldgen/src/island.rs:109-175 | `floodfill` writes dst_value exactly into the reachable cells, leaves every other cell, and returns the region's size |
| Floodfill.ScanSpan | crates/rg_worldgen/src/island.rs:137-172 | one popped span is scanned with the coverage invariant kept, filling only newly reached cells and pushing at most three spans per filled cell |
| Island.ReachIsLinked | crates/rg_worldgen/src/island.rs:109-175 | when no sv cell already holds dv, the fill region is exactly the sv-component of pos |
| Island.ReachIsInComponent | crates/rg_worldgen/src/island.rs:109-175 | every fill region lies inside the sv-component of pos |
| Island.RemoveHoles | crates/rg_worldgen/src/island.rs:81-88 | `remove_holes` leaves a cell false exactly when it is 4-connected to (0, 0) through false cells, and makes every other cell true |
| Island.RemoveHolesKeepsLand | crates/rg_worldgen/src/island.rs:81-88 | filling holes never turns land into sea |
| Island.RemoveHolesIdempotent | crates/rg_worldgen/src/island.rs:81-88 | a mask with its holes filled has no holes left |
| Island.CountTrue | crates/rg_worldgen/src/island.rs:181 | the loop counts exactly the true cells |
| Island.CheckTotalArea | crates/rg_worldgen/src/island.rs:177-185 | `check_total_area` holds iff the grid is non-empty and min ≤ land cells / (w·h) ≤ max |
| Island.RemoveSmallIslands | crates/rg_worldgen/src/island.rs:90-107 | `remove_small_islands` keeps a cell land exactly when it is land in a component that is not small |
| Island.KeptComponent | crates/rg_worldgen/src/island.rs:90-107 | an island that survives keeps its exact shape and is not small |
| Island.LargeIslandsRemain | crates/rg_worldgen/src/island.rs:90-107 | every island left covers at least `min_island_area` of the grid |
| Island.RemoveSmallIslandsIdempotent | crates/rg_worldgen/src/island.rs:90-107 | removing small islands twice is removing them once |
| Island.ZoomOddsInUnit | crates/rg_worldgen/src/island.rs:193-203 | the `gen_bool` probability LandAround / CellsAround lies in [0, 1], so the call never panics |
| Island.NeighborCounts | crates/rg_worldgen/src/island.rs:193-201 | the inner loop counts land cells and cells among c and its in-bounds 4-neighbours |
| Island.Neighbors4Sums | crates/rg_worldgen/src/island.rs:197-200 | summing over `neighborhood_4` gives the counts over the in-bounds side neighbours |
| Island.BlocksCover | crates/rg_worldgen/src/island.rs:187-209 | the 2x2 blocks tile the doubled grid |
| Island.RandomZoom | crates/rg_worldgen/src/island.rs:187-209 | `random_zoom` doubles both sides and fills every block from four draws with the neighbourhood fraction |
| Island.ZoomKeepsUniformBlocks | crates/rg_worldgen/src/island.rs:187-209 | where c and its in-bounds 4-neighbours all hold v, p is 0 or 1 and the whole block holds v |
| Island.IslandAttempt | crates/rg_worldgen/src/island.rs:29-45 | one attempt yields a (size/8)·8 mask at the zero origin with no small islands |
| Island.GenerateIslandMap | crates/rg_worldgen/src/island.rs:21-52 | a returned mask has size (size/8)·8, passes `check_total_area` and has no small islands |
| IslandShaping.Cells4Spec | crates/rg_worldgen/src/island_shaping.rs:151 | `neighborhood_4` yields exactly the in-bounds side neighbours |
| IslandShaping.PushSame | crates/rg_worldgen/src/island_shaping.rs:151-155 | the push loop stacks exactly the side neighbours holding the cell's value, in neighbourhood order |
| IslandShaping.LabelComponent | crates/rg_worldgen/src/island_shaping.rs:138-156 | the search labels L exactly the cells linked to the start, changes no other label, and counts the component |
| IslandShaping.DfsDone | crates/rg_worldgen/src/island_shaping.rs:143-156 | with the stack empty, the labelled cells are exactly the component of the start |
| IslandShaping.ConnectedComponents | crates/rg_worldgen/src/island_shaping.rs:121-162 | every label is below the entry count; two cells share a label iff a same-valued 4-path joins them; each entry gives its component's value and size; labels are issued in row-major first-encounter order; counts sum to w·h |
| IslandShaping.CcDoneIff | crates/rg_worldgen/src/island_shaping.rs:121-162 | once every cell is labelled, labels agree exactly on linked cells |
| IslandShaping.EntryValue | crates/rg_worldgen/src/island_shaping.rs:158 | every cell holds the value recorded in the entry for its label |
| IslandShaping.LargestOf | crates/rg_worldgen/src/island_shaping.rs:109-110 | `max_by_key` picks an entry of value v with the largest count, the last among ties, and None when no entry has value v |
| IslandShaping.LargestIsLargest | crates/rg_worldgen/src/island_shaping.rs:109-110 | the picked entry is at least as large as the component of any v-cell |
| IslandShaping.BothValuesPresent | crates/rg_worldgen/src/island_shaping.rs:109-110 | with two or more components both values occur among the entries, so both `unwrap`s succeed |
| IslandShaping.FlipOthers | crates/rg_worldgen/src/island_shaping.rs:112-117 | the flipping pass negates every cell outside the two kept components |
| IslandShaping.FlippedGet | crates/rg_worldgen/src/island_shaping.rs:112-117 | a cell keeps its value iff its label is one of the two kept labels; otherwise it is negated |
| IslandShaping.AtMostTwo | crates/rg_worldgen/src/island_shaping.rs:104-107 | at most two components means at most one component per value |
| IslandShaping.UniformLinked | crates/rg_worldgen/src/island_shaping.rs:121-162 | a grid holding one value everywhere is one component |
| IslandShaping.KeepOneIsland | crates/rg_worldgen/src/island_shaping.rs:100-119 | when `keep_one_island` returns, each value forms at most one component |
| IslandShaping.Erode | crates/rg_worldgen/src/island_shaping.rs:198-213 | `erode` keeps the size and the zero origin |
| IslandShaping.ErodeGet | crates/rg_worldgen/src/island_shaping.rs:198-213 | an eroded cell is land iff it and all its in-bounds side neighbours are land |
| IslandShaping.ErodeShrinks | crates/rg_worldgen/src/island_shaping.rs:198-213 | erosion is pointwise at most the input |
| IslandShaping.Smooth | crates/rg_worldgen/src/island_shaping.rs:215-231 | `smooth` keeps the size and the zero origin |
| IslandShaping.SmoothGet | crates/rg_worldgen/src/island_shaping.rs:215-231 | a smoothed cell is land iff strictly more in-bounds 8-neighbours are land than water |
| IslandShaping.SmoothCell | crates/rg_worldgen/src/island_shaping.rs:218-229 | the counting closure computes that majority |
| IslandShaping.SmoothIgnoresCenter | crates/rg_worldgen/src/island_shaping.rs:215-231 | a cell's own value does not affect its smoothed value |
| IslandShaping.AreaGoodIff | crates/rg_worldgen/src/island_shaping.rs:164-172 | `is_island_area_good` holds iff the grid is non-empty and min·w·h ≤ land cells ≤ max·w·h |
| IslandShaping.ShapeAttempt | crates/rg_worldgen/src/island_shaping.rs:28-70 | one attempt yields a 4·size mask at the zero origin with one component per value |
| IslandShaping.ShapeIsland | crates/rg_worldgen/src/island_shaping.rs:20-71 | a returned island has size 4·size, passes the area test and has one component per value |
| Rivers.CompareIsOrder | crates/rg_worldgen/src/rivers.rs:139-157 | items compare by priority alone: equal exactly when `eq` holds, antisymmetric and transitive |
| Rivers.TopExists | crates/rg_worldgen/src/rivers.rs:139-157 | a non-empty queue has a maximum-priority item |
| Rivers.Heap.Push | crates/rg_worldgen/src/rivers.rs:176-181 | `push` adds one item to the queue's multiset |
| Rivers.Heap.Pop | crates/rg_worldgen/src/rivers.rs:195 | `pop` on a non-empty queue removes and returns an item of maximum priority |
| Rivers.SeedsAtIff | crates/rg_worldgen/src/rivers.rs:167-182 | a seed from s is exactly an edge to a listed neighbour at or above sea level, with priority 1 and the normalised direction |
| Rivers.SeedsIff | crates/rg_worldgen/src/rivers.rs:162-183 | the seeds are exactly the edges from a point at or below sea level to a listed neighbour at or above it |
| Rivers.InitializeQueue | crates/rg_worldgen/src/rivers.rs:159-184 | `initialize_queue` adds exactly the seeds to the queue |
| Rivers.PushSeedsFrom | crates/rg_worldgen/src/rivers.rs:167-182 | the inner loop pushes exactly the seeds from one start point |
| Rivers.PushSeedAt | crates/rg_worldgen/src/rivers.rs:168-181 | one turn of the inner loop pushes the k-th neighbour's seed edge exactly when that neighbour is not below sea level |
| Rivers.SeedsOk | crates/rg_worldgen/src/rivers.rs:162-170 | every seed flows from a point at or below sea level to a neighbour no lower |
| Rivers.CountNoneFix | crates/rg_worldgen/src/rivers.rs:196-200 | fixing an unset entry lowers the number of unset entries, so the loop terminates |
| Rivers.DrainsFix | crates/rg_worldgen/src/rivers.rs:196-200 | fixing an unset entry along a downhill edge from sea level or a fixed point keeps the drainage invariant |
| Rivers.PushUphill | crates/rg_worldgen/src/rivers.rs:202-223 | the queue grows by exactly one item per unfixed neighbour at least as high as the popped end, other than the edge's start: every such neighbour gets an item from the popped end with the alignment priority and the inertia-bent direction, and nothing else is pushed |
| Rivers.UphillItemsIff | crates/rg_worldgen/src/rivers.rs:202-222 | an item is pushed for a neighbour if and only if it is listed, not the edge's start, unfixed and at least as high, and it is then exactly that neighbour's item |
| Rivers.PushNeighbors | crates/rg_worldgen/src/rivers.rs:202-222 | the loop over the neighbours adds exactly the items of the eligible ones, in list order |
| Rivers.PushNeighborAt | crates/rg_worldgen/src/rivers.rs:202-222 | one turn of the loop pushes the k-th neighbour's item exactly when that neighbour is eligible |
| Rivers.ClosedFix | crates/rg_worldgen/src/rivers.rs:200-222 | fixing the popped end and pushing its eligible neighbours leaves every eligible neighbour of a fixed point fixed or queued |
| Rivers.GenerateDownstreamMap | crates/rg_worldgen/src/rivers.rs:186-227 | the queue drains; each point is fixed at most once, to a point that lists it as a neighbour and is no higher, and each fixed point drains to sea level through points fixed before it; the end of every initially queued item is fixed, and every neighbour at least as high as a fixed point, other than the one it drains to, is fixed too |
| Rivers.DrainageForest | crates/rg_worldgen/src/rivers.rs:193-226 | the downstream map built from the seeded queue satisfies the drainage invariant; every neighbour with height at least 0 of a point at or below sea level is fixed, and the fixed points are closed under the uphill step |
| Rivers.UpstreamOfIff | crates/rg_worldgen/src/rivers.rs:234-238 | the upstream list of j holds exactly the points draining into j, increasing |
| Rivers.GenerateUpstreamMap | crates/rg_worldgen/src/rivers.rs:229-241 | i is in upstream[j] iff downstream[i] = Some(j), and every list is increasing |
| Rivers.RankStep | crates/rg_worldgen/src/rivers.rs:186-227 | when every seed ends above sea level, a point drains to a point fixed before it or to one at or below sea level, so its rank is lower than the rank of the point it drains to |
| Rivers.DrainsRanked | crates/rg_worldgen/src/rivers.rs:229-241 | when every seed ends above sea level, the upstream map built from the downstream map has a rank that decreases downstream, so the forest is acyclic |
| Rivers.SeaLevelPairCycles | crates/rg_worldgen/src/rivers.rs:159-184 | as written: two neighbouring points at height 0.0 each drain into the other, and no rank decreases downstream |
| Rivers.DrainageRanked | crates/rg_worldgen/src/rivers.rs:40-47 | corrected (see Findings): with seeds that end strictly above sea level, every fixed point is above sea level, the upstream map is the inverse of the downstream map, and a rank decreasing downstream exists |
| Rivers.ComputeVolumeAt | crates/rg_worldgen/src/rivers.rs:255-273 | computing one point fills in its volume and changes no entry already computed |
| Rivers.ComputeVolume | crates/rg_worldgen/src/rivers.rs:243-253 | every volume is (1 + the sum of its upstream volumes)·(1 − evaporation) |
| Rivers.VolumeAtLeast | crates/rg_worldgen/src/rivers.rs:255-273 | with evaporation in [0, 1), every volume is at least 1 − evaporation |
| Rivers.VolumeGrows | crates/rg_worldgen/src/rivers.rs:255-273 | a point's volume is at least (1 + each upstream volume)·(1 − evaporation) |
| Rivers.LastMaxPos | crates/rg_worldgen/src/rivers.rs:358-362 | `max_by_key` picks the last position holding the maximum |
| Rivers.AnyOther | crates/rg_worldgen/src/rivers.rs:365-367 | the `any` test holds iff a child other than the maximum one has the maximum order |
| Rivers.CombineRule | crates/rg_worldgen/src/rivers.rs:358-372 | with distinct children, the order is the largest child order, plus one iff two children attain it |
| Rivers.StrahlerBounds | crates/rg_worldgen/src/rivers.rs:344-373 | every order is at least 1 and at least each upstream order |
| Rivers.ComputeStrahlerAt | crates/rg_worldgen/src/rivers.rs:344-373 | computing one point fills in its Strahler order and changes no entry already computed |
| Rivers.ComputeStrahler | crates/rg_worldgen/src/rivers.rs:332-342 | every entry is the Strahler order of its point |
| MeshData.TrianglesAppend | crates/rg_terrain/src/surface/mesh.rs:555-570 | appending a whole number of triangles to the index buffer appends them to its triangle list |
| MeshData.TrianglesOkExtend | crates/rg_terrain/src/surface/mesh.rs:555-570 | appended triangles naming existing vertices keep every index in range as the vertex count grows |
| MarchingSquares.Quantize | crates/rg_terrain/src/surface/mesh.rs:839-841 | the quantised height is the largest multiple of the step not above the height: r ≤ h < r + step |
| MarchingSquares.SortDescending | crates/rg_terrain/src/surface/mesh.rs:119-120 | the corner heights are sorted in non-increasing order and are a permutation of the corners |
| MarchingSquares.NextLevel | crates/rg_terrain/src/surface/mesh.rs:125-130 | the inner loop skips every copy of the current height and stops at the next lower one |
| MarchingSquares.LevelMasksPartition | crates/rg_terrain/src/surface/mesh.rs:132-145 | mask, up_mask and down_mask are pairwise disjoint, cover 0b1111, and mask is non-zero when the level is a corner height |
| MarchingSquares.VisitedStart | crates/rg_terrain/src/surface/mesh.rs:122-123 | before the loop no level is visited and up_height is the top height + 100 |
| MarchingSquares.VisitedStep | crates/rg_terrain/src/surface/mesh.rs:125-152 | each turn visits the next distinct height with up_height the previous level |
| MarchingSquares.VisitedEnd | crates/rg_terrain/src/surface/mesh.rs:113-153 | `generate_cell` visits each distinct corner height once, strictly decreasing, the first with up_height top + 100 and the rest with the previous level |
| MarchingSquares.LevelsPartition | crates/rg_terrain/src/surface/mesh.rs:113-153 | at every visited level the three masks partition the corners and mask is non-zero |
| MarchingSquares.PermutationsOfCorners | crates/rg_terrain/src/surface/mesh.rs:486-509 | rotate is a 4-cycle, each flip is an involution, and every transform keeps the popcount |
| MarchingSquares.TransformKeepsPartition | crates/rg_terrain/src/surface/mesh.rs:486-509 | transforming the three masks keeps them a partition |
| MarchingSquares.CanonicalCases | crates/rg_terrain/src/surface/mesh.rs:419-483 | every mask 1..15 is sent by its flags to the canonical mask (1, 3, 5, 7 or 15) of the case called |
| MarchingSquares.MasksAndPointsAgree | crates/rg_terrain/src/surface/mesh.rs:486-553 | the mask transform and the point transform move corner i to the same place |
| MarchingSquares.TransformOrientation | crates/rg_terrain/src/surface/mesh.rs:539-553 | the point transform reverses the winding of a triangle iff flip_x xor flip_y |
| MarchingSquares.OrientSwap | crates/rg_terrain/src/surface/mesh.rs:532-536 | swapping two corners of a triangle reverses its winding, which the index swap undoes |
| MeshPasses.WithoutRejected | crates/rg_terrain/src/surface/mesh.rs:342-344 | `retain` keeps every index other than u32::MAX, as often as it occurred, and no u32::MAX |
| MeshPasses.RejectedTrianglesDropped | crates/rg_terrain/src/surface/mesh.rs:342-344 | when whole triangles were rejected, the retained buffer is the triangle list without the rejected triangles, still in range |
| MeshPasses.KeptTrianglesExact | crates/rg_terrain/src/surface/mesh.rs:342-344 | a triangle is kept iff it was there and is not the rejected triangle |
| MeshPasses.SwapRemove | crates/rg_terrain/src/surface/mesh.rs:237-239 | `swap_remove(i)` moves the last element into slot i and shortens the list by one |
| MeshPasses.RemoveTriangleMovesLast | crates/rg_terrain/src/surface/mesh.rs:237-239 | three `swap_remove`s at a triangle move the last triangle into its place intact |
| MeshPasses.RemoveTriangleCount | crates/rg_terrain/src/surface/mesh.rs:237-239 | removing a triangle takes exactly that one out of the multiset of triangles |
| MeshPasses.FlatTest | crates/rg_terrain/src/surface/mesh.rs:232-236 | a triangle is degenerate iff the squared length of its edge cross product is below the threshold |
| MeshPasses.CleanupIndices | crates/rg_terrain/src/surface/mesh.rs:227-244 | `cleanup_triangles` leaves a whole number of in-range triangles, none degenerate, every other triangle kept as often as before |
| MeshPasses.FirstUse | crates/rg_terrain/src/surface/mesh.rs:346-383 | the first-use list holds each used vertex exactly once |
| MeshPasses.FirstUseOfDistinct | crates/rg_terrain/src/surface/mesh.rs:346-383 | on vertices already distinct, first-use numbering changes nothing |
| MeshPasses.BlockCells | crates/rg_terrain/src/surface/mesh.rs:282-283 | a group holds size·size cells, all inside the block at origin |
| MeshPasses.Origins | crates/rg_terrain/src/surface/mesh.rs:275-279 | the group origins are the multiples of size inside the chunk |
| MeshPasses.QuadFacesUp | crates/rg_terrain/src/surface/mesh.rs:323-338 | the merged quad's two triangles face up and are not degenerate |
| MeshPasses.DeduplicateBuffers | crates/rg_terrain/src/surface/mesh.rs:346-383 | the new vertex table is the first-use list of the used vertices, and the vertex at new index k equals the old vertex at old index k |
| SurfaceMesh.WallTop | crates/rg_terrain/src/surface/mesh.rs:596-601 | the wall top is the lowest vertex height above the level at that point of the cell, or 1000 |
| SurfaceMesh.ScanWallTop | crates/rg_terrain/src/surface/mesh.rs:596-601 | the scan over the cell's vertices computes that wall top |
| SurfaceMesh.MsTriangle3d | crates/rg_terrain/src/surface/mesh.rs:555-561 | three vertices are appended, buffers stay equal in length, and one triangle naming them is added |
| SurfaceMesh.MsQuad3d | crates/rg_terrain/src/surface/mesh.rs:563-570 | four vertices are appended and two triangles (n, n+1, n+2), (n, n+2, n+3) are added |
| SurfaceMesh.MsWall | crates/rg_terrain/src/surface/mesh.rs:589-611 | with no corner above, nothing is drawn; otherwise the wall's first vertex is recorded and a quad from the level to the wall top is appended |
| SurfaceMesh.DrawShapes | crates/rg_terrain/src/surface/mesh.rs:613-837 | drawing a case's shapes extends the buffers by the shapes' vertex count |
| SurfaceMesh.CasesFaceUp | crates/rg_terrain/src/surface/mesh.rs:613-837 | every ground triangle of every case is wound counter-clockwise in the canonical cell |
| SurfaceMesh.SwapTailTriangles | crates/rg_terrain/src/surface/mesh.rs:532-536 | the swap pass exchanges the second and third index of exactly the new triangles |
| SurfaceMesh.MeshGenerator.TransformMasks | crates/rg_terrain/src/surface/mesh.rs:486-509 | `ms_transform_masks` permutes all three masks with the current flags and keeps them a partition |
| SurfaceMesh.MeshGenerator.TransformPoints | crates/rg_terrain/src/surface/mesh.rs:511-537 | `ms_transform_points` moves the new vertices and swaps indices 2 and 3 of the new triangles iff flip_x xor flip_y |
| SurfaceMesh.MeshGenerator.MarchingSquares | crates/rg_terrain/src/surface/mesh.rs:419-483 | the flags chosen send the mask to its canonical case; the case is drawn and then transformed back into place |
| SurfaceMesh.MeshGenerator.MsCase | crates/rg_terrain/src/surface/mesh.rs:613-837 | `ms_case_<c>` appends exactly the drawing of the case's shapes and records its walls for the current tile |
| SurfaceMesh.MeshGenerator.DrawLevel | crates/rg_terrain/src/surface/mesh.rs:424-482 | what is drawn is the case's shapes drawn in the canonical cell and moved into place by the flags; the buffers only grow, within the level budget; walls are recorded only for a canonical mask |
| SurfaceMesh.MeshGenerator.GenerateCell | crates/rg_terrain/src/surface/mesh.rs:113-153 | the cell's levels are its distinct quantised corner heights, top down; buffers only grow, within the per-cell budget |
| SurfaceMesh.MeshGenerator.DrawCornerLevel | crates/rg_terrain/src/surface/mesh.rs:132-151 | one level turn sets height and up_height, grows the buffers within the level budget and changes only the current tile's walls |
| SurfaceMesh.MeshGenerator.DrawLevels | crates/rg_terrain/src/surface/mesh.rs:122-152 | the level loop visits each distinct sorted height once, top down, with up_height the previous level (top + 100 first), within the cell budget |
| SurfaceMesh.MeshGenerator.GenerateCells | crates/rg_terrain/src/surface/mesh.rs:88-111 | every chunk cell gets vertex and index spans that own their vertices |
| SurfaceMesh.MeshGenerator.GenerateTile | crates/rg_terrain/src/surface/mesh.rs:93-108 | the tile's new vertices and indices are exactly the spans recorded for it; the tables stay consistent and gain only this tile |
| SurfaceMesh.MeshGenerator.GenerateRow | crates/rg_terrain/src/surface/mesh.rs:91-110 | one row adds every tile of row y to the tables, keeping them consistent, within the row budget |
| SurfaceMesh.MeshGenerator.RejectCells | crates/rg_terrain/src/surface/mesh.rs:310-317 | the block's indices become u32::MAX, its spans are cleared, nothing else changes |
| SurfaceMesh.MeshGenerator.MergeGroup | crates/rg_terrain/src/surface/mesh.rs:281-339 | a block is merged iff every cell has four vertices at one shared z; then it is rejected and one 4-vertex, 6-index quad is appended |
| SurfaceMesh.MeshGenerator.MergeQuads | crates/rg_terrain/src/surface/mesh.rs:272-340 | each size × size block, in origin order, is judged on the tables as they were before the pass: flat at z when every tile has four vertices all at z, and otherwise at no height; exactly the old index slots of the merged blocks' tiles become u32::MAX and their spans are cleared; one upward quad at the block's corners and height is appended per merged block, in origin order |
| SurfaceMesh.MeshGenerator.MergeNext | crates/rg_terrain/src/surface/mesh.rs:281-339 | one turn of the block loop extends the merged-so-far invariant by the next block's verdict |
| SurfaceMesh.SharedTile | crates/rg_terrain/src/surface/mesh.rs:275-283 | two blocks of one pass that share a tile are the same block, so the blocks of a pass are disjoint |
| SurfaceMesh.RejectedByIff | crates/rg_terrain/src/surface/mesh.rs:310-316 | an old index slot is rejected after the merged blocks so far iff a tile of one of them covered it |
| SurfaceMesh.MeshGenerator.GroupLevel | crates/rg_terrain/src/surface/mesh.rs:285-308 | Some(z) only for a non-empty block whose every tile has exactly four vertices, all at z; None only when no height fits |
| SurfaceMesh.MeshGenerator.RejectSpan | crates/rg_terrain/src/surface/mesh.rs:312-314 | exactly the span's index slots become u32::MAX; every other slot keeps its index |
| SurfaceMesh.MeshGenerator.RejectCell | crates/rg_terrain/src/surface/mesh.rs:310-317 | the tile's index slots become u32::MAX and both its spans become [0, 0]; nothing else changes |
| SurfaceMesh.MeshGenerator.AppendQuad | crates/rg_terrain/src/surface/mesh.rs:323-338 | four vertices at the block's corners and height, with up normals and zero colours, and the triangles (n, n+1, n+2), (n, n+2, n+3) over them |
| SurfaceMesh.MeshGenerator.MergePass | crates/rg_terrain/src/surface/mesh.rs:272-340 | one pass keeps the old vertices, appends at most four per block, and only rejects old index slots |
| SurfaceMesh.MeshGenerator.MergeAllQuads | crates/rg_terrain/src/surface/mesh.rs:73-76 | the four passes keep the old vertices, append at most 4·(4 + 16 + 64 + 256), and leave every old index slot either unchanged or u32::MAX |
| SurfaceMesh.MeshGenerator.RemoveRejectedTriangles | crates/rg_terrain/src/surface/mesh.rs:342-344 | the rejected triangles are dropped and every index stays in range |
| SurfaceMesh.MeshGenerator.CleanupTriangles | crates/rg_terrain/src/surface/mesh.rs:227-244 | no degenerate triangle survives and every other triangle is kept |
| SurfaceMesh.MeshGenerator.Deduplicate | crates/rg_terrain/src/surface/mesh.rs:346-383 | vertices are renumbered in first-use order and each index still names the same vertex data |
| SurfaceMesh.MeshGenerator.ApplyScale | crates/rg_terrain/src/surface/mesh.rs:385-392 | every position is scaled by the tile size |
| SurfaceMesh.MeshGenerator.Generate | crates/rg_terrain/src/surface/mesh.rs:67-86 | the finished mesh has every index in range and no two equal vertices |
| Mesher.Wrap32 | crates/rg_terrain/src/mesher.rs:465 | the `as u32` index cast is the count modulo 2^32, which is the count itself whenever it fits |
| Mesher.MeshBuilder.Vertex | crates/rg_terrain/src/mesher.rs:464-469 | `vertex` returns the previous vertex count and appends one position and an up normal |
| Mesher.MeshBuilder.TriangleIndices | crates/rg_terrain/src/mesher.rs:471-473 | `triangle_indices` appends the three indices |
| Mesher.MeshBuilder.Triangle | crates/rg_terrain/src/mesher.rs:475-480 | `triangle` appends three vertices and one triangle naming them, keeping every index in range |
| Mesher.MeshBuilder.MapPositions | crates/rg_terrain/src/mesher.rs:482-486 | `map_positions` applies f to every position and to nothing else |
| Mesher.MeshBuilder.ApplyTranslation | crates/rg_terrain/src/mesher.rs:488-490 | every position is translated by t |
| Mesher.MeshBuilder.ApplyScale | crates/rg_terrain/src/mesher.rs:492-494 | every position is scaled by s |
| Mesher.MeshBuilder.Append | crates/rg_terrain/src/mesher.rs:496-502 | `append` moves the other builder's vertices over, shifts its indices by the old vertex count and empties it |
| Mesher.AppendInRange | crates/rg_terrain/src/mesher.rs:496-502 | shifted indices of an in-range builder stay in range of the combined one |
| Mesher.EmittedWinding | crates/rg_terrain/src/mesher.rs:207-217 | the emitted triangle has the opposite winding to the case's triangle under every transform |
| Mesher.WallTopY | crates/rg_terrain/src/mesher.rs:248-253 | the wall top is the lowest height above the level at that point of the cell, or 1000 |
| Mesher.ScanWallTop | crates/rg_terrain/src/mesher.rs:248-253 | the scan over the cell's vertices computes that wall top |
| Mesher.CasesFaceUp | crates/rg_terrain/src/mesher.rs:263-363 | every ground triangle of every case is wound counter-clockwise in the canonical cell |
| Mesher.NeighborPosUnique | crates/rg_terrain/src/mesher.rs:383-388 | at most one neighbour direction maps a cell outside the chunk into the chunk |
| Mesher.NeighborPosExists | crates/rg_terrain/src/mesher.rs:383-388 | a cell within one chunk of this one but outside it lies in exactly one neighbour chunk |
| Mesher.MeshGenerator.NeighborHeight | crates/rg_terrain/src/mesher.rs:383-390 | the loop returns the height from the first neighbour whose chunk holds the cell, or 0 |
| Mesher.MeshGenerator.GetHeight | crates/rg_terrain/src/mesher.rs:378-391 | `get_height` reads the chunk's own map inside it, a neighbour's map past its edge, and 0 beyond |
| Mesher.MeshGenerator.QuantizedHeight | crates/rg_terrain/src/mesher.rs:393-395 | the quantised height lies at most one step below the height: r ≤ h < r + step |
| Mesher.MeshGenerator.Corners | crates/rg_terrain/src/mesher.rs:69-72 | the corners, top-left, top-right, bottom-right, bottom-left, are each at most one step below the height at that grid point |
| Mesher.MeshGenerator.BorderHeight | crates/rg_terrain/src/mesher.rs:378-391 | past the edge, the height comes from the unique neighbour chunk holding the cell |
| Mesher.MeshGenerator.MsTriangle3d | crates/rg_terrain/src/mesher.rs:207-217 | transformed corners are appended, b and c swapped unless flip_x xor flip_y, as one in-range triangle |
| Mesher.MeshGenerator.MsQuad3d | crates/rg_terrain/src/mesher.rs:219-222 | a quad is two emitted triangles (a, b, c) and (a, c, d) |
| Mesher.MeshGenerator.MsWall | crates/rg_terrain/src/mesher.rs:241-261 | with no corner above, nothing is drawn; otherwise a quad from the level up to the wall top |
| Mesher.MeshGenerator.DrawShape | crates/rg_terrain/src/mesher.rs:224-261 | a triangle appends its three emitted corners, a quad its six, and a wall six only when a corner lies above the level; old data is kept |
| Mesher.MeshGenerator.DrawShapes | crates/rg_terrain/src/mesher.rs:263-362 | a case routine appends exactly the sum of its calls' vertex counts, within the shape budget |
| Mesher.MeshGenerator.TransformMasks | crates/rg_terrain/src/mesher.rs:166-189 | the three masks are permuted with the current flags and stay a partition |
| Mesher.MeshGenerator.MarchingSquares | crates/rg_terrain/src/mesher.rs:110-164 | masks 1..15 get the flags of their canonical case, are transformed to it and drawn; any other mask draws nothing |
| Mesher.MeshGenerator.DrawLevels | crates/rg_terrain/src/mesher.rs:77-107 | the level loop visits each distinct sorted height once, the first with up_height top + 100 |
| Mesher.MeshGenerator.DrawCornerLevel | crates/rg_terrain/src/mesher.rs:87-104 | one level turn sets height and up_height; the level's mask becomes its canonical case under the flags it calls for, the masks partition the corners, and the cell builder only grows |
| Mesher.MeshGenerator.GenerateCell | crates/rg_terrain/src/mesher.rs:68-108 | the cell's levels are its distinct quantised corner heights, top down, and the cell builder only grows |
| Mesher.MeshGenerator.GenerateOne | crates/rg_terrain/src/mesher.rs:53-57 | one cell is drawn, translated into place and appended, leaving the cell builder empty |
| Mesher.MeshGenerator.GenerateColumn | crates/rg_terrain/src/mesher.rs:52-58 | one column appends its cells to the chunk builder within R cell budgets and leaves the cell builder empty |
| Mesher.MeshGenerator.Generate | crates/rg_terrain/src/mesher.rs:48-66 | the chunk's builder holds whole triangles whose indices are all in range, within R·R cell budgets |
| TerrainGenerator.MeshBuilder.Vertex | crates/rg_terrain/src/generator.rs:37-43 | `vertex` returns the previous count and appends a position, an up normal and a zero uv |
| TerrainGenerator.MeshBuilder.Triangle | crates/rg_terrain/src/generator.rs:37-54 | `triangle` appends three vertices and the triangle of their counts cast to `u32` (wrapping mod 2^32), which is (n, n+1, n+2) while the count fits |
| TerrainGenerator.MeshBuilder.Quad | crates/rg_terrain/src/generator.rs:37-63 | `quad` appends four vertices and the triangles (a, b, c), (a, c, d) over their counts cast to `u32` (wrapping mod 2^32), which are (n, n+1, n+2), (n, n+2, n+3) while the count fits |
| TerrainGenerator.MeshBuilder.ApplyTranslation | crates/rg_terrain/src/generator.rs:65-69 | every position is translated by t |
| TerrainGenerator.MeshBuilder.ApplyScale | crates/rg_terrain/src/generator.rs:71-75 | every position is scaled by s |
| TerrainGenerator.GridIndicesInRange | crates/rg_terrain/src/generator.rs:6-26 | the grid's indices form whole triangles, each naming only the four vertices of its own quad |
| TerrainGenerator.QuadWinding | crates/rg_terrain/src/generator.rs:15-19 | both triangles of a cell's quad have the same winding |
| TerrainGenerator.GenerateColumn | crates/rg_terrain/src/generator.rs:9-20 | one column of the loop appends that column's quads and nothing else |
| TerrainGenerator.Generate | crates/rg_terrain/src/generator.rs:6-26 | the mesh has 4·R² vertices, 6·R² indices, cell positions scaled by CHUNK_SIZE / R, up normals and zero uvs |
| ChunkMaps.MapIndex | crates/rg_terrain/src/map.rs:57-59 | a point inside the chunk has a column-major index below res² |
| ChunkMaps.IndexInjective | crates/rg_terrain/src/map.rs:57-59 | distinct points inside the chunk have distinct indices |
| ChunkMaps.ChunkMap.Get | crates/rg_terrain/src/map.rs:21-23 | `get` reads slot x·res + y and is defined whenever that slot exists, not only inside the chunk; the value read is one of the stored values |
| ChunkMaps.GetAliases | crates/rg_terrain/src/map.rs:57-59 | the index is not checked against the chunk: a point with y ≥ res reads the same slot as (x + 1, y − res) |
| ChunkMaps.ChunkMap.constructor | crates/rg_terrain/src/map.rs:15-19 | `new` holds res² copies of fill |
| ChunkMaps.ChunkMap.Clone | crates/rg_terrain/src/map.rs:9-12 | a clone is a new map with the same contents |
| ChunkMaps.ChunkMap.MakeMut | crates/rg_terrain/src/map.rs:25-29 | `make_mut` yields a writer for this map |
| ChunkMaps.ChunkMapRefMut.Get | crates/rg_terrain/src/map.rs:44-46 | `get` through a writer reads slot x·res + y of the map it was made from |
| ChunkMaps.ChunkMapRefMut.Set | crates/rg_terrain/src/map.rs:52-54 | a write sets slot x·res + y and leaves every other slot; for a point inside the chunk, every other point of the chunk reads what it read before |
| ChunkMaps.SlotUpdate | crates/rg_terrain/src/map.rs:52-54 | updating one slot changes no other point's slot |
| ChunkMaps.WriteOneClone | crates/rg_terrain/src/map.rs:25-29 | writing to one of two clones leaves the other unchanged |
| Chunk.RoundClose | crates/rg_terrain/src/chunk.rs:191 | rounding moves a value by at most one half |
| Chunk.ChunkPosToWorld | crates/rg_terrain/src/chunk.rs:47-49 | a chunk's corner is at the world origin exactly when it is the origin chunk |
| Chunk.TilePosToWorld | crates/rg_terrain/src/chunk.rs:51-53 | tile (0, 0) sits at its chunk's corner, and the square of every tile of the chunk lies inside the chunk's square |
| Chunk.TilesCoverChunk | crates/rg_terrain/src/chunk.rs:47-53 | tile 0 sits at the chunk's corner, every tile lies inside its chunk, and tile CHUNK_TILES is the next chunk's corner |
| Chunk.Chunks.Insert | crates/rg_terrain/src/chunk.rs:91-93 | `insert` maps pos to the entity, overwriting, and nothing else |
| Chunk.Chunks.Contains | crates/rg_terrain/src/chunk.rs:95-97 | `contains` holds exactly when `get` finds an entity |
| Chunk.Chunks.Get | crates/rg_terrain/src/chunk.rs:99-101 | `get` is None exactly for an unregistered position, and otherwise the entity registered there |
| Chunk.Chunks.GetNeighbors | crates/rg_terrain/src/chunk.rs:103-105 | the eight slots hold the entities at pos + NEIGHBORHOOD_8[i], None where absent |
| Chunk.Chunks.Remove | crates/rg_terrain/src/chunk.rs:107-109 | `remove` deletes pos and changes no other entry |
| Chunk.Chunks.Retain | crates/rg_terrain/src/chunk.rs:111-113 | `retain` keeps exactly the entries satisfying f, unchanged |
| Chunk.Chunks.SpawnColumn | crates/rg_terrain/src/chunk.rs:131-157 | one column of the scan adds every missing position of that column within the radius, and nothing else |
| Chunk.Chunks.SpawnChunks | crates/rg_terrain/src/chunk.rs:116-159 | existing chunks are kept; exactly the missing positions of the square within the radius are spawned, each once |
| Chunk.Chunks.DespawnChunks | crates/rg_terrain/src/chunk.rs:161-182 | exactly the chunks beyond the despawn radius are removed |
| Chunk.World.UpdateOrigin | crates/rg_terrain/src/chunk.rs:184-206 | a zero shift changes nothing; otherwise the origin moves by the shift, every transform and the centre move by the matching translation, and the centre ends within half a chunk |
| Chunk.RecenterBound | crates/rg_terrain/src/chunk.rs:191-202 | subtracting the rounded chunk count leaves a coordinate within half a chunk |
| Chunk.ShiftKeepsChunkPlaces | crates/rg_terrain/src/chunk.rs:184-206 | moving the origin and translating by the shift leaves every chunk's place unchanged |
| EarlyChunks.NeighborDirsExact | crates/rg_terrain/src/chunks.rs:30-39 | `NEIGHBOR_DIRS` holds each of the eight non-zero offsets in {-1, 0, 1}² exactly once |
| EarlyChunks.Chunks.Insert | crates/rg_terrain/src/chunks.rs:10-12 | `insert` maps pos to the entity |
| EarlyChunks.Chunks.Get | crates/rg_terrain/src/chunks.rs:14-16 | `get` is None exactly for an unregistered position, and otherwise the entity registered there |
| EarlyChunks.Chunks.GetNeighbors | crates/rg_terrain/src/chunks.rs:18-23 | slot i holds (pos + dir i, its entity) when present, None otherwise |
| EarlyChunks.Chunks.Remove | crates/rg_terrain/src/chunks.rs:25-27 | `remove` deletes pos and changes no other entry |
| EarlyChunks.NeighborsAreAdjacentChunks | crates/rg_terrain/src/chunks.rs:18-23 | every reported neighbour is a registered adjacent chunk, and every registered adjacent chunk is reported |
| Poisson.PointInCell | crates/rg_terrain/src/poisson.rs:29-31 | `cell_pos` gives the cell whose square, [c·s, c·s + s) on each axis, holds the point |
| Poisson.CellIndex | crates/rg_terrain/src/poisson.rs:33-35 | an inside cell's index lies in its column's run [x·res, x·res + res) |
| Poisson.CellIndexInRange | crates/rg_terrain/src/poisson.rs:33-42 | an inside cell's index is below res² |
| Poisson.CellIndexInjective | crates/rg_terrain/src/poisson.rs:33-42 | distinct inside cells have distinct indices |
| Poisson.UnitPointInside | crates/rg_terrain/src/poisson.rs:16-23 | with res = ceil(1 / cell_size), every point of the unit square falls in an inside cell |
| Poisson.PoissonGrid.constructor | crates/rg_terrain/src/poisson.rs:16-23 | `new` has resolution ≥ 1 and every slot empty (NaN) |
| Poisson.PoissonGrid.Get | crates/rg_terrain/src/poisson.rs:50-58 | `get` is None outside the grid and the stored point (None for NaN) inside |
| Poisson.PoissonGrid.Add | crates/rg_terrain/src/poisson.rs:44-48 | `add` stores the point in its own cell and changes no other cell |
| Poisson.ScanNearIff | crates/rg_terrain/src/poisson.rs:65-78 | the nested loop returns true iff some stored point in the scanned square is within the radius |
| Poisson.PoissonGrid.HasNear | crates/rg_terrain/src/poisson.rs:60-81 | as written: true iff a stored point in the 3×3 cells around the point is closer than min_radius |
| Poisson.PoissonGrid.HasNearCorrected | crates/rg_terrain/src/poisson.rs:60-81 | corrected: the same test over the 5×5 cells around the point |
| Poisson.SameCellClose | crates/rg_terrain/src/poisson.rs:87 | two points in one cell of side r/√2 are closer than r |
| Poisson.NearWithinTwoCells | crates/rg_terrain/src/poisson.rs:87 | points closer than r = √2·cell_size are at most two cells apart on each axis |
| Poisson.HasNearMissesTwoCellsAway | crates/rg_terrain/src/poisson.rs:65-66 | with cell size 0.25 and r² = 0.125, a stored (0.225, 0.125) is within r of (0.525, 0.125) but the 3×3 scan misses it |
| Poisson.HasNearCorrectedFindsTwoCellsAway | crates/rg_terrain/src/poisson.rs:65-66 | the 5×5 scan finds that stored point |
| Poisson.FarFromAccepted | crates/rg_terrain/src/poisson.rs:111-115 | when the corrected test finds nothing, the candidate is at least r from every accepted point |
| Poisson.GridSeparated | crates/rg_terrain/src/poisson.rs:84-122 | any two stored points are at least r apart |
| Poisson.TryNeighbors | crates/rg_terrain/src/poisson.rs:100-116 | corrected (see Findings): the try loop draws between one and MAX_TRIES candidates; every rejected one was out of range or had a near point under the 5×5 test, the last drawn is returned exactly when it is in range with no near point, and None comes only after MAX_TRIES draws |
| Poisson.AcceptCandidate | crates/rg_terrain/src/poisson.rs:111-115 | accepting a candidate pushes it, stores it and fills one more empty slot, keeping the sampler invariant |
| Poisson.PoissonDiscSampling | crates/rg_terrain/src/poisson.rs:84-122 | the seed is accepted first; every later point lies in the sampling range; accepted points are pairwise at least min_radius apart and are exactly the stored points |
| Navigation.NavMeshSizeValue | crates/rg_navigation/src/generator.rs:12 | `NAVMESH_SIZE` is 2·CHUNK_TILES = 64 |
| Navigation.ConnectionsBits | crates/rg_navigation/src/generator.rs:172-192 | bit i is set iff both cells have heights, neighbour i is in bounds and the heights differ by at most climb_height; a NaN cell has no bits; only the low four bits are used |
| Navigation.ConnectionsSymmetric | crates/rg_navigation/src/generator.rs:180-188 | the link from c in direction i is set iff the link back from the neighbour in direction (i + 2) mod 4 is set |
| Navigation.CellConnections | crates/rg_navigation/src/generator.rs:173-191 | the per-cell loop computes that connection byte |
| Navigation.ScanDone | crates/rg_navigation/src/generator.rs:180-189 | the or-ing loop over `neighborhood_4` ends with exactly the linked directions' bits |
| Navigation.GenerateConnections | crates/rg_navigation/src/generator.rs:169-193 | the result has the height map's shape and every cell holds its connection byte |
| BehaviorTrees.AtMostOneParent | crates/rg_ai/src/behavior_tree.rs:63-67 | in a well-linked tree, where every child records its parent, no node is listed as a child by two different parents |
| BehaviorTrees.LinkKeepsWellLinked | crates/rg_ai/src/behavior_tree.rs:63-67 | linking a parentless node under a parent, which appends it to the parent's children and records the parent, keeps the parent/child links consistent |
| BehaviorTrees.BehaviorTree.AddNode | crates/rg_ai/src/behavior_tree.rs:57-61 | the new node's id is the old node count; the node is appended with no parent and no children; a consistent tree stays consistent |
| BehaviorTrees.BehaviorTree.AddChild | crates/rg_ai/src/behavior_tree.rs:63-67 | the child is appended to the parent's children and records the parent; every action, every other children list and every other parent is unchanged; a consistent tree stays consistent |
| BehaviorTrees.Behavior.constructor | crates/rg_ai/src/behavior_tree.rs:351-357 | a behaviour built from a node's pass starts with the command Continue and takes the node id, the child count and the child's result from the pass |
| BehaviorTrees.Behavior.RunChild | crates/rg_ai/src/behavior_tree.rs:191-193 | the command becomes RunChild of the given index; the action state is unchanged |
| BehaviorTrees.Behavior.ReportSuccess | crates/rg_ai/src/behavior_tree.rs:195-199 | the command becomes Exit(Success); the action state is unchanged |
| BehaviorTrees.Behavior.ReportFailure | crates/rg_ai/src/behavior_tree.rs:201-205 | the command becomes Exit(Failure); the action state is unchanged |
| BehaviorTrees.Behavior.HasReturnedFromChild | crates/rg_ai/src/behavior_tree.rs:179-181 | a child has returned exactly when its result is Success or Failure |
| BehaviorTrees.Behavior.ChildFailed | crates/rg_ai/src/behavior_tree.rs:183-185 | a failed child has returned, and not with Success |
| BehaviorTrees.ChildOutcomes | crates/rg_ai/src/behavior_tree.rs:179-189 | corrected (see Findings): a child has returned exactly when it either failed or succeeded, and never both |
| BehaviorTrees.ChildSucceededAsWrittenIsFailure | crates/rg_ai/src/behavior_tree.rs:187-189 | the source's child_succeeded holds exactly when the child failed: it is true for a failed child and false for a succeeded one |
| BehaviorTrees.InitializeAgent | crates/rg_ai/src/behavior_tree.rs:285-310 | an agent without a tree gets nothing; an agent with one gets a fresh stack holding the root's action and a fresh flag that is not yet set |
| BehaviorTrees.ResetInstantiatedFlag | crates/rg_ai/src/behavior_tree.rs:315-321 | after the reset the instantiated flag is cleared |
| BehaviorTrees.RemoveStaleAgent | crates/rg_ai/src/behavior_tree.rs:361-372 | an agent with a behaviour of the system's kind but no tree loses the behaviour, its stack and its flag; every other agent keeps all three; afterwards a behaviour of that kind implies a tree |
| BehaviorTrees.InstantiateBehavior | crates/rg_ai/src/behavior_tree.rs:323-359 | a behaviour is created only when the flag is clear and the action on top of the stack is of the system's kind; it is then popped, the flag is set, and a passing agent becomes a running one; otherwise nothing changes |
| BehaviorTrees.TransitionBehavior | crates/rg_ai/src/behavior_tree.rs:222-283 | Continue leaves the stack alone; Exit with an empty stack restarts at the root; Exit otherwise passes the result to the parent and leaves the stack unchanged (instantiation pops it later); RunChild pushes the node's action and then the child's; each outcome leaves the agent in a consistent passing state |
| BehaviorTrees.ParentOnPath | crates/rg_ai/src/behavior_tree.rs:222-283 | on a root-to-node path of length two or more, the last node's parent is the node before it, and dropping the last node leaves a path |
| Actions.ProcessSequenceUntilFailure | crates/rg_ai/src/actions.rs:36-51 | a failed child fails the sequence; otherwise the next child runs and the index advances by one, and once every child has run the sequence succeeds; the index never passes the child count and a requested child exists |
| Actions.SequenceTwoFramesSkipsFirstChild | crates/rg_ai/src/actions.rs:28-53 | as scheduled: two runs of the process system on a fresh sequence request child 1 and leave the index at 2, so child 0 is never requested |
| Actions.SequenceOneStepRunsFirstChild | crates/rg_ai/src/actions.rs:36-53 | corrected (see Findings): one run on a fresh sequence requests child 0 and moves the index to 1 |
| Actions.ProcessSequenceUntilSuccess | crates/rg_ai/src/actions.rs:67-82 | corrected (see Findings): a succeeded child succeeds the sequence; otherwise the next child runs and the index advances, and once every child has run the sequence fails; a requested child exists |
| Actions.ProcessSequenceUntilSuccessAsWritten | crates/rg_ai/src/actions.rs:67-82 | with the source's child_succeeded, a failed child ends the sequence with success and a succeeded child starts the next one |
| Actions.ProcessAlwaysSucceed | crates/rg_ai/src/actions.rs:96-104 | with no children, or once the child has returned, the node succeeds whatever the child did; otherwise it runs child 0 |
| Actions.ProcessAlwaysFail | crates/rg_ai/src/actions.rs:118-126 | with no children, or once the child has returned, the node fails whatever the child did; otherwise it runs child 0 |
| Actions.Inverse | crates/rg_ai/src/actions.rs:146-150 | the inverted result always differs from the given one |
| Actions.InverseInvolutive | crates/rg_ai/src/actions.rs:146-150 | inverting twice gives the result back |
| Actions.ProcessInvertResult | crates/rg_ai/src/actions.rs:140-153 | corrected (see Findings): child 0 runs until it returns; then the node reports the opposite of the child's result |
| Actions.ProcessInvertResultAsWritten | crates/rg_ai/src/actions.rs:140-153 | with the source's child_succeeded, the node reports the child's own result rather than its opposite |
| Actions.ProcessSleep | crates/rg_ai/src/actions.rs:166-174 | while the remaining time covers the tick it shrinks by exactly the tick and the command is unchanged; otherwise the sleep succeeds; the remaining time never grows |
| Actions.ProcessLogMessage | crates/rg_ai/src/actions.rs:190-197 | the node succeeds on its first tick and keeps its action state |
| Progress.Unpack | crates/rg_core/src/progress.rs:169-172 | a 64-bit counter splits into a task half and a subtask half, each below 2^32, that pack back into the counter |
| Progress.UnpackPack | crates/rg_core/src/progress.rs:169-172 | packing a task and a subtask count, each below 2^32, gives a 64-bit counter that unpacks to the same pair |
| Progress.LerpBounds | crates/rg_core/src/progress.rs:193-195 | placing a fraction in a baked range gives the range's start at 0 and its end at 1, and stays within the range for fractions in [0, 1] |
| Progress.ToU32 | crates/rg_core/src/progress.rs:198 | the float-to-u32 cast saturates: it never exceeds u32::MAX, never exceeds a non-negative input, and is within one below inputs under u32::MAX |
| Progress.ToU32Monotone | crates/rg_core/src/progress.rs:198 | the float-to-u32 cast never decreases as its input grows |
| Progress.ToU32Whole | crates/rg_core/src/progress.rs:198 | casting a whole number that fits a u32 gives that number |
| Progress.Max | crates/rg_core/src/progress.rs:198 | the larger of two floats bounds both and is one of them |
| Progress.StageToU32 | crates/rg_core/src/progress.rs:116-120 | a stage converts to its declaration index, and the index names that stage back |
| Progress.StageFromFinds | crates/rg_core/src/progress.rs:122-132 | testing the stages in declaration order from the k-th finds the stage with index v when v is a later index, and fails with "invalid stage" past the last variant |
| Progress.StageFromU32 | crates/rg_core/src/progress.rs:122-132 | `try_from` succeeds exactly for an index below the variant count, and gives the variant with that index |
| Progress.StageRoundTrip | crates/rg_core/src/progress.rs:116-132 | converting a stage to u32 and back gives the same stage |
| Progress.StageFromU32Spec | crates/rg_core/src/progress.rs:122-132 | a u32 converts to a stage exactly when it is a variant's index, and that stage converts back to it; any other value gives "invalid stage" |
| Progress.ProgressTracker.constructor | crates/rg_core/src/progress.rs:146-155 | the stage, counter, subtask count and stored progress all start at 0; the baked ranges are the given ones |
| Progress.ProgressTracker.TaskSubtask | crates/rg_core/src/progress.rs:169-172 | the task and subtask halves each fit a u32 and pack back into the counter |
| Progress.ProgressTracker.SetStage | crates/rg_core/src/progress.rs:157-159 | the stage becomes the given one; the counter, subtask count and stored progress are unchanged |
| Progress.ProgressTracker.BeginTask | crates/rg_core/src/progress.rs:205-211 | the subtask half of the counter is cleared and the task half kept, and the subtask count recorded; the stage and stored progress are unchanged |
| Progress.ProgressTracker.SubtaskCompleted | crates/rg_core/src/progress.rs:213-215 | the counter grows by one modulo 2^64; below the 32-bit limit this counts one more subtask of the same task |
| Progress.ProgressTracker.EndTask | crates/rg_core/src/progress.rs:217-222 | the counter grows by 2^32 modulo 2^64; below the limit this moves to the next task keeping the subtask half |
| Progress.ProgressTracker.OldProgress | crates/rg_core/src/progress.rs:174-176 | the stored progress read as a fraction of u32::MAX lies in [0, 1] |
| Progress.ProgressTracker.GetProgress | crates/rg_core/src/progress.rs:178-203 | without baked ranges for the current stage and task the stored progress is returned; otherwise the subtask fraction placed in the task's range and then the stage's range is returned and the larger of it and the stored progress is stored; the stored progress never decreases |
| Progress.ProgressWriter.SetStage | crates/rg_core/src/progress.rs:56-58 | the tracker's stage becomes the stage's index, which reads back as that stage; nothing else changes |
| Progress.ProgressWriter.Task | crates/rg_core/src/progress.rs:73-78 | the callback's result is returned; the task was begun with one subtask and ended, so the task half advances by one and the subtask half is cleared |
| Progress.ProgressWriter.MultiTask | crates/rg_core/src/progress.rs:60-71 | the callback's result is returned; the task was begun with the given subtask count, every completion in the callback was counted, and the task half advanced by one |
| Progress.ProgressReader.Stage | crates/rg_core/src/progress.rs:38-43 | the stage read back is the one whose index the tracker holds |
| Biomes.BiomeByte | crates/rg_worldgen/src/biomes.rs:9-15 | a biome's u8 discriminant is at most 2 |
| Biomes.BiomeByteInjective | crates/rg_worldgen/src/biomes.rs:9-15 | distinct biomes have distinct discriminants |
| Biomes.Classify | crates/rg_worldgen/src/biomes.rs:27-36 | a cell is ocean exactly when below sea level, and forest exactly when at or above it with noise over one half |
| Biomes.ClassifySpec | crates/rg_worldgen/src/biomes.rs:26-37 | the remaining case: a cell is plains exactly when at or above sea level with noise at most one half |
| Biomes.ClassifyMonotoneInNoise | crates/rg_worldgen/src/biomes.rs:31-36 | more noise never turns forest into plains, and the noise never decides whether a cell is ocean |
| Biomes.GenerateBiomeMap | crates/rg_worldgen/src/biomes.rs:17-41 | the biome map has the height map's size and cells, and each cell holds the class of its height and noise |
| Biomes.OceanIsBelowSeaLevel | crates/rg_worldgen/src/biomes.rs:26-37 | a cell of the biome map is ocean exactly when its height is below zero |
| Topography.ToI32 | crates/rg_worldgen/src/topography.rs:28 | the float-to-i32 cast saturates at the i32 bounds, and truncates a non-negative input to the whole number at most one below it |
| Topography.Thresholds | crates/rg_worldgen/src/topography.rs:27-31 | the k-th threshold is k times the iso step, for as many thresholds as the inclusive range up to trunc(max_height / iso_step) holds |
| Topography.ThresholdsSpec | crates/rg_worldgen/src/topography.rs:27-31 | for a positive step and a non-negative height the thresholds start at 0, number trunc(max_height / iso_step) + 1, increase strictly and lie in [0, max_height] |
| Topography.ThresholdsComplete | crates/rg_worldgen/src/topography.rs:27-31 | unless the quotient saturates, the next multiple of the step after the last threshold exceeds max_height, so no contour level is missed |
| Topography.StrokeWidth | crates/rg_worldgen/src/topography.rs:86 | a contour is stroked 1 or 2 wide |
| Topography.OnlyFirstIsWide | crates/rg_worldgen/src/topography.rs:86 | with a non-zero step, the stroke is 2 wide exactly for the first threshold, sea level |
| Topography.PixelBytesRepack | crates/rg_worldgen/src/topography.rs:101 | the three bytes taken from a pixel repack into the pixel with its top byte cleared, so no colour bit is lost |
| Topography.PixelGrid | crates/rg_worldgen/src/topography.rs:97-104 | the result is a grid of the map's size at the zero origin whose cell i holds the bytes of pixel i |
| DevOverlay.DevOverlaySettings.constructor | crates/rg_dev_overlay/src/lib.rs:11 | the overlay starts disabled |
| DevOverlay.GizmoConfig.constructor | crates/rg_dev_overlay/src/lib.rs:12-19 | the gizmos start disabled |
| DevOverlay.HandleInput | crates/rg_dev_overlay/src/lib.rs:41-51 | a press of F3 flips the overlay setting and no press keeps it; the gizmos end up enabled exactly when the overlay is |
| DevOverlay.KeepLast | crates/rg_dev_overlay/src/lib.rs:69-73 | the kept points are the last min(n, 100) points of the sequence |
| DevOverlay.SumFrameTimesBounds | crates/rg_dev_overlay/src/lib.rs:56-65 | n frame times within [lo, hi] sum to between n·lo and n·hi |
| DevOverlay.FrameTimePoints.constructor | crates/rg_dev_overlay/src/lib.rs:20 | the buffer starts empty |
| DevOverlay.FrameTimePoints.RecordFrameTime | crates/rg_dev_overlay/src/lib.rs:67-74 | the buffer becomes the last at most 100 points of the old buffer with the new point appended, in order, ending with the new point |
| DevOverlay.FrameTimePoints.AvgFrameTime | crates/rg_dev_overlay/src/lib.rs:56-65 | the average of an empty buffer is 0; otherwise the average times the point count is the sum of the frame times |
| DevOverlay.AvgFrameTimeBounds | crates/rg_dev_overlay/src/lib.rs:56-65 | with every frame time within [lo, hi], so is the average of a non-empty buffer |
| SurfaceMesh.MsTriangle | crates/rg_terrain/src/surface/mesh.rs:572-578 | drawing a triangle keeps the buffers well formed, only extends them, and adds exactly three vertices |
| SurfaceMesh.MsQuad | crates/rg_terrain/src/surface/mesh.rs:580-587 | drawing a quad keeps the buffers well formed, only extends them, and adds exactly four vertices |
| SurfaceMesh.MeshGenerator.constructor | crates/rg_terrain/src/surface/mesh.rs:42-65 | a new generator holds the given height map, empty buffers and tile tables, and cleared masks, flags and heights |
| SurfaceMesh.MeshGenerator.SelectCase | crates/rg_terrain/src/surface/mesh.rs:419-480 | the flags chosen are the ones the mask calls for, all three masks are permuted by them, a mask in 1..15 becomes canonical, and a partition of the corners stays a partition |
| SurfaceMesh.MeshGenerator.FinishMesh | crates/rg_terrain/src/surface/mesh.rs:77-80 | after dropping rejected and degenerate triangles, sharing vertices and scaling, every index names a vertex and no two vertices are equal |
| Mesher.MeshBuilder.constructor | crates/rg_terrain/src/mesher.rs:456-461 | a default builder has no positions, normals or indices |
| Mesher.MeshGenerator.constructor | crates/rg_terrain/src/mesher.rs:29-46 | a new generator holds the given height maps, two distinct empty builders, a height step of 0.1 and cleared masks, flags and heights |
| TerrainGenerator.MeshBuilder.constructor | crates/rg_terrain/src/generator.rs:28-34 | a default builder has no positions, normals, texture coordinates or indices |
| BehaviorTrees.BehaviorTree.constructor | crates/rg_ai/src/behavior_tree.rs:53-55 | a new tree has no nodes |
| Chunk.Chunks.constructor | crates/rg_terrain/src/chunk.rs:85-87 | the registry starts empty |
| Rivers.Heap.constructor | crates/rg_worldgen/src/rivers.rs:40 | the queue starts empty |
| Mesher.MeshGenerator.SelectCase | crates/rg_terrain/src/mesher.rs:115-162 | a mask in 1..15 gets the flags its case calls for and becomes that case's canonical mask; the up and down masks are permuted by the same flags and a partition of the corners stays a partition |

## Left out

- Floating-point rounding, infinities and NaN propagation: f32 and f64 values are exact reals. NaN appears only where the source uses it as a marker, and then as `None`.
- Random draws are oracle parameters: `gen_bool`, the Poisson seed and disc offsets, and the noise fields the island and biome code sample. The `normalize` square root in rivers.rs is a parameter too.
- Foreign crates are not part of this model:
  - Delaunay triangulation and point generation in rivers.rs (positions, heights and neighbour lists are inputs);
  - contour tracing and raqote drawing (topography.rs: the drawn image is a parameter; rivers.rs `draw_rivers`);
  - rapier colliders and heightfields (`create_collider`, the navigation heightmap);
  - Bevy mesh assembly (`create_mesh`, mesher.rs `build`);
  - serde, zstd and image file I/O.
- Floating-point numerics of surface/mesh.rs are not part of this model: `snap_cell_vertices`, `compute_colors`, `compute_cell_normals` and `snap_normals`. `SurfaceMesh.MeshGenerator.Generate` runs the remaining passes in the source's order. mesher.rs `compute_normals` is not modelled either.
- The ECS scheduling around the meshers is not modelled: mesher.rs `schedule_system` and `update_system`, and the Bevy systems that spawn and despawn chunk entities beyond their map updates.
- `generate_erosion_map`, `apply_erosion`, `draw_rivers`, `points_to_path`, `thomas_algorithm` and `aa_line` in rivers.rs are floating-point geometry and are not modelled.
- rayon `par_*` iterators are modelled as their sequential equivalents. The progress atomics are plain fields, and sharing them through `Arc` is not modelled.
- Timing samples and baked-sample I/O in progress.rs (`sample_begin_task`, `sample_end_task`, `BakedSamples` load and save, `ProgressWriter::finish`) are not modelled. `ProgressReader::percentage` is a multiplication of `get_progress` by 100 and is not modelled.
- Drawing the developer overlay (`ui_left_side`) and the `is_enabled` run condition are Bevy UI and are not modelled.
- LogMessage's log line is not modelled. `remove_stale_agents` is modelled for one agent (BehaviorTrees.RemoveStaleAgent); the ECS query that visits every agent and the deferred commands are not.
- `CHUNK_RESOLUTION` is defined outside the modelled files, so it is a positive parameter. The navigation code's `CHUNK_TILES` is the 32 of crates/rg_terrain/src/chunk.rs:10 (`ChunkUnits.ChunkTiles`).
- BehaviorTrees.InitializeAgent requires a loaded tree to have a root node. The source's `get_node(NodeId::ROOT)` (behavior_tree.rs:295, indexing at behavior_tree.rs:70) panics on the empty tree that `BehaviorTree::new()` makes, and that panic is not modelled.
- TerrainGenerator.Generate requires the 4·R² vertices to fit in u32 indices. Past that, the source's `as u32` cast (generator.rs:38) wraps, which TerrainGenerator.MeshBuilder.Quad states for one quad; the whole-mesh contract with GridIndices is stated only below that bound (the value of `CHUNK_RESOLUTION` is not part of this model).
- The height of a quad in generator.rs is computed with `sin` and `cos`; here it is a parameter.
- Island.GenerateIslandMap: the unbounded retry loop is bounded by `fuel`. The contract says what any returned map satisfies, not that the loop ends.
- IslandShaping.ShapeIsland: the unbounded retry loop is bounded by `fuel`, for the same reason.
- IslandShaping.KeepOneIsland: the flip-and-relabel loop is bounded by `fuel`, since its termination is not evident from the source. `done` reports whether it exited on its own condition.
- Rivers.ComputeVolume and Rivers.ComputeStrahler require the drainage map to be acyclic: they take a rank that decreases downstream. As written, a height of exactly 0.0 can make a point both a seed start and a seed end, and then the memoised recursions of the source would not terminate (Rivers.SeaLevelPairCycles, see Findings). Rivers.DrainageRanked shows that with seeds ending strictly above sea level such a rank exists.
- Rivers.ComputeStrahler: orders are `nat`, not `u8`. The source's `max_val + 1` (rivers.rs:368-372) would overflow only at order 256, which needs about 2^254 sources.
- Progress.ProgressTracker.GetProgress: with zero subtasks the source divides by zero in f32, giving NaN or infinity. The model returns `None` and keeps the stored progress. For a positive subtask count an infinite fraction would instead saturate the stored value, which the model does not capture.
- Progress.ProgressWriter.MultiTask: the callback is modelled as a number of `subtask_completed` calls, and its result as a parameter.
- Progress.ProgressWriter.MultiTask and Progress.ProgressTracker.BeginTask require the subtask count to fit a u32. The source panics in `try_into().unwrap()` otherwise.
- Topography.Thresholds requires a non-zero iso step. With a zero step the source's f32 division gives infinity or NaN before the saturating cast, and that case is not modelled.
- Actions.ProcessInvertResult and Actions.ProcessAlwaysSucceed run child 0 without checking that it exists, as the source does. What the transition system then does with a missing child is a precondition of BehaviorTrees.TransitionBehavior.
- Actions.ProcessSequenceUntilSuccess: models the corrected `child_succeeded` (see Findings). The as-written behaviour is Actions.ProcessSequenceUntilSuccessAsWritten.
- Actions.ProcessInvertResult: models the corrected `child_succeeded` (see Findings). The as-written behaviour is Actions.ProcessInvertResultAsWritten.
- BehaviorTrees.ChildOutcomes: states the corrected `child_succeeded` (see Findings). The as-written predicate is described by BehaviorTrees.ChildSucceededAsWrittenIsFailure.
- The interleaving of the per-frame schedule (`Update`, where the actions' process systems run) with the fixed-step schedule (`FixedUpdate`, where remove-stale, transition, reset-flag and instantiate run) is not modelled. The model takes one process step between two transitions; Actions.SequenceTwoFramesSkipsFirstChild shows what two frames in one fixed step do (see Findings).
- Actions.ProcessSleep: durations are whole nanoseconds, where the source uses `Duration` and the tick's delta.
- Grids.Grid.TransposeInPlace: models the corrected transpose (see Findings). The source's `transpose_in_place` goes through `par_from_fn_with_origin`: on a non-empty grid it avoids an out-of-bounds panic only at the zero origin, and there it agrees with the corrected one (Grids.TransposeAsWrittenNeedsZeroOrigin).
- Poisson.TryNeighbors: tests candidates with the corrected 5×5 neighbourhood of `has_near` (see Findings). The source's 3×3 test is Poisson.PoissonGrid.HasNear.
- SurfaceMesh.MeshGenerator.MergeQuads requires the vertex count plus four per block to stay below u32::MAX. The source casts the vertex count to u32 and adds up to 3 to it, which would wrap or panic past that bound. `generate` always meets it: SurfaceMesh.MeshGenerator.MergeAllQuads starts from at most 32·32 tile budgets of vertices.
- ChunkMaps.ChunkMap.Get and ChunkMaps.ChunkMapRefMut.Set require the slot x·res + y to exist, which is where the source's array access would panic. Inside the chunk they also state what a point reads; outside it, ChunkMaps.GetAliases states the aliasing.
- ChunkMaps.WriteOneClone: a clone is a separate object with a copy of the data, so the property holds by construction. The `Arc` sharing that `make_mut` breaks is not modelled.
- Poisson.PoissonDiscSampling uses the corrected neighbourhood of `has_near` (see Findings). The separation it proves assumes `cell_size` is exactly min_radius/√2, that is 2·cell_size² = min_radius². The source computes it in f32.

## Findings

| source | as written | input that shows it | evidently intended | confidence | as-written member | corrected member |
|---|---|---|---|---|---|---|
| crates/rg_core/src/grid.rs:302 | the binary operators on two grids take the right-hand values from `self.values()`, so `a + b` combines `a` with itself (the same in crates/rg_core/src/grid/ops.rs:38) | 1×1 grids [1] + [2] give [2], not [3] | element i of the result is `lhs[i] op rhs[i]` | high, not executed | GridOps.BinaryOpAsWritten, GridOps.BinaryOpAsWrittenIgnoresRhs, GridOps.BinaryOpAsWrittenAddsSelf | GridOps.BinaryOp, GridOps.BinaryOpGet |
| crates/rg_ai/src/behavior_tree.rs:187-189 | `child_succeeded` tests for `Some(Failure)`, the same test as `child_failed` | a child that returned Failure: InvertResult reports Failure, and SequenceUntilSuccess succeeds | `child_succeeded` holds for `Some(Success)` | high, not executed | BehaviorTrees.ChildSucceededAsWrittenIsFailure, Actions.ProcessInvertResultAsWritten, Actions.ProcessSequenceUntilSuccessAsWritten | BehaviorTrees.ChildOutcomes, Actions.ProcessInvertResult, Actions.ProcessSequenceUntilSuccess |
| crates/rg_worldgen/src/rivers.rs:163-168 | seeds start at points with height ≤ 0 and end at neighbours with height ≥ 0 | two neighbouring points both at height 0.0: each is a seed start and a seed end, each drains into the other, and `compute_volume_at_point` and `compute_strahler_at_point` recurse without end | seeds end strictly above sea level, so the drainage forest is acyclic | medium, not executed | Rivers.SeaLevelPairCycles | Rivers.DrainageRanked, Rivers.DrainsRanked |
| crates/rg_ai/src/actions.rs:28-31 | the action process systems are added to `Update`, while transition and instantiate run in `FixedUpdate` | a fresh SequenceUntilFailure with two children and two frames in one fixed step: the second run replaces the request for child 0 by one for child 1, so child 0 never runs | one process step between two transitions, as the `Process` set's place in the fixed-step chain suggests | medium, not executed | Actions.SequenceTwoFramesSkipsFirstChild | Actions.SequenceOneStepRunsFirstChild, Actions.ProcessSequenceUntilFailure |
| crates/rg_grid/src/lib.rs:91-95 | `par_from_fn_with_origin` passes `f` the cell counted from zero, without adding the origin | a 1×1 grid at origin (1, 1): `transpose` calls `f` with (0, 0), which is outside the grid, and the lookup panics | `f` receives the cell origin + (x, y), as `from_fn_with_origin` does | high, not executed | Grids.ParFromFnIsShifted, Grids.TransposeAsWrittenPanicsAtOffset | Grids.Transpose, Grids.TransposeGet, Grids.TransposeTwice |
| crates/rg_terrain/src/poisson.rs:65-66 | `has_near` looks only at the 3×3 cells around the candidate's cell, but with cells of side min_radius/√2 a point nearer than min_radius can be two cells away | cell side 0.25 and min_radius² = 0.125: a stored point (0.225, 0.125) and a candidate (0.525, 0.125) are at squared distance 0.09 < 0.125, two columns apart, and `has_near` reports false | the search covers the 5×5 cells within two of the candidate's cell | medium, not executed | Poisson.HasNearMissesTwoCellsAway | Poisson.HasNearCorrectedFindsTwoCellsAway, Poisson.NearWithinTwoCells, Poisson.PoissonDiscSampling |

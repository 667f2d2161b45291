# Octree stage of the MMG3D grid-to-tetrahedral-mesh converter, in Dafny

This project models the octree stage of the converter in
`src/mmg3d/grid2tetmesh_3d.c` and proves properties of the model. It also
covers the bit-flag, tag and table macros of `sources/mmg3d.h` that come
with it.

The stage has four parts:

- **Depth computation** (`OctreeDepth`).
  - It takes the largest per-axis cell count.
  - The build stage applies one extra "dual grid" decrement; the coarsening stage does not.
  - The count is rounded up to a power of two by the bit-smearing idiom on a 32-bit int.
  - The depth is the logarithm of that power.
  - The two stages therefore disagree by one level exactly when the largest count minus one is a power of two (`DepthsDisagree`).
- **2:1 balance test** (`Neighbours`, `Balance`).
  - The neighbour coordinates of a cell are collected into an 18-slot table.
  - Each neighbour inside the domain is located by a descent through octant codes.
  - The merge is refused when the cell found is shallower than the cell to merge.
- **Coarsening pass** (`Coarsen`).
  - It recurses into the sons that are not leaves.
  - It raises the level-set flag `split_ls` of a cell whose sons are all leaves.
  - It merges such a cell when the flag stays clear and the balance test accepts.
  - The octree is a `class Octree` whose root tree is updated in place through son-index paths.
  - Its methods are proved against the specification function `CoarsenSub`.
- **Driver** (`Pipeline`). It runs the build, coarsening and tetrahedralisation stages, and the first stage that returns 0 ends the run.

The model follows the code as written. The following behaviours of the code are stated as lemmas:

- **Stale cursor.** The balance test sets its cursor `p` to the root once and never resets it. After a descent ends on a leaf, every later neighbour is looked up in that same leaf (`Balance.StaleCursor`).
- **Neighbour filter.** It tests coordinate values, not offsets.
  - On the diagonal x = y = z it records exactly the 18 face and edge neighbours (`Neighbours.DiagonalTable`).
  - Around (0,5,10) it records 19 triples into the 18-slot array.
  - Around (1,1,2) it records 17, leaving slot 17 unset (`Neighbours.OffDiagonalCounts`, `ApartTable`, `StepTable`).
  - The offset test it evidently aims at always gives 18 (`Neighbours.FaceEdgeTableFits`).
- **Stale `leaf_sum`.** The count is not recomputed after the recursion. A cell that had a non-leaf son on entry is never merged in the same pass, even when all its sons became leaves (`Coarsen.RecursionOnly`).
- **Son 7 ignored.** The flag test `i != nsons-1` ignores a flagged son 7.
  - A cell whose only flagged son is son 7 stays clear and can be merged.
  - A cell with no flagged son is flagged (`Coarsen.RaisesFlagMeaning`, `Coarsen.MergeConditions`).
- **Leaf root.** A root that is a leaf takes the scan branch and reads `sons[0]` of a cell with no sons (`Coarsen.LeafReachesScan`). The coarsening driver therefore requires a root with sons.
- **Pipeline always fails.** The tetrahedralisation stage is a stub returning 0, so the driver always returns 0 (`Pipeline.ConvertGridToTetMesh`).

Files: `wrappers.dfy` (Option), `mmg_macros.dfy`, `octree_depth.dfy`, `octree_cell.dfy` (cell record, shape invariant, paths), `neighbours.dfy`, `balance.dfy`, `coarsen.dfy`, `pipeline.dfy`.

## Model

| member | source | states |
|---|---|---|
| `MmgMacros.MgMax` | sources/mmg3d.h:24 | the result is one of the two arguments and is at least both |
| `MmgMacros.MgMin` | sources/mmg3d.h:25 | the result is one of the two arguments and is at most both |
| `MmgMacros.TagsAreSingleBits` | sources/mmg3d.h:63-70 | `MG_NOTAG` is 0; `MG_REF`..`MG_NUL` are bits 0..6 in order, pairwise disjoint |
| `MmgMacros.TagsOf` | sources/mmg3d.h:64-70 | the tag names whose mask meets the tag (definition; characterised by `TagsOfBits`) |
| `MmgMacros.TagBitMask` | sources/mmg3d.h:64-70 | the k-th tag name's mask meets a tag iff bit k of the tag is set |
| `MmgMacros.TagsOfBits` | sources/mmg3d.h:64-70 | the k-th tag name is decoded from a tag iff bit k of the tag is set (both directions) |
| `MmgMacros.Tag23` | sources/mmg3d.h:104-105 | tag 23 decodes to exactly REF, GEO, REQ, BDY, and their union is 23 |
| `MmgMacros.Edg` | sources/mmg3d.h:78 | `MG_EDG`: the tag has the GEO or the REF bit (definition; its meaning on bits is `EdgSinBits`) |
| `MmgMacros.Sin` | sources/mmg3d.h:79 | `MG_SIN`: the tag has the CRN or the REQ bit (definition; its meaning on bits is `EdgSinBits`) |
| `MmgMacros.EdgSinBits` | sources/mmg3d.h:78-79 | `MG_EDG` iff the REF or GEO bit is set; `MG_SIN` iff the REQ or CRN bit is set |
| `MmgMacros.SignedChar` | sources/mmg3d.h:104 | the value of a `char` tag lies in -128..127 and equals the bit pattern modulo 256, which is the two's-complement reading of the byte |
| `MmgMacros.Vok` | sources/mmg3d.h:76 | `MG_VOK`: the point exists and its tag, as a signed `char`, is below `MG_NUL` (definition; characterised by `VokMeaning`) |
| `MmgMacros.Eok` | sources/mmg3d.h:77 | `MG_EOK`: the element exists and its first vertex number is positive (definition; characterised by `EokMeaning`) |
| `MmgMacros.VokMeaning` | sources/mmg3d.h:76 | `MG_VOK` iff the point exists and its signed tag is below 64; for a non-negative tag iff the `MG_NUL` bit is clear |
| `MmgMacros.EokMeaning` | sources/mmg3d.h:77 | `MG_EOK` is false for a missing element and otherwise holds iff `v[0] > 0` |
| `MmgMacros.Get` | sources/mmg3d.h:83 | the result is 0 or exactly the single bit `1 << bit` |
| `MmgMacros.GetMeaning` | sources/mmg3d.h:83 | `MG_GET` is non-zero iff bit number `bit` is set (both directions) |
| `MmgMacros.Set` | sources/mmg3d.h:81 | afterwards the bit is set, all other bits are unchanged, and setting a set bit changes nothing (so setting twice equals setting once) |
| `MmgMacros.Clr` | sources/mmg3d.h:82 | afterwards the bit is clear, all other bits are unchanged, and clearing a clear bit changes nothing |
| `MmgMacros.BitAndRestDetermine` | sources/mmg3d.h:81-83 | a flag is determined by one bit together with all the others, so the contracts of Set and Clr fix their results |
| `MmgMacros.TriangleTables` | sources/mmg3d.h:85-86 | `inxt2[i] = (i+1) mod 3`, `iprv2[i] = (i+2) mod 3`, and they are inverse permutations of 0..2 |
| `MmgMacros.TetraTables` | sources/mmg3d.h:87-88 | `inxt3[i] = (i+1) mod 4` and `iprv3[i] = (i+3) mod 4` for i in 0..6, inverse on 0..3 |
| `OctreeDepth.MaxCellCount` | src/mmg3d/grid2tetmesh_3d.c:67-75 | the running maximum from 0 over the counts, by signed comparison (definition; characterised by `MaxCellCountIsMax`) |
| `OctreeDepth.MaxCellCountIsMax` | src/mmg3d/grid2tetmesh_3d.c:67-75 | the largest count (signed comparison, starting from 0) is non-negative, not below any entry, and is 0 or one of the entries |
| `OctreeDepth.LargestCellCount` | src/mmg3d/grid2tetmesh_3d.c:67-75 | the loop computes the largest count, not below any entry |
| `OctreeDepth.MaxCellCountExamples` | src/mmg3d/grid2tetmesh_3d.c:67-75 | the largest of [5,5,5], [9,5,5], [10,5,5] is 5, 9, 10 |
| `OctreeDepth.NextPow2Exists` | src/mmg3d/grid2tetmesh_3d.c:81-87 | every n in 1..2^30 has a least power of two at least n |
| `OctreeDepth.NextPow2Unique` | src/mmg3d/grid2tetmesh_3d.c:81-87 | that least power of two is unique |
| `OctreeDepth.NextPow2` | src/mmg3d/grid2tetmesh_3d.c:81-87 | names the least power of two at least n |
| `OctreeDepth.Smear` | src/mmg3d/grid2tetmesh_3d.c:82-86 | or-ing each value into itself shifted by 1, 2, 4, 8, 16 (definition; `SmearNext` shows that smearing n - 1 and adding one gives the least power of two at least n) |
| `OctreeDepth.RoundUpPow2` | src/mmg3d/grid2tetmesh_3d.c:81-87 | decrement, smear by 1, 2, 4, 8, 16 and increment yield a power of two p with n <= p and p/2 < n, i.e. the least one |
| `OctreeDepth.Log2` | src/mmg3d/grid2tetmesh_3d.c:89 | the integer logarithm: the number of halvings down to 1 (definition; `Log2Exact` shows it inverts 2^k on powers of two) |
| `OctreeDepth.Log2Exact` | src/mmg3d/grid2tetmesh_3d.c:89 | on a power of two the integer logarithm is exact: 2^log2(p) = p |
| `OctreeDepth.BuildDepth` | src/mmg3d/grid2tetmesh_3d.c:67-89 | the build depth: log2 of the least power of two at least largest count - 1 (definition; `BuildDepthMax` proves the C steps compute it, `BuildDepthExamples` and `DepthsDisagree` are stated about it) |
| `OctreeDepth.CoarsenDepth` | src/mmg3d/grid2tetmesh_3d.c:340-356 | the coarsening depth: log2 of the least power of two at least the largest count (definition; `CoarsenDepthMax` proves the C steps compute it, `CoarsenDepthExample` and `DepthsDisagree` are stated about it) |
| `OctreeDepth.BuildDepthMax` | src/mmg3d/grid2tetmesh_3d.c:67-89 | the build depth d makes 2^d the least power of two at least (largest count - 1) |
| `OctreeDepth.BuildDepthExamples` | src/mmg3d/grid2tetmesh_3d.c:67-89 | counts [5,5,5], [9,5,5], [10,5,5] give build depths 2, 3, 4 |
| `OctreeDepth.CoarsenDepthMax` | src/mmg3d/grid2tetmesh_3d.c:340-356 | the coarsening depth d makes 2^d the least power of two at least the largest count |
| `OctreeDepth.CoarsenDepthExample` | src/mmg3d/grid2tetmesh_3d.c:340-356 | counts [5,5,5] give coarsening depth 3 (the build gives 2) |
| `OctreeDepth.DepthsDisagree` | src/mmg3d/grid2tetmesh_3d.c:67-89 | the coarsening depth (lines 340-356) exceeds the build depth by one iff largest count - 1 is a power of two, and equals it otherwise |
| `OctreeCell.Merged` | src/mmg3d/grid2tetmesh_3d.c:316 | the merged cell is a leaf with no sons (so shaped) that keeps its coordinates, depth and flag |
| `Neighbours.CandidateIndex` | src/mmg3d/grid2tetmesh_3d.c:169-174 | the t-th triple of the k, j, i loops lies in the 3x3x3 block and has loop position t |
| `Neighbours.IndexCandidate` | src/mmg3d/grid2tetmesh_3d.c:169-174 | each block triple is visited once, at its loop position 9 dz + 3 dy + dx |
| `Neighbours.Kept` | src/mmg3d/grid2tetmesh_3d.c:175 | the filter: not all three values equal, and some coordinate equal to the cell's (definition; `NeighbourMembers` states the recorded table is exactly the block triples it keeps) |
| `Neighbours.TableUpTo` | src/mmg3d/grid2tetmesh_3d.c:169-184 | the triples recorded in `neighboors_tab` by the first t passes of the loops; at most t of them (definition; characterised by `TableStep` and `TableUpToMembers`) |
| `Neighbours.NeighbourTable` | src/mmg3d/grid2tetmesh_3d.c:167-184 | the whole content of `neighboors_tab` after the loops (definition; characterised by `NeighbourMembers`, `TableOrdered` and the count lemmas, and computed by `FillNeighbours`) |
| `Neighbours.TableStep` | src/mmg3d/grid2tetmesh_3d.c:175-181 | one pass appends the triple exactly when the filter keeps it |
| `Neighbours.Record` | src/mmg3d/grid2tetmesh_3d.c:175-181 | the array prefix and counter grow by the triple exactly when the filter keeps it |
| `Neighbours.FillNeighbours` | src/mmg3d/grid2tetmesh_3d.c:167-184 | `tab_id` is the number of kept triples and the filled prefix is the kept triples in k, j, i order |
| `Neighbours.TableUpToMembers` | src/mmg3d/grid2tetmesh_3d.c:169-184 | a triple is among the first t recorded iff it is in the block, passes the filter and comes before t |
| `Neighbours.NeighbourMembers` | src/mmg3d/grid2tetmesh_3d.c:169-184 | a triple is recorded iff some coordinate equals the cell's and its three values are not all equal |
| `Neighbours.TableOrdered` | src/mmg3d/grid2tetmesh_3d.c:169-184 | recorded triples come in strictly increasing loop order, hence without repeats |
| `Neighbours.FaceEdgeTableFits` | src/mmg3d/grid2tetmesh_3d.c:137 | the offset test (not the cell, one coordinate shared) keeps exactly the 18 face and edge neighbours, which fill the array |
| `Neighbours.DiagonalTable` | src/mmg3d/grid2tetmesh_3d.c:167-184 | for x = y = z the table is exactly the 18 face and edge neighbours |
| `Neighbours.ApartTable` | src/mmg3d/grid2tetmesh_3d.c:175-180 | when two coordinates differ by more than 2, 19 triples are recorded (the cell itself included) |
| `Neighbours.StepTable` | src/mmg3d/grid2tetmesh_3d.c:188-192 | around (v,v,v+1) only 17 triples are recorded, so slot 17 is read unset |
| `Neighbours.OffDiagonalCounts` | src/mmg3d/grid2tetmesh_3d.c:137-180 | (0,5,10) records 19 triples and (1,1,2) records 17 |
| `Balance.Pow` | src/mmg3d/grid2tetmesh_3d.c:186 | `pow(2, k)` on naturals, as used at lines 186 and 200; at least 1 (definition; `OctreeSize` is stated in terms of it) |
| `Balance.OctreeSize` | src/mmg3d/grid2tetmesh_3d.c:186 | `octree_size` is half of 2^depth_max, and 0 when depth_max is 0 (2^-1 truncated) |
| `Balance.InDomain` | src/mmg3d/grid2tetmesh_3d.c:195 | the domain test: all three coordinates in [0, octree_size) (definition) |
| `Balance.Octant` | src/mmg3d/grid2tetmesh_3d.c:201-257 | the son index chosen is in 0..7 |
| `Balance.OctantCode` | src/mmg3d/grid2tetmesh_3d.c:201-257 | the son index is (x high) + 2 (z high) + 4 (y high), and each high coordinate is reduced by `nb_cells` |
| `Balance.OctantBounds` | src/mmg3d/grid2tetmesh_3d.c:197-260 | coordinates in [0, 2 nb) come out in [0, nb) |
| `Balance.OctantRoundTrip` | src/mmg3d/grid2tetmesh_3d.c:201-257 | on [0, 2 nb)^3 a step is undone by adding nb back per set code bit |
| `Balance.UnoctantRoundTrip` | src/mmg3d/grid2tetmesh_3d.c:201-257 | every son index and reduced position is the step of exactly one point |
| `Balance.Descend` | src/mmg3d/grid2tetmesh_3d.c:197-260 | the descent ends on a leaf or with the counter past `depth_max`, never below its start; when it starts at most `depth_max + 1` it also ends at most `depth_max + 1` |
| `Balance.Locate` | src/mmg3d/grid2tetmesh_3d.c:197-260 | the loop, with coordinates kept in range, ends where `Descend` says |
| `Balance.CursorAfter` | src/mmg3d/grid2tetmesh_3d.c:136-259 | the cursor `p` before slot i: set to the root once at line 136 and moved by every in-domain descent, never reset (definition; `Locate` and `BalanceOctree` compute it, `StaleCursor` is stated about it) |
| `Balance.Passes` | src/mmg3d/grid2tetmesh_3d.c:195-264 | slot i does not refuse the merge: out of the domain, or the descent from the carried cursor finds a cell at least as deep as `q` (definition; `BalanceOctree` returns 1 iff all slots pass) |
| `Balance.Balanced` | src/mmg3d/grid2tetmesh_3d.c:188-267 | the value the balance test returns as a predicate: every one of the 18 slots passes (definition; `BalanceOctree` returns 1 iff it holds) |
| `Balance.BalanceOctree` | src/mmg3d/grid2tetmesh_3d.c:128-268 | returns 0 or 1, and 1 iff every in-domain slot, looked up from the carried cursor, finds a cell at least as deep as `q` |
| `Balance.StaleCursor` | src/mmg3d/grid2tetmesh_3d.c:136-259 | once the cursor is a leaf it never moves, and every later lookup returns that leaf |
| `Coarsen.LeafSumUpTo` | src/mmg3d/grid2tetmesh_3d.c:284-287 | `leaf_sum` after n passes: the sum of the leaf flags of the first n sons (definition; bounded and characterised by `LeafSumCounts`) |
| `Coarsen.LeafSum` | src/mmg3d/grid2tetmesh_3d.c:284-287 | `leaf_sum` over all `nsons` sons (definition; characterised by `LeafSumCounts`) |
| `Coarsen.LeafSumCounts` | src/mmg3d/grid2tetmesh_3d.c:284-287 | `leaf_sum` is between 0 and nsons, and equals nsons iff all sons are leaves |
| `Coarsen.ScanStop` | src/mmg3d/grid2tetmesh_3d.c:302-306 | the scan stops at the first son with a nonzero flag, past the sons if none |
| `Coarsen.RaisesFlag` | src/mmg3d/grid2tetmesh_3d.c:307 | the test `i != nsons-1` on the scan's stop (definition; characterised by `RaisesFlagMeaning`) |
| `Coarsen.RaisesFlagMeaning` | src/mmg3d/grid2tetmesh_3d.c:302-310 | the flag is raised iff not (sons 0-6 clear and son 7 flagged), and this agrees with "some son flagged" iff one of sons 0-6 is flagged |
| `Coarsen.ReachesBalance` | src/mmg3d/grid2tetmesh_3d.c:299-314 | the balance test of line 314 is called on the cell: all sons were leaves on entry, the flag is clear and the scan does not raise it (definition; `MergeConditions` is stated in the same terms) |
| `Coarsen.CoarsenSub` | src/mmg3d/grid2tetmesh_3d.c:281-322 | the pass leaves a shaped cell with the same coordinates and depth |
| `Coarsen.CoarsenSons` | src/mmg3d/grid2tetmesh_3d.c:289-298 | the recursion keeps the cell a shaped non-leaf with the same coordinates, depth and flag |
| `Coarsen.FlagOnlyRaised` | src/mmg3d/grid2tetmesh_3d.c:307-310 | the cell's flag is either kept or set to 1, never cleared |
| `Coarsen.MergeConditions` | src/mmg3d/grid2tetmesh_3d.c:299-318 | a merge happens iff all sons were leaves on entry, the flag is clear, the scan stopped at son 7 and the balance test accepts |
| `Coarsen.FlaggedNeverMerged` | src/mmg3d/grid2tetmesh_3d.c:312-318 | a cell flagged before or after the scan is not merged |
| `Coarsen.SonsKeepLeaves` | src/mmg3d/grid2tetmesh_3d.c:289-298 | the recursion visits only non-leaf sons: leaf sons and already processed sons are kept |
| `Coarsen.RecursionOnly` | src/mmg3d/grid2tetmesh_3d.c:289-299 | with a non-leaf son on entry the cell is not merged, its flag is kept and its leaf sons are untouched |
| `Coarsen.LeafReachesScan` | src/mmg3d/grid2tetmesh_3d.c:284-306 | for a leaf `leaf_sum == nsons == 0`, so the scan branch is taken on a cell with no sons |
| `Coarsen.RootAfterSetup` | src/mmg3d/grid2tetmesh_3d.c:96-103 | the root after set-up (definition; characterised by `RootSetupMeaning`) |
| `Coarsen.RootSetupMeaning` | src/mmg3d/grid2tetmesh_3d.c:96-103 | the root gets no sons and becomes a leaf iff its depth is `depth_max`; otherwise it gets 8 sons; nothing else changes |
| `Coarsen.Octree.SetupRoot` | src/mmg3d/grid2tetmesh_3d.c:96-103 | the root is updated in place to its set-up value |
| `Coarsen.Octree.Merge` | src/mmg3d/grid2tetmesh_3d.c:316 | only the cell at the path is replaced, by its merged form |
| `Coarsen.Octree.BuildCoarsen` | src/mmg3d/grid2tetmesh_3d.c:281-322 | returns 1 and replaces exactly the subtree at the path by `CoarsenSub` of it |
| `Coarsen.Octree.VisitSons` | src/mmg3d/grid2tetmesh_3d.c:289-298 | the son loop replaces the subtree at the path by `CoarsenSons` of it |
| `Coarsen.Octree.FlagAndMerge` | src/mmg3d/grid2tetmesh_3d.c:299-319 | scan, flag and merge replace the subtree at the path by `CoarsenSub` of it |
| `Coarsen.Octree.CoarsenOctree` | src/mmg3d/grid2tetmesh_3d.c:335-361 | returns 1 and leaves the root coarsened at the coarsening depth |
| `Pipeline.ConvertGridToSmallOctree` | src/mmg3d/grid2tetmesh_3d.c:58-115 | returns 1 iff allocation succeeds, then holding the set-up and split root at the build depth; returns 0 with the tree untouched otherwise |
| `Pipeline.ConvertOctreeToTetMesh` | src/mmg3d/grid2tetmesh_3d.c:374-379 | always returns 0 |
| `Pipeline.ConvertGridToTetMesh` | src/mmg3d/grid2tetmesh_3d.c:392-426 | always returns 0; the tree is untouched when allocation fails, and otherwise it is built and then coarsened |

## Left out

- Floating point: `length[i]` and `max_distance` (lines 70 and 107-110) are not modelled. Line 110 mixes `(dx/2.)*(dz/2.)` into a sum where `(dz/2.)*(dz/2.)` would be symmetric; it only feeds `split`.
- `log(max_dim)/log(2)` and `pow(2, e)` are replaced by the exact integer logarithm and power. They agree with the floating result on powers of two, up to rounding of `log`. `pow(2, -1)` truncates to 0, and `OctreeSize` gives 0 for that case.
- `MMG3D_init_MOctree`, `MMG3D_split_MOctree_s` and `MMG3D_merge_MOctree_s` are not part of this model.
  - Allocation is a parameter that yields a root or fails.
  - Subdivision is a parameter function.
  - The merge is the abstract state change "sons dropped, leaf, no sons".
- The return value of `split`, ignored at line 112, is not modelled.
- `mesh`, `sol`, `ip` and `info.imprim` are not modelled, and neither are all `printf`/`fprintf` output and the commented-out code (lines 139-165 and 410-415).
- Pointers are not modelled. Cells are values in one tree, a cell pointer is a path of son indices, and the sons array is stored inline, as in `&q->sons[i]`. Aliasing between distinct cell pointers cannot arise in the model.
- Coarsen.ScanStop: the scan of lines 303-306 has no bound. When no son is flagged it reads past the sons. The model lets it stop past the last son, which raises the flag. Real memory past the array may differ.
- Balance.BalanceOctree: requires the neighbour table to hold exactly 18 triples. With 19 the fill writes past the array, and with 17 slot 17 is read unset. Both cases are undefined in C and are exhibited by `Neighbours.OffDiagonalCounts` instead.
- Neighbours.FillNeighbours: requires at most 18 kept triples, because writing a 19th triple overruns the array.
- Coarsen.Octree.BuildCoarsen: requires an 18-triple table only at the cells on which the balance test is called (`TablesFit`, `ReachesBalance`). With 17 or 19 triples the test reads an unset slot or writes past its array, which is undefined in C (`Neighbours.OffDiagonalCounts`). The same requires is on `CoarsenSub`, `CoarsenSons`, `VisitSons`, `FlagAndMerge` and `CoarsenOctree`.
- Coarsen.Octree.CoarsenOctree: requires a root with sons. A leaf root makes the pass read `sons[0]` of a cell without sons (`Coarsen.LeafReachesScan`).
- Pipeline.ConvertGridToTetMesh: when allocation succeeds, requires the tree that was built to be shaped, to have a non-leaf root and to satisfy `TablesFit`. The subdivision primitive is not part of this model, and a tree without these facts makes the coarsening stage undefined in C.
- Coordinates, depths and the `q->depth - p->depth` difference are unbounded integers. C int overflow near `INT_MAX` is not modelled.
- OctreeDepth.BuildDepthMax: does not state that the depth is below 31. The count is bounded by the requires: largest count in 2..2^30+1, and 1..2^30 for the coarsening depth. Beyond that, rounding overflows an int, and a largest count of 1 gives `log(0)`.
- MmgMacros.Set and MmgMacros.Clr: the macros update their argument in place; the methods return the new value. `bit` is below 31 because `1 << 31` overflows a C int.
- MmgMacros.VokMeaning: plain `char` is taken to be signed.
- The other parts of `sources/mmg3d.h` are not modelled:
  - `MG_SMSGN` (floating);
  - `RETURN_AND_FREE` (calls the unseen `freeAll`);
  - numeric constants;
  - function prototypes and function-pointer globals;
  - the tables `idir`, `iarf`, `iare` and the like.

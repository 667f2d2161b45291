/**
 * The grid-to-tetrahedral-mesh driver `MMG3D_convert_grid2tetmesh` and its
 * first and last stages (src/mmg3d/grid2tetmesh_3d.c, lines 58-115,
 * 374-379 and 392-426).
 *
 * The unshown primitives are parameters: `init` is `MMG3D_init_MOctree`
 * (the root it allocates for a given depth, or None when it fails) and
 * `split` is `MMG3D_split_MOctree_s` (the tree it leaves).
 */
module Pipeline {
  import opened Wrappers
  import opened OctreeCell
  import opened OctreeDepth
  import opened Coarsen

  /**
   * The tree the first stage leaves: the root `init` allocates for the
   * build depth, set up and then subdivided by `split`; None when `init`
   * fails.
   */
  ghost function BuiltTree(freeint: seq<bv32>, init: nat -> Option<Cell>, split: Cell -> Cell): Option<Cell>
    requires 2 <= MaxCellCount(freeint) <= 0x4000_0001
  {
    var depthMax := BuildDepth(MaxCellCount(freeint));
    if init(depthMax).None? then None else Some(split(RootAfterSetup(init(depthMax).value, depthMax)))
  }

  /**
   * Lines 58-115: depth from the largest cell count with the dual-grid
   * decrement, root allocation, root set-up and subdivision.  The result
   * of `split` is not checked, as at line 112.
   */
  method ConvertGridToSmallOctree(o: Octree, freeint: seq<bv32>, init: nat -> Option<Cell>, split: Cell -> Cell)
    returns (r: int)
    requires 2 <= MaxCellCount(freeint) <= 0x4000_0001
    modifies o
    ensures r == 1 ==> BuiltTree(freeint, init, split) == Some(o.root)
    ensures BuiltTree(freeint, init, split).Some? ==> r == 1
    ensures BuiltTree(freeint, init, split).None? ==> r == 0
    ensures r == 0 ==> o.root == old(o.root)
  {
    var depthMax := BuildDepthMax(freeint);
    var po := init(depthMax);
    if po.None? {
      return 0;
    }
    o.root := po.value;
    o.SetupRoot(depthMax);
    o.root := split(o.root);
    return 1;
  }

  /** Lines 374-379: the tetrahedralisation is a stub that reports failure. */
  method ConvertOctreeToTetMesh() returns (r: int)
    ensures r == 0
  {
    r := 0;
  }

  /**
   * Lines 392-426: the stages run in order and the first one that returns 0
   * ends the run with 0.  The last stage always returns 0, so the whole
   * conversion does too, after building and coarsening the octree.  When
   * allocation succeeds, the coarsening stage needs the tree that was built
   * to be shaped, to have sons at the root and 18-triple neighbour tables
   * wherever the balance test is called.
   */
  method ConvertGridToTetMesh(o: Octree, freeint: seq<bv32>, init: nat -> Option<Cell>, split: Cell -> Cell)
    returns (r: int)
    requires 2 <= MaxCellCount(freeint) <= 0x4000_0000
    requires BuiltTree(freeint, init, split).Some? ==>
      Shaped(BuiltTree(freeint, init, split).value) && BuiltTree(freeint, init, split).value.leaf == 0 &&
      TablesFit(BuiltTree(freeint, init, split).value)
    modifies o
    ensures r == 0
    ensures BuiltTree(freeint, init, split).None? ==> o.root == old(o.root)
    ensures BuiltTree(freeint, init, split).Some? ==>
      var built := BuiltTree(freeint, init, split).value;
      o.root == CoarsenSub(built, [], built, CoarsenDepth(MaxCellCount(freeint)))
  {
    r := ConvertGridToSmallOctree(o, freeint, init, split);
    if r != 0 {
      r := o.CoarsenOctree(freeint);
      if r != 0 {
        r := ConvertOctreeToTetMesh();
        r := if r == 0 then 0 else 1;
      }
    }
  }
}

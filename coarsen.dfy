/**
 * The coarsening pass `MMG3D_build_coarsen_octree` and its driver
 * `MMG3D_coarsen_octree` (src/mmg3d/grid2tetmesh_3d.c, lines 281-361).
 *
 * The octree (`mesh->octree`) is an object whose root tree is updated in
 * place; a cell pointer `q` is a path from the root.  The pass is specified
 * by `CoarsenSub`, the new subtree it leaves at the path.
 */
module Coarsen {
  import opened OctreeCell
  import opened Neighbours
  import opened Balance
  import OctreeDepth

  /** `leaf_sum` after the first `n` sons (lines 284-287). */
  function LeafSumUpTo(q: Cell, n: nat): int
    requires n <= |q.sons|
  {
    if n == 0 then 0 else LeafSumUpTo(q, n - 1) + q.sons[n - 1].leaf
  }

  /** Every one of the first `n` sons is a leaf. */
  predicate LeavesUpTo(q: Cell, n: nat)
    requires n <= |q.sons|
  {
    forall i :: 0 <= i < n ==> q.sons[i].leaf == 1
  }

  /** With leaf flags 0 or 1, the sum reaches `n` iff all `n` sons are leaves. */
  lemma {:induction false} LeafSumCounts(q: Cell, n: nat)
    requires Shaped(q) && n <= |q.sons|
    ensures 0 <= LeafSumUpTo(q, n) <= n
    ensures LeafSumUpTo(q, n) == n ==> LeavesUpTo(q, n)
    ensures LeavesUpTo(q, n) ==> LeafSumUpTo(q, n) == n
  {
    if n > 0 {
      LeafSumCounts(q, n - 1);
      assert Shaped(q.sons[n - 1]);
    }
  }

  /** `leaf_sum` over all `nsons` sons. */
  function LeafSum(q: Cell): int
    requires Shaped(q)
  {
    LeafSumUpTo(q, q.nsons)
  }

  /**
   * Where the scan of lines 302-306 stops when started at `i`: the first
   * son with a nonzero `split_ls`.  The C loop has no bound; a scan that
   * finds no flagged son is represented by index `|q.sons|` (past the end).
   */
  function ScanStop(q: Cell, i: nat): (k: nat)
    requires i <= |q.sons|
    ensures i <= k <= |q.sons|
    ensures forall j :: i <= j < k ==> q.sons[j].splitLs == 0
    ensures k < |q.sons| ==> q.sons[k].splitLs != 0
    decreases |q.sons| - i
  {
    if i == |q.sons| || q.sons[i].splitLs != 0 then i else ScanStop(q, i + 1)
  }

  /** Lines 307-310 as written: raise the flag unless the scan stopped at index `nsons - 1`. */
  predicate RaisesFlag(q: Cell)
  {
    ScanStop(q, 0) != q.nsons - 1
  }

  /** What the comment at line 309 promises: some son carries the level set. */
  predicate AnySonFlagged(q: Cell)
  {
    exists j :: 0 <= j < |q.sons| && q.sons[j].splitLs != 0
  }

  /**
   * For a cell with eight sons, the test as written raises the flag unless
   * sons 0-6 are clear and son 7 is flagged; it agrees with "some son is
   * flagged" exactly when one of sons 0-6 is flagged.  So a cell whose only
   * flagged son is son 7 is left clear, and one with no flagged son is
   * flagged (the scan runs past the sons).
   */
  lemma RaisesFlagMeaning(q: Cell)
    requires Shaped(q) && q.leaf == 0
    ensures RaisesFlag(q) ==> !(q.sons[7].splitLs != 0 && forall j :: 0 <= j < 7 ==> q.sons[j].splitLs == 0)
    ensures (q.sons[7].splitLs != 0 && forall j :: 0 <= j < 7 ==> q.sons[j].splitLs == 0) ==> !RaisesFlag(q)
    ensures (RaisesFlag(q) == AnySonFlagged(q)) ==> exists j :: 0 <= j < 7 && q.sons[j].splitLs != 0
    ensures (exists j :: 0 <= j < 7 && q.sons[j].splitLs != 0) ==> RaisesFlag(q) == AnySonFlagged(q)
  {
    var k := ScanStop(q, 0);
    if exists j :: 0 <= j < 7 && q.sons[j].splitLs != 0 {
      var j :| 0 <= j < 7 && q.sons[j].splitLs != 0;
      assert k <= j;
    } else if q.sons[7].splitLs != 0 {
      assert k == 7;
    } else {
      assert k == 8;
    }
  }

  /**
   * The pass calls the balance test on `c` (lines 299-314): all sons were
   * leaves on entry, the flag is clear and the scan does not raise it.
   * This is decided on entry, since `leaf_sum` is not refreshed.
   */
  predicate ReachesBalance(c: Cell)
  {
    c.leaf == 0 && |c.sons| == 8 && LeavesUpTo(c, 8) && c.splitLs == 0 && !RaisesFlag(c)
  }

  /**
   * Every cell of the tree on which the pass calls the balance test has a
   * neighbour table of exactly 18 triples; other cells are unconstrained.
   */
  predicate TablesFit(c: Cell)
    decreases c
  {
    (ReachesBalance(c) ==> |NeighbourTable(c.coordoct)| == 18) &&
    forall i :: 0 <= i < |c.sons| ==> TablesFit(c.sons[i])
  }

  /**
   * The subtree the pass leaves in place of `q`, entered with the whole
   * tree `Put(t, path, q)` (which the balance test reads).  Exactly one of
   * the two branches runs, chosen by `leaf_sum` as computed on entry.
   */
  function CoarsenSub(t: Cell, path: seq<nat>, q: Cell, depthMax: nat): (r: Cell)
    requires Shaped(t) && ValidPath(t, path)
    requires Shaped(q) && q.leaf == 0 && TablesFit(q)
    ensures Shaped(r) && r.coordoct == q.coordoct && r.depth == q.depth
    decreases q, 1
  {
    if LeafSum(q) != q.nsons then CoarsenSons(t, path, q, depthMax, 0, q)
    else
      var q1 := if RaisesFlag(q) then q.(splitLs := 1) else q;
      PutShaped(t, path, q1);
      LeafSumCounts(q, 8);
      if q1.splitLs == 0 && Balanced(Put(t, path, q1), q1, depthMax) then Merged(q1) else q1
  }

  /**
   * The loop of lines 291-297 from son `i` on, `cur` being the cell as
   * updated so far: each non-leaf son is coarsened in turn, in the tree as
   * left by the sons before it.
   */
  function CoarsenSons(t: Cell, path: seq<nat>, q: Cell, depthMax: nat, i: nat, cur: Cell): (r: Cell)
    requires Shaped(t) && ValidPath(t, path)
    requires Shaped(q) && q.leaf == 0 && TablesFit(q)
    requires Shaped(cur) && cur.leaf == 0 && i <= 8
    ensures Shaped(r) && r.leaf == 0
    ensures r.coordoct == cur.coordoct && r.depth == cur.depth && r.splitLs == cur.splitLs
    decreases q, 0, 8 - i
  {
    if i == 8 then cur
    else if q.sons[i].leaf == 1 then CoarsenSons(t, path, q, depthMax, i + 1, cur)
    else
      var g := Put(t, path, cur);
      PutShaped(t, path, cur);
      AtPut(t, path, cur);
      AtAppend(g, path, i);
      var s := CoarsenSub(g, path + [i], q.sons[i], depthMax);
      var next := cur.(sons := cur.sons[i := s]);
      assert forall j :: 0 <= j < 8 ==> Shaped(next.sons[j]);
      CoarsenSons(t, path, q, depthMax, i + 1, next)
  }

  /** The level-set flag of a cell is only ever raised to 1, never cleared. */
  lemma FlagOnlyRaised(t: Cell, path: seq<nat>, q: Cell, depthMax: nat)
    requires Shaped(t) && ValidPath(t, path) && Shaped(q) && q.leaf == 0 && TablesFit(q)
    ensures CoarsenSub(t, path, q, depthMax).splitLs == q.splitLs || CoarsenSub(t, path, q, depthMax).splitLs == 1
  {
  }

  /**
   * A cell is merged only when all its sons were leaves on entry (the
   * count is not refreshed after the recursion), its flag is clear, its
   * first flagged son is son 7, and the balance test accepts it; and then
   * it is merged.
   */
  lemma MergeConditions(t: Cell, path: seq<nat>, q: Cell, depthMax: nat)
    requires Shaped(t) && ValidPath(t, path) && Shaped(q) && q.leaf == 0 && TablesFit(q)
    ensures CoarsenSub(t, path, q, depthMax).leaf == 1 ==>
      LeavesUpTo(q, 8) && q.splitLs == 0 && !RaisesFlag(q) && (PutShaped(t, path, q); Balanced(Put(t, path, q), q, depthMax))
    ensures LeavesUpTo(q, 8) && q.splitLs == 0 && !RaisesFlag(q) && (PutShaped(t, path, q); Balanced(Put(t, path, q), q, depthMax)) ==>
      CoarsenSub(t, path, q, depthMax) == Merged(q)
  {
    LeafSumCounts(q, 8);
  }

  /** A cell whose flag is 1, before or after the scan, is never merged. */
  lemma FlaggedNeverMerged(t: Cell, path: seq<nat>, q: Cell, depthMax: nat)
    requires Shaped(t) && ValidPath(t, path) && Shaped(q) && q.leaf == 0 && TablesFit(q)
    ensures CoarsenSub(t, path, q, depthMax).splitLs == 1 ==> CoarsenSub(t, path, q, depthMax).leaf == 0
    ensures q.splitLs == 1 ==> CoarsenSub(t, path, q, depthMax).leaf == 0
  {
  }

  /** The recursion leaves the leaf sons untouched and keeps the parent's flag. */
  lemma {:induction false} SonsKeepLeaves(t: Cell, path: seq<nat>, q: Cell, depthMax: nat, i: nat, cur: Cell)
    requires Shaped(t) && ValidPath(t, path) && Shaped(q) && q.leaf == 0 && TablesFit(q)
    requires Shaped(cur) && cur.leaf == 0 && i <= 8
    ensures forall j :: i <= j < 8 && q.sons[j].leaf == 1 ==> CoarsenSons(t, path, q, depthMax, i, cur).sons[j] == cur.sons[j]
    ensures forall j :: 0 <= j < i ==> CoarsenSons(t, path, q, depthMax, i, cur).sons[j] == cur.sons[j]
    decreases 8 - i
  {
    if i < 8 {
      if q.sons[i].leaf == 1 {
        SonsKeepLeaves(t, path, q, depthMax, i + 1, cur);
      } else {
        var g := Put(t, path, cur);
        PutShaped(t, path, cur);
        AtPut(t, path, cur);
        AtAppend(g, path, i);
        var s := CoarsenSub(g, path + [i], q.sons[i], depthMax);
        var next := cur.(sons := cur.sons[i := s]);
        assert forall j :: 0 <= j < 8 ==> Shaped(next.sons[j]);
        SonsKeepLeaves(t, path, q, depthMax, i + 1, next);
      }
    }
  }

  /**
   * When some son was not a leaf on entry, the cell is not merged and its
   * flag is not touched, even if every son has become a leaf meanwhile;
   * sons that were leaves are kept as they were.
   */
  lemma RecursionOnly(t: Cell, path: seq<nat>, q: Cell, depthMax: nat)
    requires Shaped(t) && ValidPath(t, path) && Shaped(q) && q.leaf == 0 && TablesFit(q)
    requires !LeavesUpTo(q, 8)
    ensures CoarsenSub(t, path, q, depthMax).leaf == 0
    ensures CoarsenSub(t, path, q, depthMax).splitLs == q.splitLs
    ensures forall j :: 0 <= j < 8 && q.sons[j].leaf == 1 ==> CoarsenSub(t, path, q, depthMax).sons[j] == q.sons[j]
  {
    LeafSumCounts(q, 8);
    SonsKeepLeaves(t, path, q, depthMax, 0, q);
  }

  /**
   * A leaf has `leaf_sum == nsons == 0`, so the pass entered on a leaf
   * takes the scan branch and reads `sons[0]` of a cell without sons.
   */
  lemma LeafReachesScan(q: Cell)
    requires Shaped(q) && q.leaf == 1
    ensures LeafSum(q) == q.nsons && |q.sons| == 0
  {
  }

  /** Replacing son `i` of the cell at `path` is replacing that cell by its updated copy. */
  lemma SonReplaced(t: Cell, path: seq<nat>, cur: Cell, i: nat, s: Cell)
    requires Shaped(t) && ValidPath(t, path) && Shaped(cur) && cur.leaf == 0 && i < 8 && Shaped(s)
    ensures Put(Put(t, path, cur), path + [i], s) == Put(t, path, cur.(sons := cur.sons[i := s]))
    ensures Shaped(cur.(sons := cur.sons[i := s]))
    ensures Shaped(Put(t, path, cur.(sons := cur.sons[i := s])))
    ensures ValidPath(Put(t, path, cur.(sons := cur.sons[i := s])), path)
    ensures At(Put(t, path, cur.(sons := cur.sons[i := s])), path) == cur.(sons := cur.sons[i := s])
  {
    var next := cur.(sons := cur.sons[i := s]);
    AtPut(t, path, cur);
    PutAppend(Put(t, path, cur), path, i, s);
    PutPut(t, path, cur, next);
    AtPut(t, path, next);
    assert forall j :: 0 <= j < 8 ==> Shaped(next.sons[j]);
    PutShaped(t, path, next);
  }

  /**
   * The root after lines 95-103: a leaf without sons when its depth is
   * already `depth_max`, otherwise announced as having eight sons.
   */
  function RootAfterSetup(po: Cell, depthMax: int): (c: Cell)
  {
    if po.depth != depthMax then po.(nsons := 8) else po.(nsons := 0, leaf := 1)
  }

  /** The root has no sons and is a leaf exactly when its depth is `depth_max`; nothing else changes. */
  lemma RootSetupMeaning(po: Cell, depthMax: int)
    ensures RootAfterSetup(po, depthMax).nsons == 0 ==> po.depth == depthMax && RootAfterSetup(po, depthMax).leaf == 1
    ensures po.depth == depthMax ==> RootAfterSetup(po, depthMax).nsons == 0 && RootAfterSetup(po, depthMax).leaf == 1
    ensures po.depth != depthMax ==> RootAfterSetup(po, depthMax).nsons == 8 && RootAfterSetup(po, depthMax).leaf == po.leaf
    ensures RootAfterSetup(po, depthMax).(nsons := po.nsons, leaf := po.leaf) == po
  {
  }

  /** `mesh->octree`: the tree, updated in place through cell paths. */
  class Octree {
    var root: Cell

    /** Lines 95-103, updating the root cell in place. */
    method SetupRoot(depthMax: int)
      modifies this
      ensures root == RootAfterSetup(old(root), depthMax)
    {
      if root.depth != depthMax {
        root := root.(nsons := 8);
      } else {
        root := root.(nsons := 0);
        root := root.(leaf := 1);
      }
    }

    /** The unshown merge primitive: the cell at `path` loses its sons and becomes a leaf. */
    method Merge(path: seq<nat>)
      requires ValidPath(root, path)
      modifies this
      ensures root == Put(old(root), path, Merged(At(old(root), path)))
    {
      root := Put(root, path, Merged(At(root, path)));
    }

    /** Lines 281-322 on the cell at `path`; always returns 1. */
    method BuildCoarsen(path: seq<nat>, depthMax: nat) returns (r: int)
      requires Shaped(root) && ValidPath(root, path) && Shaped(At(root, path))
      requires At(root, path).leaf == 0 && TablesFit(At(root, path))
      modifies this
      ensures r == 1
      ensures root == Put(old(root), path, CoarsenSub(old(root), path, At(old(root), path), depthMax))
      decreases At(root, path), 1
    {
      var q := At(root, path);
      var leafSum := 0;
      for i := 0 to q.nsons
        invariant leafSum == LeafSumUpTo(q, i)
      {
        leafSum := leafSum + q.sons[i].leaf;
      }
      if leafSum != q.nsons {
        VisitSons(path, depthMax);
      }
      if leafSum == q.nsons {
        FlagAndMerge(path, depthMax);
      }
      r := 1;
    }

    /** Lines 289-298: coarsen every son that is not a leaf, in index order. */
    method VisitSons(path: seq<nat>, depthMax: nat)
      requires Shaped(root) && ValidPath(root, path) && Shaped(At(root, path))
      requires At(root, path).leaf == 0 && TablesFit(At(root, path))
      modifies this
      ensures root == Put(old(root), path, CoarsenSons(old(root), path, At(old(root), path), depthMax, 0, At(old(root), path)))
      decreases At(root, path), 0
    {
      ghost var t0 := root;
      ghost var q0 := At(root, path);
      PutAt(root, path);
      for i := 0 to At(root, path).nsons
        invariant Shaped(root) && ValidPath(root, path) && root == Put(t0, path, At(root, path))
        invariant Shaped(At(root, path)) && At(root, path).leaf == 0
        invariant forall j :: i <= j < 8 ==> At(root, path).sons[j] == q0.sons[j]
        invariant CoarsenSons(t0, path, q0, depthMax, i, At(root, path)) == CoarsenSons(t0, path, q0, depthMax, 0, q0)
      {
        ghost var cur := At(root, path);
        if At(root, path).sons[i].leaf != 1 {
          AtAppend(root, path, i);
          AtShaped(root, path + [i]);
          var _ := BuildCoarsen(path + [i], depthMax);
          SonReplaced(t0, path, cur, i, CoarsenSub(Put(t0, path, cur), path + [i], q0.sons[i], depthMax));
        }
      }
    }

    /**
     * Lines 299-319: scan the sons for a level-set flag, raise the cell's
     * flag as written at line 307, and merge the cell when its flag is
     * clear and the balance test accepts.
     */
    method FlagAndMerge(path: seq<nat>, depthMax: nat)
      requires Shaped(root) && ValidPath(root, path) && Shaped(At(root, path))
      requires At(root, path).leaf == 0 && TablesFit(At(root, path))
      requires LeafSum(At(root, path)) == At(root, path).nsons
      modifies this
      ensures root == Put(old(root), path, CoarsenSub(old(root), path, At(old(root), path), depthMax))
    {
      ghost var t0 := root;
      PutAt(root, path);
      var q := At(root, path);
      ghost var q1 := if RaisesFlag(q) then q.(splitLs := 1) else q;
      assert Shaped(q1) by {
        assert q1.sons == q.sons;
      }
      var i := 0;
      while q.sons[i].splitLs == 0 && i < q.nsons - 1
        invariant 0 <= i < q.nsons && ScanStop(q, i) == ScanStop(q, 0)
      {
        i := i + 1;
      }
      if q.sons[i].splitLs == 0 {
        i := i + 1;
      }
      if i != q.nsons - 1 {
        root := Put(root, path, q.(splitLs := 1));
      }
      assert root == Put(t0, path, q1);
      AtPut(t0, path, q1);
      PutShaped(t0, path, q1);
      LeafSumCounts(q, 8);
      if At(root, path).splitLs == 0 {
        var ok := BalanceOctree(root, At(root, path), depthMax);
        if ok == 1 {
          Merge(path);
        }
      }
    }

    /**
     * Lines 335-361: the depth from the largest cell count without the
     * dual-grid decrement, then the pass from the root; always returns 1.
     * The root must have sons (`LeafReachesScan`).
     */
    method CoarsenOctree(freeint: seq<bv32>) returns (r: int)
      requires 1 <= OctreeDepth.MaxCellCount(freeint) <= 0x4000_0000
      requires Shaped(root) && root.leaf == 0 && TablesFit(root)
      modifies this
      ensures r == 1
      ensures root == CoarsenSub(old(root), [], old(root), OctreeDepth.CoarsenDepth(OctreeDepth.MaxCellCount(freeint)))
    {
      var depthMax := OctreeDepth.CoarsenDepthMax(freeint);
      var _ := BuildCoarsen([], depthMax);
      r := 1;
    }
  }
}

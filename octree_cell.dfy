/**
 * The octree cell record used by src/mmg3d/grid2tetmesh_3d.c (its type
 * is declared outside the modelled files; the fields are the ones the
 * octree stage reads and writes) and paths into a tree of cells.
 *
 * A tree is a value; the in-place updates of the C code are modelled by
 * replacing the subtree at a path (`Put`), one son index per level.
 */
module OctreeCell {

  /** Integer cell coordinates `coordoct[3]`. */
  datatype Triple = Triple(x: int, y: int, z: int)

  /** A cell: coordinates, depth, leaf flag, son count, sons, level-set flag. */
  datatype Cell = Cell(coordoct: Triple, depth: int, leaf: int, nsons: int, sons: seq<Cell>, splitLs: int)

  /**
   * The shape the octree stage relies on: a leaf (`leaf == 1`) has no sons,
   * any other cell has `leaf == 0` and exactly eight sons, all shaped.
   */
  predicate Shaped(c: Cell)
    decreases c
  {
    (c.leaf == 1 && c.nsons == 0 && c.sons == []) ||
    (c.leaf == 0 && c.nsons == 8 && |c.sons| == 8 && forall i :: 0 <= i < 8 ==> Shaped(c.sons[i]))
  }

  /** The state the (unshown) merge primitive leaves: sons dropped, a leaf. */
  function Merged(c: Cell): (m: Cell)
    ensures Shaped(m) && m.leaf == 1 && m.nsons == 0 && m.sons == []
    ensures m.coordoct == c.coordoct && m.depth == c.depth && m.splitLs == c.splitLs
  {
    c.(leaf := 1, nsons := 0, sons := [])
  }

  /** Every index of `path` names an existing son, level by level. */
  predicate ValidPath(c: Cell, path: seq<nat>)
    decreases |path|
  {
    |path| == 0 || (path[0] < |c.sons| && ValidPath(c.sons[path[0]], path[1..]))
  }

  /** The subtree at `path` (the walk stops at a missing son). */
  function At(c: Cell, path: seq<nat>): Cell
    decreases |path|
  {
    if |path| == 0 || path[0] >= |c.sons| then c else At(c.sons[path[0]], path[1..])
  }

  /** `c` with the subtree at `path` replaced by `v` (unchanged past a missing son). */
  function Put(c: Cell, path: seq<nat>, v: Cell): Cell
    decreases |path|
  {
    if |path| == 0 then v
    else if path[0] >= |c.sons| then c
    else c.(sons := c.sons[path[0] := Put(c.sons[path[0]], path[1..], v)])
  }

  /** Reading back what was written. */
  lemma {:induction false} AtPut(c: Cell, path: seq<nat>, v: Cell)
    requires ValidPath(c, path)
    ensures ValidPath(Put(c, path, v), path) && At(Put(c, path, v), path) == v
    decreases |path|
  {
    if |path| > 0 {
      AtPut(c.sons[path[0]], path[1..], v);
    }
  }

  /** Writing back what was read changes nothing. */
  lemma {:induction false} PutAt(c: Cell, path: seq<nat>)
    requires ValidPath(c, path)
    ensures Put(c, path, At(c, path)) == c
    decreases |path|
  {
    if |path| > 0 {
      PutAt(c.sons[path[0]], path[1..]);
      assert c.sons[path[0] := c.sons[path[0]]] == c.sons;
    }
  }

  /** The second write to a path wins. */
  lemma {:induction false} PutPut(c: Cell, path: seq<nat>, v: Cell, w: Cell)
    requires ValidPath(c, path)
    ensures Put(Put(c, path, v), path, w) == Put(c, path, w)
    decreases |path|
  {
    if |path| > 0 {
      PutPut(c.sons[path[0]], path[1..], v, w);
    }
  }

  /** One level deeper: the son of the subtree at `path`. */
  lemma {:induction false} AtAppend(c: Cell, path: seq<nat>, i: nat)
    requires ValidPath(c, path) && i < |At(c, path).sons|
    ensures ValidPath(c, path + [i]) && At(c, path + [i]) == At(c, path).sons[i]
    decreases |path|
  {
    if |path| > 0 {
      assert (path + [i])[1..] == path[1..] + [i];
      AtAppend(c.sons[path[0]], path[1..], i);
    }
  }

  /** Writing a son below `path` is writing the updated subtree at `path`. */
  lemma {:induction false} PutAppend(c: Cell, path: seq<nat>, i: nat, v: Cell)
    requires ValidPath(c, path) && i < |At(c, path).sons|
    ensures Put(c, path + [i], v) == Put(c, path, At(c, path).(sons := At(c, path).sons[i := v]))
    decreases |path|
  {
    if |path| > 0 {
      assert (path + [i])[1..] == path[1..] + [i];
      PutAppend(c.sons[path[0]], path[1..], i, v);
    }
  }

  /** Subtrees of a shaped tree are shaped. */
  lemma {:induction false} AtShaped(c: Cell, path: seq<nat>)
    requires Shaped(c) && ValidPath(c, path)
    ensures Shaped(At(c, path))
    decreases |path|
  {
    if |path| > 0 {
      AtShaped(c.sons[path[0]], path[1..]);
    }
  }

  /** Replacing a subtree by a shaped one keeps the tree shaped. */
  lemma {:induction false} PutShaped(c: Cell, path: seq<nat>, v: Cell)
    requires Shaped(c) && ValidPath(c, path) && Shaped(v)
    ensures Shaped(Put(c, path, v))
    decreases |path|
  {
    if |path| > 0 {
      PutShaped(c.sons[path[0]], path[1..], v);
      var r := Put(c, path, v);
      assert forall i :: 0 <= i < 8 ==> r.sons[i] == (if i == path[0] then Put(c.sons[path[0]], path[1..], v) else c.sons[i]);
    }
  }
}

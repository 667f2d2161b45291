/**
 * The 2:1 balance test `MMG3D_balance_octree`
 * (src/mmg3d/grid2tetmesh_3d.c, lines 128-268): for each recorded
 * neighbour coordinate inside the domain, descend the tree by octant codes
 * and refuse the merge of `q` when the cell found is shallower than `q`.
 *
 * The tree is only read here, so it is a value.  The cursor `p` starts at
 * the root once (line 136) and is carried from one neighbour to the next.
 */
module Balance {
  import opened OctreeCell
  import opened Neighbours

  /** Exact `pow(2, k)` for a natural exponent. */
  function Pow(k: nat): (r: nat)
    ensures r >= 1
  {
    if k == 0 then 1 else 2 * Pow(k - 1)
  }

  /**
   * `pow(2, depth_max - 1)` truncated to an int (line 186): 0 when
   * `depth_max` is 0, since 2^-1 truncates to 0.
   */
  function OctreeSize(depthMax: nat): (s: nat)
    ensures depthMax >= 1 ==> 2 * s == Pow(depthMax)
  {
    if depthMax == 0 then 0 else Pow(depthMax - 1)
  }

  /** The domain test of line 195. */
  predicate InDomain(n: Triple, size: int)
  {
    0 <= n.x < size && 0 <= n.y < size && 0 <= n.z < size
  }

  /** One descent step: the son index `father_id` and the reduced coordinates. */
  datatype Step = Step(id: nat, pos: Triple)

  /** The nested tests of lines 201-257 with half-width `nb` (`nb_cells`). */
  function Octant(n: Triple, nb: int): (s: Step)
    ensures s.id < 8
  {
    if n.x < nb then
      if n.y < nb then
        if n.z < nb then Step(0, n) else Step(2, n.(z := n.z - nb))
      else
        if n.z < nb then Step(4, n.(y := n.y - nb)) else Step(6, Triple(n.x, n.y - nb, n.z - nb))
    else
      if n.y < nb then
        if n.z < nb then Step(1, n.(x := n.x - nb)) else Step(3, Triple(n.x - nb, n.y, n.z - nb))
      else
        if n.z < nb then Step(5, Triple(n.x - nb, n.y - nb, n.z))
        else Step(7, Triple(n.x - nb, n.y - nb, n.z - nb))
  }

  /** Bit of a comparison, as C's `(a >= b)`. */
  function B(c: bool): nat { if c then 1 else 0 }

  /**
   * The son index is the octant code x-high + 2 z-high + 4 y-high, and each
   * high coordinate is reduced by `nb`.
   */
  lemma OctantCode(n: Triple, nb: int)
    ensures Octant(n, nb).id == B(n.x >= nb) + 2 * B(n.z >= nb) + 4 * B(n.y >= nb)
    ensures Octant(n, nb).pos == Triple(n.x - nb * B(n.x >= nb), n.y - nb * B(n.y >= nb), n.z - nb * B(n.z >= nb))
  {
  }

  /** A coordinate in [0, 2 nb) becomes one in [0, nb). */
  lemma OctantBounds(n: Triple, nb: int)
    requires 0 <= n.x < 2 * nb && 0 <= n.y < 2 * nb && 0 <= n.z < 2 * nb
    ensures InDomain(Octant(n, nb).pos, nb)
  {
  }

  /** The coordinates a son index and reduced coordinates stand for. */
  function Unoctant(s: Step, nb: int): (n: Triple)
  {
    Triple(s.pos.x + nb * (s.id % 2), s.pos.y + nb * (s.id / 4), s.pos.z + nb * ((s.id / 2) % 2))
  }

  /** On the doubled box, a step loses nothing: it is undone by `Unoctant` ... */
  lemma OctantRoundTrip(n: Triple, nb: int)
    requires InDomain(n, 2 * nb)
    ensures Unoctant(Octant(n, nb), nb) == n
  {
  }

  /** ... and every son index with reduced coordinates is reached by exactly one point. */
  lemma UnoctantRoundTrip(s: Step, nb: int)
    requires s.id < 8 && InDomain(s.pos, nb)
    ensures InDomain(Unoctant(s, nb), 2 * nb) && Octant(Unoctant(s, nb), nb) == s
  {
  }

  /** Where a descent ends: the cell `p` and the value of the `depth` counter. */
  datatype Lookup = Lookup(cell: Cell, depth: int)

  /**
   * The descent loop of lines 197-260 from cell `p` with counter `depth`:
   * it stops at a leaf or once the counter passes `depthMax`.
   */
  function Descend(p: Cell, n: Triple, depth: int, depthMax: int): (r: Lookup)
    requires Shaped(p)
    ensures Shaped(r.cell) && r.depth >= depth
    ensures r.cell.leaf == 1 || r.depth > depthMax
    ensures depth <= depthMax + 1 ==> r.depth <= depthMax + 1
    decreases depthMax - depth + 1
  {
    if p.leaf == 1 || depth > depthMax then Lookup(p, depth)
    else
      var s := Octant(n, Pow(depthMax - depth));
      Descend(p.sons[s.id], s.pos, depth + 1, depthMax)
  }

  /** The cursor `p` before neighbour slot `i`: never reset to the root. */
  function CursorAfter(root: Cell, tab: seq<Triple>, depthMax: nat, i: nat): (p: Cell)
    requires Shaped(root) && i <= |tab|
    ensures Shaped(p)
  {
    if i == 0 then root
    else
      var p := CursorAfter(root, tab, depthMax, i - 1);
      if InDomain(tab[i - 1], OctreeSize(depthMax)) then Descend(p, tab[i - 1], 2, depthMax).cell else p
  }

  /** Slot `i` does not refuse the merge: skipped, or found a cell at least as deep as `q`. */
  predicate Passes(root: Cell, q: Cell, tab: seq<Triple>, depthMax: nat, i: nat)
    requires Shaped(root) && i < |tab|
  {
    InDomain(tab[i], OctreeSize(depthMax)) ==>
      !(q.depth - Descend(CursorAfter(root, tab, depthMax, i), tab[i], 2, depthMax).cell.depth > 0)
  }

  /** Every one of the 18 slots passes. */
  predicate Balanced(root: Cell, q: Cell, depthMax: nat)
    requires Shaped(root) && |NeighbourTable(q.coordoct)| == 18
  {
    forall i :: 0 <= i < 18 ==> Passes(root, q, NeighbourTable(q.coordoct), depthMax, i)
  }

  /**
   * The descent of lines 197-260 for one in-domain neighbour `n`, starting
   * from the cursor `p` with the counter reset to 2.
   */
  method Locate(p: Cell, n: Triple, depthMax: nat) returns (cell: Cell, depth: int)
    requires Shaped(p) && InDomain(n, OctreeSize(depthMax))
    ensures Lookup(cell, depth) == Descend(p, n, 2, depthMax)
  {
    var x, y, z := n.x, n.y, n.z;
    cell := p;
    depth := 2;
    while cell.leaf != 1 && depth <= depthMax
      invariant Shaped(cell) && depth >= 2
      invariant Descend(cell, Triple(x, y, z), depth, depthMax) == Descend(p, n, 2, depthMax)
      invariant depth <= depthMax ==> InDomain(Triple(x, y, z), 2 * Pow(depthMax - depth))
      decreases depthMax - depth
    {
      var nbCells := Pow(depthMax - depth);
      var s := Octant(Triple(x, y, z), nbCells);
      OctantBounds(Triple(x, y, z), nbCells);
      cell := cell.sons[s.id];
      x, y, z := s.pos.x, s.pos.y, s.pos.z;
      depth := depth + 1;
    }
  }

  /**
   * Lines 128-268.  The table must hold exactly 18 triples: with 19 the
   * fill writes past the array, with 17 slot 17 is read unset.
   */
  method BalanceOctree(root: Cell, q: Cell, depthMax: nat) returns (ok: int)
    requires Shaped(root) && |NeighbourTable(q.coordoct)| == 18
    ensures ok == 0 || ok == 1
    ensures ok == 1 ==> Balanced(root, q, depthMax)
    ensures Balanced(root, q, depthMax) ==> ok == 1
  {
    var p := root;
    var tab, tabId := FillNeighbours(q.coordoct);
    ghost var tabs := NeighbourTable(q.coordoct);
    assert tab[..] == tabs;
    var octreeSize := OctreeSize(depthMax);
    for i := 0 to 18
      invariant tab[..] == tabs
      invariant p == CursorAfter(root, tabs, depthMax, i)
      invariant forall j :: 0 <= j < i ==> Passes(root, q, tabs, depthMax, j)
    {
      var n := tab[i];
      assert n == tabs[i];
      if n.x >= 0 && n.x < octreeSize && n.y >= 0 && n.y < octreeSize && n.z >= 0 && n.z < octreeSize {
        var depth;
        p, depth := Locate(p, n, depthMax);
        if q.depth - p.depth > 0 {
          assert !Passes(root, q, tabs, depthMax, i);
          return 0;
        }
      }
    }
    return 1;
  }

  /**
   * Once the cursor rests on a leaf, it stays there: every later in-domain
   * neighbour is looked up in that same leaf, whatever its coordinates.
   */
  lemma {:induction false} StaleCursor(root: Cell, tab: seq<Triple>, depthMax: nat, i: nat, j: nat)
    requires Shaped(root) && i <= j <= |tab| && CursorAfter(root, tab, depthMax, i).leaf == 1
    ensures CursorAfter(root, tab, depthMax, j) == CursorAfter(root, tab, depthMax, i)
    ensures j < |tab| ==> Descend(CursorAfter(root, tab, depthMax, j), tab[j], 2, depthMax).cell == CursorAfter(root, tab, depthMax, i)
    decreases j
  {
    if i < j {
      StaleCursor(root, tab, depthMax, i, j - 1);
    }
  }
}

/**
 * The neighbour table of `MMG3D_balance_octree`
 * (src/mmg3d/grid2tetmesh_3d.c, lines 137 and 167-184): the triples of the
 * 3x3x3 block around a cell's coordinates, visited with k (z) outermost and
 * i (x) innermost, that pass the filter of line 175.
 */
module Neighbours {
  import opened OctreeCell

  /** The `t`-th triple of the block around `c` in loop order, 0 <= t < 27. */
  function Candidate(c: Triple, t: int): Triple
  {
    var dz := if t < 9 then -1 else if t < 18 then 0 else 1;
    var r := t - 9 * (dz + 1);
    var dy := if r < 3 then -1 else if r < 6 then 0 else 1;
    Triple(c.x + r - 3 * (dy + 1) - 1, c.y + dy, c.z + dz)
  }

  /** Where a triple of the block comes in the loop order. */
  function Index(c: Triple, n: Triple): int
  {
    9 * (n.z - c.z + 1) + 3 * (n.y - c.y + 1) + (n.x - c.x + 1)
  }

  /** `n` lies in the 3x3x3 block around `c` (the ranges of the three loops). */
  predicate InBlock(c: Triple, n: Triple)
  {
    c.x - 1 <= n.x <= c.x + 1 && c.y - 1 <= n.y <= c.y + 1 && c.z - 1 <= n.z <= c.z + 1
  }

  /**
   * The filter as written: the three coordinate VALUES are not all equal,
   * and at least one coordinate is the cell's own.
   */
  predicate Kept(c: Triple, n: Triple)
  {
    (n.x != n.y || n.x != n.z || n.y != n.z) && (n.x == c.x || n.y == c.y || n.z == c.z)
  }

  /** Loop position and triple determine each other. */
  lemma CandidateIndex(c: Triple, t: int)
    requires 0 <= t < 27
    ensures InBlock(c, Candidate(c, t)) && Index(c, Candidate(c, t)) == t
  {
  }

  lemma IndexCandidate(c: Triple, n: Triple)
    requires InBlock(c, n)
    ensures 0 <= Index(c, n) < 27 && Candidate(c, Index(c, n)) == n
  {
  }

  /** The triples recorded by the first `t` passes of the loops. */
  function TableUpTo(c: Triple, t: nat): (tab: seq<Triple>)
    requires t <= 27
    ensures |tab| <= t
  {
    if t == 0 then []
    else TableUpTo(c, t - 1) + (if Kept(c, Candidate(c, t - 1)) then [Candidate(c, t - 1)] else [])
  }

  /** All triples the loops record, in order. */
  function NeighbourTable(c: Triple): seq<Triple>
  {
    TableUpTo(c, 27)
  }

  lemma {:induction false} TableGrows(c: Triple, t: nat, u: nat)
    requires t <= u <= 27
    ensures |TableUpTo(c, t)| <= |TableUpTo(c, u)|
    ensures TableUpTo(c, t) == TableUpTo(c, u)[..|TableUpTo(c, t)|]
    decreases u
  {
    if t < u {
      TableGrows(c, t, u - 1);
    }
  }

  /** One pass of the loops: the triple `n` is appended iff it is kept. */
  lemma TableStep(c: Triple, n: Triple)
    requires InBlock(c, n)
    ensures Index(c, n) < 27
    ensures TableUpTo(c, Index(c, n) + 1) == TableUpTo(c, Index(c, n)) + (if Kept(c, n) then [n] else [])
    ensures |TableUpTo(c, Index(c, n) + 1)| <= |NeighbourTable(c)|
  {
    IndexCandidate(c, n);
    TableGrows(c, Index(c, n) + 1, 27);
  }

  /**
   * One pass of the innermost loop (lines 175-181): record the triple
   * when it passes the filter.
   */
  method Record(c: Triple, tab: array<Triple>, tabId: int, n: Triple) returns (newId: int)
    requires InBlock(c, n) && tab.Length == 18 && |NeighbourTable(c)| <= 18
    requires tabId == |TableUpTo(c, Index(c, n))| <= 18 && tab[..tabId] == TableUpTo(c, Index(c, n))
    modifies tab
    ensures Index(c, n) < 27
    ensures newId == |TableUpTo(c, Index(c, n) + 1)| <= 18 && tab[..newId] == TableUpTo(c, Index(c, n) + 1)
  {
    TableStep(c, n);
    newId := tabId;
    if (n.x != n.y || n.x != n.z || n.y != n.z) && (n.x == c.x || n.y == c.y || n.z == c.z) {
      tab[tabId] := n;
      newId := tabId + 1;
      assert tab[..newId] == tab[..tabId] + [n];
    }
  }

  /**
   * Lines 167-184: the triple loop fills the 18-slot array, counting the
   * recorded triples in `tabId`.  The array has room for every recorded
   * triple only when the filter keeps at most 18 of them.
   */
  method FillNeighbours(c: Triple) returns (tab: array<Triple>, tabId: int)
    requires |NeighbourTable(c)| <= 18
    ensures fresh(tab) && tab.Length == 18
    ensures tabId == |NeighbourTable(c)| && tab[..tabId] == NeighbourTable(c)
  {
    tab := new Triple[18];
    tabId := 0;
    ghost var t := 0;
    for k := c.z - 1 to c.z + 2
      invariant t == 9 * (k - c.z + 1)
      invariant tabId == |TableUpTo(c, t)| <= 18 && tab[..tabId] == TableUpTo(c, t)
    {
      for j := c.y - 1 to c.y + 2
        invariant t == 9 * (k - c.z + 1) + 3 * (j - c.y + 1)
        invariant tabId == |TableUpTo(c, t)| <= 18 && tab[..tabId] == TableUpTo(c, t)
      {
        for i := c.x - 1 to c.x + 2
          invariant t == Index(c, Triple(i, j, k))
          invariant tabId == |TableUpTo(c, t)| <= 18 && tab[..tabId] == TableUpTo(c, t)
        {
          tabId := Record(c, tab, tabId, Triple(i, j, k));
          t := t + 1;
        }
      }
    }
  }

  /** A triple is among the first `t` recorded iff it lies in the block, is kept and comes before `t`. */
  lemma {:induction false} TableUpToMembers(c: Triple, t: nat, n: Triple)
    requires t <= 27
    ensures n in TableUpTo(c, t) ==> InBlock(c, n) && Kept(c, n) && Index(c, n) < t
    ensures InBlock(c, n) && Kept(c, n) && Index(c, n) < t ==> n in TableUpTo(c, t)
  {
    if t > 0 {
      TableUpToMembers(c, t - 1, n);
      CandidateIndex(c, t - 1);
      if InBlock(c, n) {
        IndexCandidate(c, n);
      }
    }
  }

  /** A triple is recorded iff it lies in the block and passes the filter. */
  lemma NeighbourMembers(c: Triple, n: Triple)
    ensures n in NeighbourTable(c) ==> InBlock(c, n) && Kept(c, n)
    ensures InBlock(c, n) && Kept(c, n) ==> n in NeighbourTable(c)
  {
    TableUpToMembers(c, 27, n);
    if InBlock(c, n) {
      IndexCandidate(c, n);
    }
  }

  /** The table lists triples in strictly increasing loop order, so without repeats. */
  lemma {:induction false} TableOrdered(c: Triple, t: nat)
    requires t <= 27
    ensures forall a, b :: 0 <= a < b < |TableUpTo(c, t)| ==> Index(c, TableUpTo(c, t)[a]) < Index(c, TableUpTo(c, t)[b])
  {
    if t > 0 {
      TableOrdered(c, t - 1);
      var prev := TableUpTo(c, t - 1);
      forall a | 0 <= a < |prev|
        ensures Index(c, prev[a]) < t - 1
      {
        TableUpToMembers(c, t - 1, prev[a]);
      }
      CandidateIndex(c, t - 1);
    }
  }

  /**
   * The intended filter, on offsets from the cell: not the cell itself and
   * at least one coordinate shared, i.e. the 6 face and 12 edge neighbours.
   */
  predicate FaceOrEdge(c: Triple, n: Triple)
  {
    n != c && (n.x == c.x || n.y == c.y || n.z == c.z)
  }

  /** The block triples kept by the intended filter, in loop order. */
  function FaceEdgeUpTo(c: Triple, t: nat): seq<Triple>
    requires t <= 27
  {
    if t == 0 then []
    else FaceEdgeUpTo(c, t - 1) + (if FaceOrEdge(c, Candidate(c, t - 1)) then [Candidate(c, t - 1)] else [])
  }

  function FaceEdgeTable(c: Triple): seq<Triple>
  {
    FaceEdgeUpTo(c, 27)
  }

  /** How many block positions a <= t' < t the intended filter keeps (the same for every cell). */
  function OffsetCount(a: nat, t: nat): nat
    requires a <= t <= 27
    decreases t - a
  {
    if t == a then 0
    else OffsetCount(a, t - 1) + (if FaceOrEdge(Triple(0, 0, 0), Candidate(Triple(0, 0, 0), t - 1)) then 1 else 0)
  }

  lemma {:induction false} OffsetCountSplit(a: nat, m: nat, t: nat)
    requires a <= m <= t <= 27
    ensures OffsetCount(a, t) == OffsetCount(a, m) + OffsetCount(m, t)
    decreases t - m
  {
    if m < t {
      OffsetCountSplit(a, m, t - 1);
    }
  }

  /** Face and edge neighbours per row of three (fixed y and z offsets). */
  const ROW_COUNTS: seq<nat> := [1, 3, 1, 3, 2, 3, 1, 3, 1]

  lemma LowerRowCount(r: nat)
    requires r < 3
    ensures OffsetCount(3 * r, 3 * r + 3) == ROW_COUNTS[r]
  {
    if r == 0 { assert OffsetCount(0, 3) == 1; }
    else if r == 1 { assert OffsetCount(3, 6) == 3; }
    else { assert OffsetCount(6, 9) == 1; }
  }

  lemma MiddleRowCount(r: nat)
    requires 3 <= r < 6
    ensures OffsetCount(3 * r, 3 * r + 3) == ROW_COUNTS[r]
  {
    if r == 3 { assert OffsetCount(9, 12) == 3; }
    else if r == 4 { assert OffsetCount(12, 15) == 2; }
    else { assert OffsetCount(15, 18) == 3; }
  }

  lemma UpperRowCount(r: nat)
    requires 6 <= r < 9
    ensures OffsetCount(3 * r, 3 * r + 3) == ROW_COUNTS[r]
  {
    if r == 6 { assert OffsetCount(18, 21) == 1; }
    else if r == 7 { assert OffsetCount(21, 24) == 3; }
    else { assert OffsetCount(24, 27) == 1; }
  }

  lemma OffsetCountAll()
    ensures OffsetCount(0, 27) == 18
  {
    LowerRowCount(0); LowerRowCount(1); LowerRowCount(2);
    MiddleRowCount(3); MiddleRowCount(4); MiddleRowCount(5);
    UpperRowCount(6); UpperRowCount(7); UpperRowCount(8);
    OffsetCountSplit(0, 3, 6);
    OffsetCountSplit(0, 6, 9);
    OffsetCountSplit(0, 9, 12);
    OffsetCountSplit(0, 12, 15);
    OffsetCountSplit(0, 15, 18);
    OffsetCountSplit(0, 18, 21);
    OffsetCountSplit(0, 21, 24);
    OffsetCountSplit(0, 24, 27);
  }

  lemma {:induction false} FaceEdgeCount(c: Triple, t: nat)
    requires t <= 27
    ensures |FaceEdgeUpTo(c, t)| == OffsetCount(0, t)
  {
    if t > 0 {
      FaceEdgeCount(c, t - 1);
    }
  }

  lemma {:induction false} FaceEdgeMembers(c: Triple, t: nat, n: Triple)
    requires t <= 27
    ensures n in FaceEdgeUpTo(c, t) ==> InBlock(c, n) && FaceOrEdge(c, n) && Index(c, n) < t
    ensures InBlock(c, n) && FaceOrEdge(c, n) && Index(c, n) < t ==> n in FaceEdgeUpTo(c, t)
  {
    if t > 0 {
      FaceEdgeMembers(c, t - 1, n);
      CandidateIndex(c, t - 1);
      if InBlock(c, n) {
        IndexCandidate(c, n);
      }
    }
  }

  /**
   * The intended table always fills the 18 slots exactly, with the face and
   * edge neighbours of the cell.
   */
  lemma FaceEdgeTableFits(c: Triple, n: Triple)
    ensures |FaceEdgeTable(c)| == 18
    ensures n in FaceEdgeTable(c) ==> InBlock(c, n) && FaceOrEdge(c, n)
    ensures InBlock(c, n) && FaceOrEdge(c, n) ==> n in FaceEdgeTable(c)
  {
    FaceEdgeCount(c, 27);
    OffsetCountAll();
    FaceEdgeMembers(c, 27, n);
    if InBlock(c, n) {
      IndexCandidate(c, n);
    }
  }

  /**
   * On the diagonal x == y == z the value test coincides with the offset
   * test, so the table is exactly the 18 face and edge neighbours.
   */
  lemma {:induction false} DiagonalTableUpTo(c: Triple, t: nat)
    requires c.x == c.y == c.z && t <= 27
    ensures TableUpTo(c, t) == FaceEdgeUpTo(c, t)
  {
    if t > 0 {
      DiagonalTableUpTo(c, t - 1);
    }
  }

  lemma DiagonalTable(c: Triple)
    requires c.x == c.y == c.z
    ensures NeighbourTable(c) == FaceEdgeTable(c) && |NeighbourTable(c)| == 18
  {
    DiagonalTableUpTo(c, 27);
    FaceEdgeTableFits(c, c);
  }

  /** The cell itself comes 14th (index 13) in loop order. */
  const SELF_INDEX := 13

  /**
   * Two coordinates more than 2 apart: no triple of the block has three
   * equal values, so the cell itself is recorded besides its 18 face and
   * edge neighbours.
   */
  lemma {:induction false} ApartTableUpTo(c: Triple, t: nat)
    requires c.x - c.y > 2 || c.y - c.x > 2 || c.y - c.z > 2 || c.z - c.y > 2 || c.x - c.z > 2 || c.z - c.x > 2
    requires t <= 27
    ensures |TableUpTo(c, t)| == |FaceEdgeUpTo(c, t)| + (if t > SELF_INDEX then 1 else 0)
  {
    if t > 0 {
      ApartTableUpTo(c, t - 1);
      CandidateIndex(c, t - 1);
    }
  }

  /** Then 19 triples are written into the 18-slot array. */
  lemma ApartTable(c: Triple)
    requires c.x - c.y > 2 || c.y - c.x > 2 || c.y - c.z > 2 || c.z - c.y > 2 || c.x - c.z > 2 || c.z - c.x > 2
    ensures |NeighbourTable(c)| == 19
  {
    ApartTableUpTo(c, 27);
    FaceEdgeTableFits(c, c);
  }

  /**
   * Around (v, v, v+1) the face neighbour (v, v, v) (index 4) and the
   * edge neighbour (v+1, v+1, v+1) (index 17) have three equal values and
   * are dropped, while the cell itself is recorded.
   */
  lemma {:induction false} StepTableUpTo(c: Triple, t: nat)
    requires c.x == c.y && c.z == c.x + 1 && t <= 27
    ensures |TableUpTo(c, t)| + (if t > 4 then 1 else 0) + (if t > 17 then 1 else 0)
         == |FaceEdgeUpTo(c, t)| + (if t > SELF_INDEX then 1 else 0)
  {
    if t > 0 {
      StepTableUpTo(c, t - 1);
      CandidateIndex(c, t - 1);
    }
  }

  /** Then only 17 triples are written, and slot 17 is read unset. */
  lemma StepTable(c: Triple)
    requires c.x == c.y && c.z == c.x + 1
    ensures |NeighbourTable(c)| == 17
  {
    StepTableUpTo(c, 27);
    FaceEdgeTableFits(c, c);
  }

  /** Two concrete cells: (0,5,10) records 19 triples, (1,1,2) records 17. */
  lemma OffDiagonalCounts()
    ensures |NeighbourTable(Triple(0, 5, 10))| == 19
    ensures |NeighbourTable(Triple(1, 1, 2))| == 17
  {
    ApartTable(Triple(0, 5, 10));
    StepTable(Triple(1, 1, 2));
  }
}

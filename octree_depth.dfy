/**
 * Maximal octree depth computed from the grid's per-axis cell counts
 * (src/mmg3d/grid2tetmesh_3d.c, the build stage at lines 67-89 and the
 * coarsening stage at lines 340-356).
 *
 * The C variable `max_dim` is an `int`; the rounding step works on its
 * bits, so the model keeps its 32-bit pattern as a `bv32`.  Signed
 * comparison of two C ints is unsigned comparison after flipping the sign
 * bit.  `log(max_dim)/log(2)` is replaced by the exact integer logarithm,
 * which agrees with it on powers of two.
 */
module OctreeDepth {

  /** C's signed `a < b` on two 32-bit ints given by their bit patterns. */
  predicate SignedLess(a: bv32, b: bv32) {
    (a ^ 0x8000_0000) < (b ^ 0x8000_0000)
  }

  /** A non-zero value with a single bit set. */
  predicate IsPow2(p: bv32) {
    p != 0 && p & (p - 1) == 0
  }

  lemma SignedLessTransitive(a: bv32, b: bv32, c: bv32)
    requires !SignedLess(a, b) && !SignedLess(b, c)
    ensures !SignedLess(a, c)
  {
  }

  /**
   * The largest cell count, as the C loop computes it: the running maximum
   * starts at 0 and takes each entry that is (signed) larger.
   */
  function MaxCellCount(freeint: seq<bv32>): bv32
  {
    if |freeint| == 0 then 0
    else
      var m := MaxCellCount(freeint[..|freeint| - 1]);
      var last := freeint[|freeint| - 1];
      if SignedLess(m, last) then last else m
  }

  /**
   * The count is a non-negative C int, no entry exceeds it, and it is 0 or
   * one of the entries.
   */
  lemma {:induction false} MaxCellCountIsMax(freeint: seq<bv32>)
    ensures MaxCellCount(freeint) < 0x8000_0000
    ensures forall i :: 0 <= i < |freeint| ==> !SignedLess(MaxCellCount(freeint), freeint[i])
    ensures MaxCellCount(freeint) == 0 || MaxCellCount(freeint) in freeint
  {
    if |freeint| > 0 {
      var init := freeint[..|freeint| - 1];
      var last := freeint[|freeint| - 1];
      MaxCellCountIsMax(init);
      var m := MaxCellCount(init);
      var r := MaxCellCount(freeint);
      assert !SignedLess(r, m) && !SignedLess(r, last);
      forall i | 0 <= i < |freeint|
        ensures !SignedLess(r, freeint[i])
      {
        if i < |init| {
          assert freeint[i] == init[i];
          SignedLessTransitive(r, m, freeint[i]);
        }
      }
      assert m in init ==> m in freeint;
    }
  }

  /** The counter loop shared by both stages (lines 67-75 and 340-346). */
  method LargestCellCount(freeint: seq<bv32>) returns (maxDim: bv32)
    ensures maxDim == MaxCellCount(freeint)
    ensures maxDim < 0x8000_0000
    ensures forall i :: 0 <= i < |freeint| ==> !SignedLess(maxDim, freeint[i])
  {
    maxDim := 0;
    for i := 0 to |freeint|
      invariant maxDim == MaxCellCount(freeint[..i])
    {
      assert freeint[..i + 1][..i] == freeint[..i];
      if SignedLess(maxDim, freeint[i]) {
        maxDim := freeint[i];
      }
    }
    assert freeint[..|freeint|] == freeint;
    MaxCellCountIsMax(freeint);
  }

  /** `p` is the smallest power of two that is at least `n`. */
  predicate IsNextPow2(p: bv32, n: bv32) {
    IsPow2(p) && n <= p && p >> 1 < n
  }

  /** At most one power of two is the next one after `n`. */
  lemma NextPow2Unique(n: bv32, p: bv32, q: bv32)
    requires IsNextPow2(p, n) && IsNextPow2(q, n)
    ensures p == q
  {
  }

  /** `x` with its highest set bit or-ed into every lower position. */
  function Smear(x: bv32): bv32
  {
    var m1 := x | (x >> 1);
    var m2 := m1 | (m1 >> 2);
    var m4 := m2 | (m2 >> 4);
    var m8 := m4 | (m4 >> 8);
    m8 | (m8 >> 16)
  }

  /** For 1 <= n <= 2^30, smearing `n - 1` and adding one gives the next power of two. */
  lemma SmearNext(n: bv32)
    requires 1 <= n <= 0x4000_0000
    ensures IsNextPow2(Smear(n - 1) + 1, n)
  {
  }

  /**
   * Every `n` in 1..2^30 has a next power of two: the witness is built by
   * or-ing the top bit of `n - 1` into all lower positions.
   */
  lemma NextPow2Exists(n: bv32)
    requires 1 <= n <= 0x4000_0000
    ensures exists p :: IsNextPow2(p, n)
  {
    SmearNext(n);
  }

  /** Reference definition: the smallest power of two that is at least `n`. */
  ghost function NextPow2(n: bv32): (p: bv32)
    requires 1 <= n <= 0x4000_0000
    ensures IsNextPow2(p, n)
  {
    NextPow2Exists(n);
    var p :| IsNextPow2(p, n); p
  }

  /**
   * The bit-smearing idiom of lines 81-87 (and its copy at 348-354):
   * decrement, or every bit into all lower positions, increment.  For
   * 1 <= n <= 2^30 it yields the smallest power of two at least `n`.
   */
  method RoundUpPow2(n: bv32) returns (p: bv32)
    requires 1 <= n <= 0x4000_0000
    ensures IsPow2(p) && n <= p && p >> 1 < n
    ensures p == NextPow2(n)
  {
    var m := n;
    m := m - 1;
    m := m | (m >> 1);
    m := m | (m >> 2);
    m := m | (m >> 4);
    m := m | (m >> 8);
    m := m | (m >> 16);
    assert m + 1 == Smear(n - 1) + 1;
    m := m + 1;
    p := m;
    SmearNext(n);
    NextPow2Unique(n, p, NextPow2(n));
  }

  /** `log(p)/log(2)` for a power of two: the number of halvings down to 1. */
  function Log2(p: bv32): nat
    decreases p
  {
    if p <= 1 then 0 else 1 + Log2(p >> 1)
  }

  /** 2^k as a 32-bit pattern, by repeated doubling. */
  function Pow2(k: nat): bv32
  {
    if k == 0 then 1 else Pow2(k - 1) << 1
  }

  lemma HalfPow2(p: bv32)
    requires IsPow2(p) && p > 1
    ensures IsPow2(p >> 1) && p >> 1 < p && (p >> 1) << 1 == p
  {
  }

  /** Log2 inverts Pow2 on the powers of two. */
  lemma {:induction false} Log2Exact(p: bv32)
    requires IsPow2(p)
    ensures Pow2(Log2(p)) == p
    decreases Log2(p)
  {
    if p > 1 {
      HalfPow2(p);
      Log2Exact(p >> 1);
    }
  }

  /** Depth of the build stage for largest count m: one cell less per axis (the dual grid). */
  ghost function BuildDepth(m: bv32): nat
    requires 2 <= m <= 0x4000_0001
  {
    Log2(NextPow2(m - 1))
  }

  /** Depth of the coarsening stage for largest count m: no dual-grid decrement. */
  ghost function CoarsenDepth(m: bv32): nat
    requires 1 <= m <= 0x4000_0000
  {
    Log2(NextPow2(m))
  }

  /** The logarithm of the next power of two after `n`, with 2^d that power. */
  lemma DepthOfNextPow2(n: bv32, p: bv32)
    requires 1 <= n <= 0x4000_0000 && IsNextPow2(p, n)
    ensures IsNextPow2(Pow2(Log2(p)), n) && Log2(p) == Log2(NextPow2(n))
  {
    Log2Exact(p);
    NextPow2Unique(n, p, NextPow2(n));
  }

  /** The dual-grid decrement keeps a count of 2..2^30+1 in the rounding range. */
  lemma DualDecrement(m: bv32)
    requires 2 <= m <= 0x4000_0001
    ensures 1 <= m - 1 <= 0x4000_0000
  {
  }

  /** The same, stated for the build stage's largest count before its decrement. */
  lemma BuildDepthOf(count: bv32, p: bv32)
    requires 2 <= count <= 0x4000_0001 && IsNextPow2(p, count - 1)
    ensures IsNextPow2(Pow2(Log2(p)), count - 1) && Log2(p) == BuildDepth(count)
  {
    DepthOfNextPow2(count - 1, p);
  }

  /**
   * Lines 67-89: largest count, dual-grid decrement, round up to a power of
   * two, take its logarithm.  Outside the requires `max_dim` is 1 (C takes
   * log(0)) or too large to round up in an int.
   */
  method BuildDepthMax(freeint: seq<bv32>) returns (depthMax: nat)
    requires 2 <= MaxCellCount(freeint) <= 0x4000_0001
    ensures IsNextPow2(Pow2(depthMax), MaxCellCount(freeint) - 1)
    ensures depthMax == BuildDepth(MaxCellCount(freeint))
  {
    var maxDim := LargestCellCount(freeint);
    ghost var count := maxDim;
    DualDecrement(maxDim);
    maxDim := maxDim - 1;
    var rounded := RoundUpPow2(maxDim);
    depthMax := Log2(rounded);
    BuildDepthOf(count, rounded);
  }

  /** Lines 340-356: the same computation without the dual-grid decrement. */
  method CoarsenDepthMax(freeint: seq<bv32>) returns (depthMax: nat)
    requires 1 <= MaxCellCount(freeint) <= 0x4000_0000
    ensures IsNextPow2(Pow2(depthMax), MaxCellCount(freeint))
    ensures depthMax == CoarsenDepth(MaxCellCount(freeint))
  {
    var maxDim := LargestCellCount(freeint);
    var rounded := RoundUpPow2(maxDim);
    depthMax := Log2(rounded);
    DepthOfNextPow2(maxDim, rounded);
  }

  /** Step of the next power of two from m - 1 to m, on bits alone. */
  lemma NextPow2Step(m: bv32, a: bv32)
    requires 2 <= m <= 0x4000_0000 && IsNextPow2(a, m - 1)
    ensures IsPow2(m - 1) ==> a == m - 1 && IsNextPow2(a << 1, m) && (a << 1) >> 1 == a
    ensures !IsPow2(m - 1) ==> IsNextPow2(a, m)
  {
  }

  /** When m - 1 is a power of two, the next power of two for m is its double. */
  lemma NextAfterPow2(m: bv32)
    requires 2 <= m <= 0x4000_0000 && IsPow2(m - 1)
    ensures Log2(NextPow2(m)) == Log2(NextPow2(m - 1)) + 1
  {
    var a := NextPow2(m - 1);
    NextPow2Step(m, a);
    NextPow2Unique(m, a << 1, NextPow2(m));
  }

  /** Otherwise m - 1 and m share their next power of two. */
  lemma NextAfterNonPow2(m: bv32)
    requires 2 <= m <= 0x4000_0000 && !IsPow2(m - 1)
    ensures NextPow2(m) == NextPow2(m - 1)
  {
    var a := NextPow2(m - 1);
    NextPow2Step(m, a);
    NextPow2Unique(m, a, NextPow2(m));
  }

  /**
   * The two copies disagree: for the same largest count m the coarsening
   * depth is one more than the build depth exactly when m - 1 is a power of
   * two, and equal otherwise.
   */
  lemma DepthsDisagree(m: bv32)
    requires 2 <= m <= 0x4000_0000
    ensures IsPow2(m - 1) ==> CoarsenDepth(m) == BuildDepth(m) + 1
    ensures !IsPow2(m - 1) ==> CoarsenDepth(m) == BuildDepth(m)
  {
    if IsPow2(m - 1) {
      NextAfterPow2(m);
    } else {
      NextAfterNonPow2(m);
    }
  }

  /** The largest counts of the example grids, evaluated entry by entry. */
  lemma MaxCellCountExamples()
    ensures MaxCellCount([5, 5, 5]) == 5
    ensures MaxCellCount([9, 5, 5]) == 9
    ensures MaxCellCount([10, 5, 5]) == 10
  {
    assert [5 as bv32][..0] == [];
    assert MaxCellCount([5]) == 5;
    assert [5 as bv32, 5][..1] == [5];
    assert MaxCellCount([5, 5]) == 5;
    assert [5 as bv32, 5, 5][..2] == [5, 5];
    assert [9 as bv32][..0] == [];
    assert MaxCellCount([9]) == 9;
    assert [9 as bv32, 5][..1] == [9];
    assert MaxCellCount([9, 5]) == 9;
    assert [9 as bv32, 5, 5][..2] == [9, 5];
    assert [10 as bv32][..0] == [];
    assert MaxCellCount([10]) == 10;
    assert [10 as bv32, 5][..1] == [10];
    assert MaxCellCount([10, 5]) == 10;
    assert [10 as bv32, 5, 5][..2] == [10, 5];
  }

  /** The logarithms the examples need, one halving at a time. */
  lemma SmallLogs()
    ensures Log2(4) == 2 && Log2(8) == 3 && Log2(16) == 4
  {
    assert Log2(2) == 1 + Log2(1);
    assert Log2(4) == 1 + Log2(2);
    assert Log2(8) == 1 + Log2(4);
    assert Log2(16) == 1 + Log2(8);
  }

  /** A 5x5x5 grid gives a depth-2 octree; 9 cells on one axis give 3, 10 give 4. */
  lemma BuildDepthExamples()
    ensures MaxCellCount([5, 5, 5]) == 5 && BuildDepth(5) == 2
    ensures MaxCellCount([9, 5, 5]) == 9 && BuildDepth(9) == 3
    ensures MaxCellCount([10, 5, 5]) == 10 && BuildDepth(10) == 4
  {
    MaxCellCountExamples();
    NextPow2Unique(4, 4, NextPow2(4));
    NextPow2Unique(8, 8, NextPow2(8));
    NextPow2Unique(9, 16, NextPow2(9));
    SmallLogs();
  }

  /** The coarsening stage gives the same 5x5x5 grid depth 3. */
  lemma CoarsenDepthExample()
    ensures CoarsenDepth(5) == 3
  {
    NextPow2Unique(5, 8, NextPow2(5));
    SmallLogs();
  }
}

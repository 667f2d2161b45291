/**
 * The bit-flag, tag and validity macros of sources/mmg3d.h and its
 * documented index tables.
 *
 * C `int` flags are 32-bit patterns (`bv32`); a point's `char tag` is an
 * 8-bit pattern (`bv8`) compared as a signed char, the usual signedness of
 * plain `char`.
 */
module MmgMacros {
  import opened Wrappers

  /** `MG_MAX(a,b)`: the larger argument. */
  function MgMax(a: int, b: int): (r: int)
    ensures r == a || r == b
    ensures a <= r && b <= r
  {
    if a > b then a else b
  }

  /** `MG_MIN(a,b)`: the smaller argument. */
  function MgMin(a: int, b: int): (r: int)
    ensures r == a || r == b
    ensures r <= a && r <= b
  {
    if a < b then a else b
  }

  // Tags (lines 63-70).
  const MG_NOTAG: bv8 := 0
  const MG_REF: bv8 := 1 << 0
  const MG_GEO: bv8 := 1 << 1
  const MG_REQ: bv8 := 1 << 2
  const MG_NOM: bv8 := 1 << 3
  const MG_BDY: bv8 := 1 << 4
  const MG_CRN: bv8 := 1 << 5
  const MG_NUL: bv8 := 1 << 6

  const TAGS: seq<bv8> := [MG_REF, MG_GEO, MG_REQ, MG_NOM, MG_BDY, MG_CRN, MG_NUL]

  /** Bit number `k` of a tag, counted from the least significant. */
  predicate TagBit(tag: bv8, k: bv8)
    requires k < 8
  {
    (tag >> k) & 1 == 1
  }

  /** The tags are the single bits 1, 2, 4, ..., 64, in that order. */
  lemma TagsAreSingleBits()
    ensures |TAGS| == 7 && MG_NOTAG == 0
    ensures forall i :: 0 <= i < 7 ==> TAGS[i] == (1 as bv8) << (i as bv8)
    ensures forall i, j :: 0 <= i < j < 7 ==> TAGS[i] & TAGS[j] == 0
  {
  }

  /** The tag names set in `tag`. */
  function TagsOf(tag: bv8): set<bv8>
  {
    set t | t in TAGS && tag & t != 0
  }

  /** Bit number k of a tag is set iff the k-th tag name's mask meets it. */
  lemma TagBitMask(tag: bv8, k: nat)
    requires k < 7
    ensures TagBit(tag, k as bv8) <==> tag & TAGS[k] != 0
  {
    if k == 0 {
    } else if k == 1 {
    } else if k == 2 {
    } else if k == 3 {
    } else if k == 4 {
    } else if k == 5 {
    } else {
    }
  }

  /** The k-th tag name is decoded from `tag` iff bit k of `tag` is set. */
  lemma TagsOfBits(tag: bv8)
    ensures forall k :: 0 <= k < 7 ==> (TAGS[k] in TagsOf(tag) <==> TagBit(tag, k as bv8))
  {
    forall k | 0 <= k < 7
      ensures TAGS[k] in TagsOf(tag) <==> TagBit(tag, k as bv8)
    {
      TagBitMask(tag, k);
    }
  }

  /** The documented example: tag 23 = 16 + 4 + 2 + 1 (lines 104-105). */
  lemma Tag23()
    ensures TagsOf(23) == {MG_REF, MG_GEO, MG_REQ, MG_BDY}
    ensures MG_REF | MG_GEO | MG_REQ | MG_BDY == 23
  {
    assert MG_NOM in TAGS && MG_CRN in TAGS && MG_NUL in TAGS;
  }

  /** `MG_EDG(tag)`: edge or ridge. */
  predicate Edg(tag: bv8)
  {
    (tag & MG_GEO) != 0 || (tag & MG_REF) != 0
  }

  /** `MG_SIN(tag)`: corner or required. */
  predicate Sin(tag: bv8)
  {
    (tag & MG_CRN) != 0 || (tag & MG_REQ) != 0
  }

  lemma EdgSinBits(tag: bv8)
    ensures Edg(tag) <==> TagBit(tag, 0) || TagBit(tag, 1)
    ensures Sin(tag) <==> TagBit(tag, 2) || TagBit(tag, 5)
    ensures Edg(tag) <==> MG_REF in TagsOf(tag) || MG_GEO in TagsOf(tag)
    ensures Sin(tag) <==> MG_REQ in TagsOf(tag) || MG_CRN in TagsOf(tag)
  {
  }

  /** The value of a signed `char`. */
  function SignedChar(c: bv8): (v: int)
    ensures -128 <= v < 128
    ensures (v - c as int) % 256 == 0
  {
    if c < 0x80 then c as int else c as int - 256
  }

  /** The fields of a point the macros read. */
  datatype Point = Point(tag: bv8)

  /** The fields of a tetrahedron the macros read: its four vertex numbers. */
  datatype Tetra = Tetra(v: seq<int>)

  /** `MG_VOK(ppt)`: a point that exists and whose (signed) tag is below `MG_NUL`. */
  predicate Vok(ppt: Option<Point>)
  {
    ppt.Some? && (ppt.value.tag ^ 0x80) < (MG_NUL ^ 0x80)
  }

  /**
   * For a non-negative tag, `MG_VOK` holds exactly when the point exists and
   * carries neither the `MG_NUL` bit nor the (unused) bit 7.  A negative
   * `char` tag passes the test whatever its bits.
   */
  lemma VokMeaning(ppt: Option<Point>)
    ensures Vok(ppt) <==> ppt.Some? && SignedChar(ppt.value.tag) < 64
    ensures ppt.Some? && ppt.value.tag < 0x80 ==> (Vok(ppt) <==> !TagBit(ppt.value.tag, 6))
    ensures ppt.Some? && ppt.value.tag >= 0x80 ==> Vok(ppt)
  {
  }

  /** `MG_EOK(pt)`: an element that exists and whose first vertex is positive. */
  predicate Eok(pt: Option<Tetra>)
    requires pt.Some? ==> |pt.value.v| == 4
  {
    pt.Some? && pt.value.v[0] > 0
  }

  lemma EokMeaning(pt: Option<Tetra>)
    requires pt.Some? ==> |pt.value.v| == 4
    ensures pt.None? ==> !Eok(pt)
    ensures pt.Some? ==> (Eok(pt) <==> pt.value.v[0] >= 1)
  {
  }

  /** Bit number `bit` of a C int flag, counted from the least significant. */
  predicate BitSet(flag: bv32, bit: bv32)
    requires bit < 31
  {
    (flag >> bit) & 1 == 1
  }

  /** Every bit of `f` other than bit number `bit` is that of `g`. */
  predicate SameOtherBits(f: bv32, g: bv32, bit: bv32)
    requires bit < 31
  {
    f & !((1 as bv32) << bit) == g & !((1 as bv32) << bit)
  }

  /** `MG_GET(flag,bit)`: the flag masked down to bit number `bit`. */
  function Get(flag: bv32, bit: bv32): (r: bv32)
    requires bit < 31
    ensures r == 0 || r == (1 as bv32) << bit
  {
    flag & ((1 as bv32) << bit)
  }

  /** `MG_GET` is non-zero exactly when the bit is set. */
  lemma GetMeaning(flag: bv32, bit: bv32)
    requires bit < 31
    ensures Get(flag, bit) != 0 ==> BitSet(flag, bit)
    ensures BitSet(flag, bit) ==> Get(flag, bit) != 0
  {
  }

  lemma SetBits(flag: bv32, bit: bv32, r: bv32)
    requires bit < 31 && r == flag | ((1 as bv32) << bit)
    ensures BitSet(r, bit) && SameOtherBits(r, flag, bit)
  {
  }

  lemma SetSetBit(flag: bv32, bit: bv32, r: bv32)
    requires bit < 31 && r == flag | ((1 as bv32) << bit)
    requires BitSet(flag, bit)
    ensures r == flag
  {
  }

  lemma ClrBits(flag: bv32, bit: bv32, r: bv32)
    requires bit < 31 && r == flag & !((1 as bv32) << bit)
    ensures !BitSet(r, bit) && SameOtherBits(r, flag, bit)
  {
  }

  lemma ClrClearBit(flag: bv32, bit: bv32, r: bv32)
    requires bit < 31 && r == flag & !((1 as bv32) << bit)
    requires !BitSet(flag, bit)
    ensures r == flag
  {
  }

  /**
   * `MG_SET(flag,bit)`: the flag with bit number `bit` set and the others
   * kept; setting a set bit changes nothing, so setting twice is setting
   * once.  The macro updates its argument in place; the model returns the
   * new value.
   */
  method Set(flag: bv32, bit: bv32) returns (r: bv32)
    requires bit < 31
    ensures BitSet(r, bit) && SameOtherBits(r, flag, bit)
    ensures BitSet(flag, bit) ==> r == flag
  {
    r := flag;
    r := r | ((1 as bv32) << bit);
    SetBits(flag, bit, r);
    if BitSet(flag, bit) {
      SetSetBit(flag, bit, r);
    }
  }

  /** `MG_CLR(flag,bit)`: the flag with bit number `bit` cleared and the others kept. */
  method Clr(flag: bv32, bit: bv32) returns (r: bv32)
    requires bit < 31
    ensures !BitSet(r, bit) && SameOtherBits(r, flag, bit)
    ensures !BitSet(flag, bit) ==> r == flag
  {
    r := flag;
    r := r & !((1 as bv32) << bit);
    ClrBits(flag, bit, r);
    if !BitSet(flag, bit) {
      ClrClearBit(flag, bit, r);
    }
  }

  /**
   * A flag is fixed by bit number `bit` together with all the others, so
   * the contracts of `Set` and `Clr` determine their results.
   */
  lemma BitAndRestDetermine(f: bv32, g: bv32, bit: bv32)
    requires bit < 31
    requires BitSet(f, bit) == BitSet(g, bit) && SameOtherBits(f, g, bit)
    ensures f == g
  {
  }

  // Index tables (lines 85-88), with the values their comments give.
  const INXT2: seq<nat> := [1, 2, 0]
  const IPRV2: seq<nat> := [2, 0, 1]
  const INXT3: seq<nat> := [1, 2, 3, 0, 1, 2, 3]
  const IPRV3: seq<nat> := [3, 0, 1, 2, 3, 0, 1]

  /** Next and previous vertex of a triangle are inverse permutations of 0..2. */
  lemma TriangleTables()
    ensures |INXT2| == 3 && |IPRV2| == 3
    ensures forall i :: 0 <= i < 3 ==> INXT2[i] == (i + 1) % 3 && IPRV2[i] == (i + 2) % 3
    ensures forall i :: 0 <= i < 3 ==> IPRV2[INXT2[i]] == i && INXT2[IPRV2[i]] == i
  {
  }

  /**
   * Next and previous vertex of a tetrahedron, over seven entries so that
   * `i + 1`, `i + 2`, `i + 3` need no reduction for i in 0..3.
   */
  lemma TetraTables()
    ensures |INXT3| == 7 && |IPRV3| == 7
    ensures forall i :: 0 <= i < 7 ==> INXT3[i] == (i + 1) % 4 && IPRV3[i] == (i + 3) % 4
    ensures forall i :: 0 <= i < 4 ==> IPRV3[INXT3[i]] == i && INXT3[IPRV3[i]] == i
  {
  }
}

/**
 Which bin holds a chunk of a given size: the index macros of the allocator.
 Sizes are `size_t` values; the tree index narrows them to 32 bits.
 */
module BinIndex {
  import opened Words

  const NSMALLBINS: nat := 32
  const NTREEBINS: nat := 32
  const TREEBIN_SHIFT: nat := 8
  const MIN_LARGE_SIZE: nat := 256
  const TREE_INDEX_LIMIT: nat := 0x100_0000_0000  // 2^40

  predicate IsSmall(s: nat) { s / 8 < NSMALLBINS }

  function SmallIndex(s: nat): nat { s / 8 }

  /** Assignment to a 32-bit `unsigned int`. */
  function Narrow32(x: nat): (r: nat)
    ensures r < WORD32
    ensures x < WORD32 ==> r == x
  {
    x % WORD32
  }

  /** The index of a size whose narrowed `s >> 8` is `x`, 0 < x <= 0xFFFF. */
  function RangeIndex(s: nat, x: nat): nat
    requires x > 0
  {
    2 * Log2(x) + s / Pow2(Log2(x) + TREEBIN_SHIFT - 1) % 2
  }

  lemma {:induction false} RangeIndexBound(s: nat, x: nat)
    requires 0 < x <= 0xFFFF
    ensures RangeIndex(s, x) < NTREEBINS
  {
    Pow2Values();
    if Log2(x) >= 16 { Pow2Monotone(16, Log2(x)); }
  }

  function ComputeTreeIndex(s: nat): (i: nat)
    ensures i < NTREEBINS
  {
    var x := Narrow32(s / 256);
    if x == 0 then 0
    else if x > 0xFFFF then NTREEBINS - 1
    else
      RangeIndexBound(s, x);
      RangeIndex(s, x)
  }

  /** The smallest size that belongs to tree bin `i`. */
  function MinSize(i: nat): nat {
    Pow2(i / 2 + TREEBIN_SHIFT) + i % 2 * Pow2(i / 2 + TREEBIN_SHIFT - 1)
  }

  /** Bin `i` is the right one for size `s`. */
  predicate Bracket(s: nat, i: nat) {
    i < NTREEBINS && MinSize(i) <= s && (i < NTREEBINS - 1 ==> s < MinSize(i + 1))
  }

  lemma {:induction false} MinSizeStep(i: nat)
    ensures MinSize(i + 1) == MinSize(i) + Pow2(i / 2 + TREEBIN_SHIFT - 1)
  {
    assert (i + 1) % 2 == 1 - i % 2;
    if i % 2 == 0 {
      assert (i + 1) / 2 == i / 2;
    } else {
      assert (i + 1) / 2 == i / 2 + 1;
    }
  }

  lemma {:induction false} MinSizeMonotone(i: nat, j: nat)
    requires i < j
    ensures MinSize(i) < MinSize(j)
    decreases j - i
  {
    MinSizeStep(i);
    if i + 1 < j { MinSizeMonotone(i + 1, j); }
  }

  lemma {:induction false} BracketUnique(s: nat, i: nat, j: nat)
    requires Bracket(s, i) && Bracket(s, j)
    ensures i == j
  {
    if i < j {
      if i + 1 < j { MinSizeMonotone(i + 1, j); }
    } else if j < i {
      if j + 1 < i { MinSizeMonotone(j + 1, i); }
    }
  }

  /** The third-highest-bit test of the index macro, as a comparison. */
  lemma {:induction false} HalfBit(s: nat, h: nat)
    requires h > 0 && 2 * h <= s < 4 * h
    ensures s / h % 2 == if s < 3 * h then 0 else 1
  {
    DivLess(s, h, 2);
    DivLess(s, h, 3);
    DivLess(s, h, 4);
  }

  lemma {:induction false} SizeFromTop(s: nat, k: nat)
    requires Pow2(k) <= s / 256 < Pow2(k + 1)
    ensures 2 * Pow2(k + 7) <= s < 4 * Pow2(k + 7)
  {
    Pow2Values();
    Pow2Sum(k, 8);
    Pow2Sum(k + 1, 8);
    DivLess(s, 256, Pow2(k + 1));
    DivLess(s, 256, Pow2(k));
  }

  lemma {:induction false} MinSizeHalves(k: nat)
    ensures MinSize(2 * k) == 2 * Pow2(k + 7)
    ensures MinSize(2 * k + 1) == 3 * Pow2(k + 7)
    ensures MinSize(2 * k + 2) == 4 * Pow2(k + 7)
  {
    assert 2 * k / 2 == k && 2 * k % 2 == 0;
    assert (2 * k + 1) / 2 == k && (2 * k + 1) % 2 == 1;
    MinSizeStep(2 * k + 1);
  }

  lemma {:induction false} IndexBracketNarrow(s: nat)
    requires 0 < s / 256 <= 0xFFFF
    ensures Bracket(s, ComputeTreeIndex(s))
  {
    var k := Log2(s / 256);
    var h := Pow2(k + 7);
    SizeFromTop(s, k);
    MinSizeHalves(k);
    NarrowIndexIs(s, k, h);
    BracketFrom(s, k, h, if s < 3 * h then 0 else 1);
  }

  lemma {:induction false} NarrowIndexIs(s: nat, k: nat, h: nat)
    requires 0 < s / 256 <= 0xFFFF && k == Log2(s / 256) && h == Pow2(k + 7) && 2 * h <= s < 4 * h
    ensures ComputeTreeIndex(s) == 2 * k + (if s < 3 * h then 0 else 1) < NTREEBINS
  {
    RangeIndexHalf(s, s / 256, k, h);
    RangeIndexBound(s, s / 256);
  }

  lemma {:induction false} RangeIndexHalf(s: nat, x: nat, k: nat, h: nat)
    requires 0 < x && k == Log2(x) && h == Pow2(k + 7) && 2 * h <= s < 4 * h
    ensures RangeIndex(s, x) == 2 * k + (if s < 3 * h then 0 else 1)
  {
    HalfBit(s, h);
    assert k + TREEBIN_SHIFT - 1 == k + 7;
  }

  lemma {:induction false} BracketFrom(s: nat, k: nat, h: nat, bit: nat)
    requires 2 * h <= s < 4 * h && bit == (if s < 3 * h then 0 else 1) && 2 * k + bit < NTREEBINS
    requires MinSize(2 * k) == 2 * h && MinSize(2 * k + 1) == 3 * h && MinSize(2 * k + 2) == 4 * h
    ensures Bracket(s, 2 * k + bit)
  {}

  lemma {:induction false} IndexBracketWide(s: nat)
    requires s / 256 > 0xFFFF
    ensures Bracket(s, NTREEBINS - 1)
  {
    Pow2Values();
    assert Pow2(22) == 0x40_0000 && Pow2(23) == 0x80_0000 by {
      assert Pow2(24) == 2 * Pow2(23);
    }
    assert MinSize(31) == Pow2(23) + Pow2(22);
  }

  /** Every size up to the narrowing limit lands in the bin whose range holds it. */
  lemma {:induction false} TreeIndexBracket(s: nat)
    requires MIN_LARGE_SIZE <= s < TREE_INDEX_LIMIT
    ensures Bracket(s, ComputeTreeIndex(s))
  {
    if s / 256 <= 0xFFFF { IndexBracketNarrow(s); } else { IndexBracketWide(s); }
  }

  lemma {:induction false} SameParity(m: nat, v: nat)
    ensures (2 * m + v) % 2 == v % 2
  {
  }

  lemma {:induction false} BitTwentyTwo(s: nat)
    ensures s / 0x40_0000 % 2 == Narrow32(s / 256) / 0x4000 % 2
  {
    var x, a := s / 256, s % 256;
    var u, r := x / WORD32, Narrow32(x);
    assert x == WORD32 * u + r;
    var v, b := r / 0x4000, r % 0x4000;
    assert s == 0x40_0000 * (0x4_0000 * u + v) + (256 * b + a);
    QuotientIs(s, 0x40_0000, 0x4_0000 * u + v, 256 * b + a);
    SameParity(0x2_0000 * u, v);
  }

  lemma {:induction false} RangeIndexIsLast(s: nat, r: nat)
    requires 0 < r <= 0xFFFF
    requires s / 0x40_0000 % 2 == r / 0x4000 % 2
    ensures RangeIndex(s, r) == NTREEBINS - 1 <==> r >= 0xC000
  {
    TopOfRange(r);
    if r >= 0x8000 {
      assert Log2(r) + TREEBIN_SHIFT - 1 == 22;
      QuotientIs(r, 0x4000, if r < 0xC000 then 2 else 3, if r < 0xC000 then r - 0x8000 else r - 0xC000);
    }
  }

  lemma {:induction false} TopOfRange(r: nat)
    requires 0 < r <= 0xFFFF
    ensures Pow2(22) == 0x40_0000
    ensures if r >= 0x8000 then Log2(r) == 15 else Log2(r) < 15
  {
    assert Pow2(15) == 0x8000 && Pow2(16) == 0x1_0000 && Pow2(22) == 0x40_0000 by {
      Pow2Values();
      Pow2Sum(15, 7);
    }
    if r >= 0x8000 {
      Log2Unique(r, 15);
    } else if Log2(r) >= 15 {
      Pow2Monotone(15, Log2(r));
    }
  }

  /** Once `s >> 8` is narrowed, only its low 32 bits choose the index. */
  lemma {:induction false} NarrowedIndex(s: nat)
    requires 0 < Narrow32(s / 256) <= 0xFFFF
    ensures ComputeTreeIndex(s) == NTREEBINS - 1 <==> Narrow32(s / 256) >= 0xC000
  {
    BitTwentyTwo(s);
    RangeIndexIsLast(s, Narrow32(s / 256));
  }

  /**
   Beyond 2^40 the narrowing to `unsigned int` loses the high bits. The index is still
   right exactly when the low 32 bits of `s >> 8` reach 0xC000.
   */
  lemma {:induction false} TreeIndexExact(s: nat)
    requires MIN_LARGE_SIZE <= s
    ensures Bracket(s, ComputeTreeIndex(s)) <==> s < TREE_INDEX_LIMIT || Narrow32(s / 256) >= 0xC000
  {
    var r := Narrow32(s / 256);
    if s < TREE_INDEX_LIMIT {
      TreeIndexBracket(s);
    } else {
      IndexBracketWide(s);
      if Bracket(s, ComputeTreeIndex(s)) {
        BracketUnique(s, ComputeTreeIndex(s), NTREEBINS - 1);
      }
      if 0 < r <= 0xFFFF { NarrowedIndex(s); }
    }
  }

  /** A larger size is never filed in an earlier bin. */
  lemma {:induction false} TreeIndexMonotone(s: nat, t: nat)
    requires MIN_LARGE_SIZE <= s <= t < TREE_INDEX_LIMIT
    ensures ComputeTreeIndex(s) <= ComputeTreeIndex(t)
  {
    TreeIndexBracket(s);
    TreeIndexBracket(t);
    var i, j := ComputeTreeIndex(s), ComputeTreeIndex(t);
    if j < i {
      if j + 1 < i { MinSizeMonotone(j + 1, i); }
    }
  }
}

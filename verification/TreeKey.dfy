/**
 The 64-bit search key of a tree bin: the size shifted so that the bit deciding
 between the two children is the top bit, then shifted once per level.
 */
module TreeKey {
  import opened Words
  import opened BinIndex

  const TOP: nat := 0x8000_0000_0000_0000

  /** Bin `i` holds sizes from `BinLo(i)` up to `BinLo(i) + 2^BinWidth(i)`. */
  function BinLo(i: nat): nat { if i == NTREEBINS - 1 then 0 else MinSize(i) }

  function BinWidth(i: nat): (w: nat) { if i == NTREEBINS - 1 then 64 else i / 2 + 7 }

  function LeftShift(i: nat): nat
    requires i < NTREEBINS
  {
    if i == NTREEBINS - 1 then 0 else 63 - (i / 2 + TREEBIN_SHIFT - 2)
  }

  function FirstKey(s: nat, i: nat): nat
    requires i < NTREEBINS
  {
    s * Pow2(LeftShift(i)) % WORD64
  }

  function TopBit(k: nat): bool { k / TOP % 2 == 1 }

  function NextKey(k: nat): nat { k * 2 % WORD64 }

  /** `k` is the key of `s` once the range is down to [lo, lo + 2^w). */
  ghost predicate KeyFor(k: nat, s: nat, lo: nat, w: nat)
  {
    w <= 64 && lo <= s < lo + Pow2(w) && k == Pow2(64 - w) * (s - lo)
  }

  lemma {:induction false} BinRange(s: nat, i: nat)
    requires i < NTREEBINS && Bracket(s, i) && s < WORD64
    ensures BinWidth(i) <= 64 && BinLo(i) <= s < BinLo(i) + Pow2(BinWidth(i))
  {
    if i == NTREEBINS - 1 { Pow2Values(); } else { MinSizeStep(i); }
  }

  lemma {:induction false} ModStep(a: nat, q: nat, m: nat)
    requires m > 0 && a < m
    ensures (q * m + a) % m == a
  {
    QuotientIs(q * m + a, m, q, a);
  }

  lemma {:induction false} KeyStart(s: nat, i: nat)
    requires i < NTREEBINS && Bracket(s, i) && s < WORD64
    ensures KeyFor(FirstKey(s, i), s, BinLo(i), BinWidth(i))
  {
    BinRange(s, i);
    var w, lo := BinWidth(i), BinLo(i);
    Pow2Values();
    if i < NTREEBINS - 1 {
      var h, q := Pow2(64 - w), 2 + i % 2;
      assert LeftShift(i) == 64 - w;
      assert Pow2(w) * h == WORD64 by { Pow2Sum(w, 64 - w); }
      assert lo == Pow2(w) * q by { assert Pow2(w + 1) == 2 * Pow2(w); LoIs(i, Pow2(w)); }
      KeyProduct(s, lo, Pow2(w), h, q);
    } else {
      assert Pow2(0) == 1;
    }
  }

  lemma {:induction false} LoIs(i: nat, p: nat)
    requires p == Pow2(i / 2 + 7)
    ensures MinSize(i) == p * (2 + i % 2)
  {
    assert Pow2(i / 2 + 8) == 2 * p;
    if i % 2 == 0 { assert p * (2 + i % 2) == 2 * p; } else { assert p * (2 + i % 2) == 3 * p; }
  }

  lemma {:induction false} KeyProduct(s: nat, lo: nat, p: nat, h: nat, q: nat)
    requires lo <= s < lo + p && lo == p * q && p * h == WORD64
    ensures s * h % WORD64 == h * (s - lo)
  {
    var d := s - lo;
    assert s * h == q * WORD64 + h * d by {
      assert s * h == p * q * h + d * h;
      assert p * q * h == q * (p * h);
    }
    assert h * d < WORD64 by {
      assert d + 1 <= p;
      assert h * (d + 1) <= h * p;
    }
    ModStep(h * d, q, WORD64);
  }

  lemma {:induction false} Scaled(h: nat, e: nat, p: nat)
    requires h > 0 && e < p
    ensures h * e < h * p
  {
  }

  lemma {:induction false} KeyHigh(k: nat, h: nat, p: nat, e: nat)
    requires h > 0 && h * p == TOP && e < p && k == h * (p + e)
    ensures TopBit(k) && NextKey(k) == 2 * h * e
  {
    Scaled(h, e, p);
    assert k == TOP + h * e;
    QuotientIs(k, TOP, 1, h * e);
    assert k * 2 == 1 * WORD64 + 2 * (h * e);
    ModStep(2 * (h * e), 1, WORD64);
  }

  lemma {:induction false} KeyLow(k: nat, h: nat, p: nat, d: nat)
    requires h > 0 && h * p == TOP && d < p && k == h * d
    ensures !TopBit(k) && NextKey(k) == 2 * h * d
  {
    Scaled(h, d, p);
    QuotientIs(k, TOP, 0, h * d);
    ModStep(2 * (h * d), 0, WORD64);
  }

  /** The top bit says which half, and the shifted key is the key of that half. */
  lemma {:induction false} KeyDescend(k: nat, s: nat, lo: nat, w: nat)
    requires KeyFor(k, s, lo, w) && w > 0
    ensures TopBit(k) <==> s >= lo + Pow2(w - 1)
    ensures KeyFor(NextKey(k), s, if TopBit(k) then lo + Pow2(w - 1) else lo, w - 1)
  {
    var h, p, d := Pow2(64 - w), Pow2(w - 1), s - lo;
    assert Pow2(64 - (w - 1)) == 2 * h;
    assert h * p == TOP by { Pow2Sum(64 - w, w - 1); Pow2Values(); }
    if d >= p {
      KeyHigh(k, h, p, d - p);
    } else {
      KeyLow(k, h, p, d);
    }
  }
}

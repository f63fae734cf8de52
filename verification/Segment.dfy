/** One segment of an mspace as the chunks that tile it. */
module Segment {

  /** A chunk: its size, whether it is in use, and the chunk before it (0 for the first). */
  datatype Tile = Tile(size: nat, used: bool, prev: int)

  datatype Seg = Seg(tiles: map<int, Tile>, base: int, end: int)

  const ALIGN: nat := 16

  function After(g: Seg, p: int): int
    requires p in g.tiles
  {
    p + g.tiles[p].size
  }

  /** What holds at one chunk: alignment (the last chunk may have any size), and the links to its two neighbours. */
  ghost predicate TileOk(g: Seg, p: int)
    requires p in g.tiles
  {
    var t, n := g.tiles[p], After(g, p);
    && g.base <= p && p % ALIGN == 0 && t.size > 0
    && (n != g.end ==> t.size % ALIGN == 0)
    && (n == g.end || (n in g.tiles && g.tiles[n].prev == p && n < g.end))
    && (p != g.base ==> t.prev in g.tiles && After(g, t.prev) == p)
  }

  ghost predicate Apart(g: Seg, p: int, q: int)
    requires p in g.tiles
  {
    p < q ==> After(g, p) <= q
  }

  /** Chunks follow one another from `base` to `end` without gap or overlap. */
  ghost predicate Tiling(g: Seg)
  {
    && g.base in g.tiles && g.base > 0
    && (forall p {:trigger TileOk(g, p)} :: p in g.tiles ==> TileOk(g, p))
    && (forall p, q {:trigger Apart(g, p, q)} :: p in g.tiles && q in g.tiles ==> Apart(g, p, q))
  }

  // Changes to a tiling

  function SetUsed(g: Seg, p: int, used: bool): Seg
    requires p in g.tiles
  {
    g.(tiles := g.tiles[p := g.tiles[p].(used := used)])
  }

  function Relinked(tiles: map<int, Tile>, n: int, prev: int): map<int, Tile>
  {
    if n in tiles then tiles[n := tiles[n].(prev := prev)] else tiles
  }

  /** Cut chunk `p` in two after `nb` bytes; the second part is free. */
  function Split(g: Seg, p: int, nb: nat): Seg
    requires p in g.tiles && nb < g.tiles[p].size
  {
    var t, r := g.tiles[p], p + nb;
    g.(tiles := Relinked(g.tiles, After(g, p), r)[p := t.(size := nb)][r := Tile(t.size - nb, false, p)])
  }

  /** Join chunk `p` with the chunk after it. */
  function Merge(g: Seg, p: int): Seg
    requires p in g.tiles && After(g, p) in g.tiles
  {
    var n := After(g, p);
    g.(tiles := (Relinked(g.tiles, After(g, n), p) - {n})[p := g.tiles[p].(size := g.tiles[p].size + g.tiles[n].size)])
  }

  /** The last chunk grows with the segment. */
  function Extend(g: Seg, p: int, more: nat): Seg
    requires p in g.tiles
  {
    Seg(g.tiles[p := g.tiles[p].(size := g.tiles[p].size + more)], g.base, g.end + more)
  }

  lemma {:induction false} SetUsedTiling(g: Seg, p: int, used: bool)
    requires Tiling(g) && p in g.tiles
    ensures Tiling(SetUsed(g, p, used))
  {
    var h := SetUsed(g, p, used);
    assert TileOk(g, g.base) && TileOk(g, p);
    forall q | q in h.tiles ensures TileOk(h, q) { assert TileOk(g, q); }
    forall q, q' | q in h.tiles && q' in h.tiles ensures Apart(h, q, q') { assert Apart(g, q, q'); }
  }

  /** The last chunk of a tiling has the greatest address. */
  lemma {:induction false} LastIsGreatest(g: Seg, p: int, q: int)
    requires Tiling(g) && p in g.tiles && q in g.tiles && After(g, p) == g.end
    ensures q <= p
    ensures q != p ==> After(g, q) != g.end
  {
    assert Apart(g, p, q) && Apart(g, q, p) && TileOk(g, q) && TileOk(g, p);
  }

  lemma {:induction false} EndOutside(g: Seg, a: int)
    requires Tiling(g) && a >= g.end
    ensures a !in g.tiles
  {
    assert a in g.tiles ==> TileOk(g, a);
  }

  lemma {:induction false} SplitTileOk(g: Seg, p: int, nb: nat, q: int)
    requires Tiling(g) && p in g.tiles && 0 < nb < g.tiles[p].size && nb % ALIGN == 0 && p + nb !in g.tiles
    requires q in Split(g, p, nb).tiles
    ensures TileOk(Split(g, p, nb), q)
  {
    if q == p || q == p + nb {
      SplitPartsOk(g, p, nb);
    } else {
      SplitOtherOk(g, p, nb, q);
    }
  }

  lemma {:induction false} SplitPartsOk(g: Seg, p: int, nb: nat)
    requires Tiling(g) && p in g.tiles && 0 < nb < g.tiles[p].size && nb % ALIGN == 0 && p + nb !in g.tiles
    ensures TileOk(Split(g, p, nb), p) && TileOk(Split(g, p, nb), p + nb)
  {
    assert TileOk(g, p);
    assert After(Split(g, p, nb), p) == p + nb && After(Split(g, p, nb), p + nb) == After(g, p);
  }

  lemma {:induction false} SplitOtherOk(g: Seg, p: int, nb: nat, q: int)
    requires Tiling(g) && p in g.tiles && 0 < nb < g.tiles[p].size && p + nb !in g.tiles && q in g.tiles && q != p
    ensures TileOk(Split(g, p, nb), q)
  {
    assert TileOk(g, q) && TileOk(g, p) && After(Split(g, p, nb), q) == After(g, q);
  }

  lemma {:induction false} SplitApart(g: Seg, p: int, nb: nat, q: int, q': int)
    requires Tiling(g) && p in g.tiles && 0 < nb < g.tiles[p].size && p + nb !in g.tiles
    requires q in Split(g, p, nb).tiles && q' in Split(g, p, nb).tiles
    ensures Apart(Split(g, p, nb), q, q')
  {
    var r := p + nb;
    if q == r {
      if q' != r { assert Apart(g, p, q'); }
    } else if q' == r {
      assert Apart(g, q, p) && Apart(g, p, q);
    } else {
      assert Apart(g, q, q');
    }
  }

  lemma {:induction false} SplitTiling(g: Seg, p: int, nb: nat)
    requires Tiling(g) && p in g.tiles && 0 < nb < g.tiles[p].size && nb % ALIGN == 0
    ensures p + nb !in g.tiles
    ensures Tiling(Split(g, p, nb))
    ensures After(Split(g, p, nb), p + nb) == After(g, p)
  {
    var h := Split(g, p, nb);
    assert p + nb in g.tiles ==> Apart(g, p, p + nb);
    forall q | q in h.tiles ensures TileOk(h, q) { SplitTileOk(g, p, nb, q); }
    forall q, q' | q in h.tiles && q' in h.tiles ensures Apart(h, q, q') { SplitApart(g, p, nb, q, q'); }
  }

  lemma {:induction false} MergeTileOk(g: Seg, p: int, q: int)
    requires Tiling(g) && p in g.tiles && After(g, p) in g.tiles && q in Merge(g, p).tiles
    ensures TileOk(Merge(g, p), q)
  {
    if q == p {
      MergedOk(g, p);
    } else {
      MergeOtherOk(g, p, q);
    }
  }

  lemma {:induction false} MergedOk(g: Seg, p: int)
    requires Tiling(g) && p in g.tiles && After(g, p) in g.tiles
    ensures TileOk(Merge(g, p), p)
  {
    var n := After(g, p);
    assert TileOk(g, p) && TileOk(g, n);
  }

  lemma {:induction false} MergeOtherOk(g: Seg, p: int, q: int)
    requires Tiling(g) && p in g.tiles && After(g, p) in g.tiles && q in Merge(g, p).tiles && q != p
    ensures TileOk(Merge(g, p), q)
  {
    var n := After(g, p);
    assert TileOk(g, p) && TileOk(g, n) && TileOk(g, q);
    assert n < g.end;
  }

  lemma {:induction false} MergeTiling(g: Seg, p: int)
    requires Tiling(g) && p in g.tiles && After(g, p) in g.tiles
    ensures Tiling(Merge(g, p))
    ensures After(Merge(g, p), p) == After(g, After(g, p))
  {
    var n, h := After(g, p), Merge(g, p);
    assert TileOk(g, p) && TileOk(g, n);
    forall q | q in h.tiles ensures TileOk(h, q) { MergeTileOk(g, p, q); }
    forall q, q' | q in h.tiles && q' in h.tiles ensures Apart(h, q, q') {
      assert Apart(g, q, q');
      if q == p { assert Apart(g, n, q') && Apart(g, q', n); }
    }
  }

  lemma {:induction false} ExtendTiling(g: Seg, p: int, more: nat)
    requires Tiling(g) && p in g.tiles && After(g, p) == g.end
    ensures Tiling(Extend(g, p, more))
  {
    var h := Extend(g, p, more);
    forall q | q in h.tiles ensures TileOk(h, q) {
      assert TileOk(g, q);
      LastIsGreatest(g, p, q);
    }
    forall q, q' | q in h.tiles && q' in h.tiles ensures Apart(h, q, q') {
      assert Apart(g, q, q');
      LastIsGreatest(g, p, q');
    }
  }

  // What a tiling means

  /** Every address of the segment lies in exactly one chunk. */
  lemma {:induction false} Covered(g: Seg, a: int) returns (p: int)
    requires Tiling(g) && g.base <= a < g.end
    ensures p in g.tiles && p <= a < After(g, p)
    ensures forall q :: q in g.tiles && q <= a < After(g, q) ==> q == p
  {
    p := CoverFrom(g, g.base, a);
    forall q | q in g.tiles && q <= a < After(g, q) ensures q == p {
      assert Apart(g, q, p) && Apart(g, p, q);
    }
  }

  lemma {:induction false} CoverFrom(g: Seg, s: int, a: int) returns (p: int)
    requires Tiling(g) && s in g.tiles && s <= a < g.end
    ensures p in g.tiles && p <= a < After(g, p)
    decreases g.end - s
  {
    assert TileOk(g, s);
    if a < After(g, s) { p := s; } else { p := CoverFrom(g, After(g, s), a); }
  }
}

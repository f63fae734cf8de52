/** What a release leaves behind: the freed chunk merged with its free neighbours, and nothing else touched. */
module Coalescing {
  import opened BinIndex
  import opened HeapState
  import opened Segment

  /** Where the free chunk that takes in chunk `p` begins and ends. */
  ghost function Start(g: Seg, p: int): int
    requires p in g.tiles
  {
    var v := g.tiles[p].prev;
    if p != g.base && v in g.tiles && !g.tiles[v].used then v else p
  }

  ghost function End(g: Seg, p: int): int
    requires p in g.tiles
  {
    var n := After(g, p);
    if n in g.tiles && !g.tiles[n].used then After(g, n) else n
  }

  /** Chunk `p` has been freed: from start to end of the free space around it there is one free chunk. It is top or
      the victim if one of its parts was, top before victim, and in a bin otherwise. */
  ghost predicate Freed(h: Heap, h': Heap, p: int) {
    && p in h.g.tiles && After(h.g, p) in h.g.tiles
    && var a, b, n := Start(h.g, p), End(h.g, p), After(h.g, p);
    && IsFree(h', a) && After(h'.g, a) == b && SameElsewhere(h.g, h'.g, a, b)
    && h'.top == (if n == h.top then a else h.top)
    && h'.dv == if h.dv != 0 && (h.dv == a || h.dv == n) then (if n == h.top then 0 else a) else h.dv
  }

  /** The chunks outside of a to b are the same. */
  ghost predicate SameElsewhere(g: Seg, g': Seg, a: int, b: int) {
    && (forall q :: q in g'.tiles <==> q in g.tiles && !(a < q < b))
    && (forall q :: q in g'.tiles && q != a ==> g'.tiles[q].size == g.tiles[q].size && g'.tiles[q].used == g.tiles[q].used)
  }

  // The steps

  ghost predicate MergedWith(h: Heap, h': Heap, v: int) { v in h.g.tiles && After(h.g, v) in h.g.tiles && h' == MergedBack(h, v) }

  /** The loose chunk has been written, and is in its bin or still the victim. */
  ghost predicate Rested(h: Heap, h': Heap, p: int) {
    && p in h.g.tiles && After(h.g, p) in h.head
    && var w := FreeWritten(h, p);
    h' == if p == h.dv then w.(dvsize := h.g.tiles[p].size) else Binned(w, p)
  }

  /** The loose chunk has been merged with what follows and has found its place. */
  ghost predicate Settled(h: Heap, h': Heap, p: int) {
    && p in h.g.tiles && After(h.g, p) in h.g.tiles
    && var n := After(h.g, p);
    if n == h.top then h' == MergedTop(h, p)
    else if n == h.dv then h' == MergedDv(h, p)
    else if h.g.tiles[n].used then Rested(h, h', p)
    else Rested(MergedForward(h, p), h', p)
  }

  lemma {:induction false} RestedKeeps(h: Heap, h': Heap, p: int)
    requires Rested(h, h', p)
    ensures h'.g == h.g && h'.top == h.top && h'.dv == h.dv
  {}

  /** What a loose chunk has become once it is settled. */
  lemma {:induction false} SettledIs(h: Heap, h': Heap, p: int)
    requires Core(h, p) && p != 0 && Settled(h, h', p)
    ensures var n, b := After(h.g, p), End(h.g, p);
      && IsFree(h', p) && After(h'.g, p) == b && SameElsewhere(h.g, h'.g, p, b)
      && h'.top == (if n == h.top then p else h.top)
      && h'.dv == if h.dv != 0 && (h.dv == p || h.dv == n) then (if n == h.top then 0 else p) else h.dv
  {
    var n := After(h.g, p);
    assert TileOk(h.g, p) && TileOk(h.g, n);
    if h.g.tiles[n].used {
      RestedKeeps(h, h', p);
      forall q | q in h.g.tiles ensures !(p < q < n) { assert Apart(h.g, p, q); }
    } else {
      MergeIs(h.g, p);
      if n != h.top && n != h.dv { RestedKeeps(MergedForward(h, p), h', p); }
    }
  }

  lemma {:induction false} MergeIs(g: Seg, p: int)
    requires Tiling(g) && p in g.tiles && After(g, p) in g.tiles
    ensures var g' := Merge(g, p);
      p in g'.tiles && After(g', p) == After(g, After(g, p)) && SameElsewhere(g, g', p, After(g', p)) && g'.tiles[p].used == g.tiles[p].used
  {
    var n := After(g, p);
    assert TileOk(g, p) && TileOk(g, n);
    forall q | q in g.tiles ensures p < q < After(g, n) <==> q == n {
      assert Apart(g, p, q) && Apart(g, n, q) && Apart(g, q, n);
      assert TileOk(g, q);
    }
  }

  lemma {:induction false} TwiceElsewhere(g: Seg, g1: Seg, g2: Seg, a: int, b: int, c: int)
    requires SameElsewhere(g, g1, a, b) && SameElsewhere(g1, g2, a, c) && a <= b <= c
    ensures SameElsewhere(g, g2, a, c)
  {}

  /** The space up to the chunk after `p`, which is `a` now; the rest of the chunks are those of `g`. */
  ghost predicate Loosened(h: Heap, h1: Heap, p: int, a: int) {
    && p in h.g.tiles && After(h.g, p) in h.g.tiles && a in h1.g.tiles && After(h1.g, a) == After(h.g, p) && a <= p
    && SameElsewhere(h.g, h1.g, a, After(h.g, p)) && h1.top == h.top && h1.dv == h.dv
  }

  lemma {:induction false} LoosenedAlone(h: Heap, p: int)
    requires Core(h, 0) && p in h.g.tiles && After(h.g, p) in h.g.tiles
    ensures Loosened(h, h.(g := SetUsed(h.g, p, false)), p, p)
  {
    assert TileOk(h.g, p);
    forall q | q in h.g.tiles ensures !(p < q < After(h.g, p)) { assert Apart(h.g, p, q); }
  }

  lemma {:induction false} LoosenedMerged(h: Heap, h1: Heap, p: int, a: int)
    requires Core(h, 0) && p in h.g.tiles && After(h.g, p) in h.g.tiles && a in h.g.tiles && After(h.g, a) == p
    requires MergedWith(h.(g := SetUsed(h.g, p, false)), h1, a)
    ensures Loosened(h, h1, p, a)
  {
    SetUsedTiling(h.g, p, false);
    MergeIs(SetUsed(h.g, p, false), a);
    assert TileOk(h.g, a);
  }

  lemma {:induction false} SettledFrees(h: Heap, h1: Heap, h2: Heap, p: int, a: int)
    requires Core(h, 0) && Loosened(h, h1, p, a) && a == Start(h.g, p) && Core(h1, a) && a != 0 && Settled(h1, h2, a)
    ensures Freed(h, h2, p)
  {
    SettledIs(h1, h2, a);
    var n := After(h.g, p);
    assert TileOk(h.g, p) && TileOk(h.g, n) && TileOk(h1.g, a);
    assert h1.g.tiles[n].size == h.g.tiles[n].size && h1.g.tiles[n].used == h.g.tiles[n].used;
    assert End(h1.g, a) == End(h.g, p);
    TwiceElsewhere(h.g, h1.g, h2.g, a, n, End(h.g, p));
  }

  /** The loose chunk has been merged with a free chunk before it. */
  ghost predicate MergedIfFree(h: Heap, h1: Heap, p: int) {
    && p in h.g.tiles
    && var a := Start(h.g, p);
    (if a == p then h1 == h else MergedWith(h, h1, a)) && Core(h1, a) && a != 0
  }

  /** Marked free, merged with a free chunk before it, and settled: the chunk has been freed. */
  lemma {:induction false} FreedIs(h: Heap, h1: Heap, h2: Heap, p: int)
    requires Core(h, 0) && p in h.g.tiles && After(h.g, p) in h.g.tiles
    requires MergedIfFree(h.(g := SetUsed(h.g, p, false)), h1, p) && Settled(h1, h2, Start(SetUsed(h.g, p, false), p))
    ensures Freed(h, h2, p)
  {
    assert TileOk(h.g, p);
    var a := Start(h.g, p);
    assert a == Start(SetUsed(h.g, p, false), p);
    if a == p {
      LoosenedAlone(h, p);
    } else {
      LoosenedMerged(h, h1, p, a);
    }
    SettledFrees(h, h1, h2, p, a);
  }
}

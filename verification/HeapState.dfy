/**
 The allocator's whole state as values: chunk headers and footers, the tiling they
 describe, the contents of the bins, the designated victim and the top chunk. Each
 lemma is one step of `mspace_malloc` or `mspace_free`.
 */
module HeapState {
  import opened BinIndex
  import opened Segment

  /** The `head` word: size, PINUSE_BIT and CINUSE_BIT. */
  datatype Head = Head(size: nat, pinuse: bool, cinuse: bool)

  datatype Heap = Heap(head: map<int, Head>, foot: map<int, nat>, g: Seg, small: map<int, nat>, tree: map<int, nat>,
                       dv: int, dvsize: nat, top: int, topsize: nat)

  const MIN_CHUNK_SIZE: nat := 32

  /** One chunk, while chunk `p` is loose: free but in no bin, its words not yet rewritten. */
  ghost predicate ChunkOk(h: Heap, p: int, q: int)
    requires q in h.g.tiles
  {
    var t, n := h.g.tiles[q], After(h.g, q);
    && q in h.head
    && (q != p ==> h.head[q].size == t.size && h.head[q].cinuse == t.used)
    && (q == h.g.base ==> h.head[q].pinuse)
    && (q != h.g.base && t.prev != p && t.prev in h.g.tiles ==> h.head[q].pinuse == h.g.tiles[t.prev].used)
    && (q != h.top ==> t.size >= MIN_CHUNK_SIZE)
    && (!t.used && q != p && n in h.g.tiles && n != p ==> h.g.tiles[n].used)
    && (!t.used && q != p && q != h.top ==> n in h.foot && h.foot[n] == t.size)
    && (q in h.small <==> !t.used && q != p && q != h.dv && q != h.top && IsSmall(t.size))
    && (q in h.tree <==> !t.used && q != p && q != h.dv && q != h.top && !IsSmall(t.size))
    && (q in h.small ==> h.small[q] == t.size)
    && (q in h.tree ==> h.tree[q] == t.size)
  }

  /** Top, designated victim and loose chunk. */
  ghost predicate SpecialOk(h: Heap, p: int)
  {
    && 0 !in h.g.tiles && h.g.base in h.g.tiles && h.g.tiles[h.g.base].used
    && h.top in h.g.tiles && !h.g.tiles[h.top].used && After(h.g, h.top) == h.g.end && h.topsize == h.g.tiles[h.top].size
    && h.g.end in h.head && !h.head[h.g.end].pinuse
    && (if h.dv == 0 then h.dvsize == 0
        else h.dv in h.g.tiles && !h.g.tiles[h.dv].used && h.dv != h.top && (h.dv != p ==> h.dvsize == h.g.tiles[h.dv].size))
    && (p != 0 ==> p in h.g.tiles && !h.g.tiles[p].used && p != h.top)
  }

  ghost predicate Core(h: Heap, p: int)
  {
    && Tiling(h.g) && h.g.end - h.g.base < TREE_INDEX_LIMIT
    && SpecialOk(h, p)
    && (forall q {:trigger q in h.small} :: q in h.small ==> q in h.g.tiles)
    && (forall q {:trigger q in h.tree} :: q in h.tree ==> q in h.g.tiles)
    && (forall q {:trigger ChunkOk(h, p, q)} :: q in h.g.tiles ==> ChunkOk(h, p, q))
  }

  /** The chunk before `p` is in use. */
  ghost predicate PredUsed(h: Heap, p: int)
  {
    p in h.g.tiles && p != h.g.base && h.g.tiles[p].prev in h.g.tiles && h.g.tiles[h.g.tiles[p].prev].used
  }

  ghost predicate SuccUsed(h: Heap, p: int)
  {
    p in h.g.tiles && After(h.g, p) in h.g.tiles && h.g.tiles[After(h.g, p)].used
  }

  /** The words of the free chunk `p` are as the free-chunk macros write them. */
  ghost predicate Written(h: Heap, p: int)
  {
    && p in h.g.tiles && p in h.head && h.head[p] == Head(h.g.tiles[p].size, true, false)
    && After(h.g, p) in h.foot && h.foot[After(h.g, p)] == h.g.tiles[p].size
    && After(h.g, p) in h.head && !h.head[After(h.g, p)].pinuse
  }

  ghost predicate IsFree(h: Heap, p: int) { p in h.g.tiles && !h.g.tiles[p].used }

  // Taking a free chunk out of its place

  lemma {:induction false} FreeChunk(h: Heap, p: int)
    requires Core(h, 0) && IsFree(h, p) && p != h.top
    ensures PredUsed(h, p) && SuccUsed(h, p) && Written(h, p)
  {
    assert TileOk(h.g, p) && ChunkOk(h, 0, p);
    LastIsGreatest(h.g, h.top, p);
    var n, v := After(h.g, p), h.g.tiles[p].prev;
    assert ChunkOk(h, 0, v) && ChunkOk(h, 0, n) && TileOk(h.g, v) && TileOk(h.g, n);
  }

  function Unbinned(h: Heap, p: int): Heap
  {
    h.(small := h.small - {p}, tree := h.tree - {p})
  }

  /** A chunk leaves its bin. */
  lemma {:induction false} Unbin(h: Heap, p: int)
    requires Core(h, 0) && IsFree(h, p) && p != h.top && p != h.dv
    ensures var h' := Unbinned(h, p); Core(h', p) && PredUsed(h', p) && SuccUsed(h', p) && Written(h', p)
  {
    FreeChunk(h, p);
    var h' := Unbinned(h, p);
    forall q | q in h'.g.tiles ensures ChunkOk(h', p, q) { assert ChunkOk(h, 0, q); }
  }

  /** The designated victim is given up. */
  lemma {:induction false} DropDv(h: Heap)
    requires Core(h, 0) && h.dv != 0
    ensures var h' := h.(dv := 0, dvsize := 0); Core(h', h.dv) && PredUsed(h', h.dv) && SuccUsed(h', h.dv) && Written(h', h.dv)
  {
    FreeChunk(h, h.dv);
    var h' := h.(dv := 0, dvsize := 0);
    assert TileOk(h.g, h.g.base);
    forall q | q in h'.g.tiles ensures ChunkOk(h', h.dv, q) { assert ChunkOk(h, 0, q); assert TileOk(h.g, q); }
  }

  // Using it

  /** `set_inuse_and_pinuse`: all of `p` is handed out. */
  function WholeTaken(h: Heap, p: int): Heap
    requires p in h.g.tiles && After(h.g, p) in h.head
  {
    var n := After(h.g, p);
    h.(g := SetUsed(h.g, p, true),
       head := h.head[n := h.head[n].(pinuse := true)][p := Head(h.g.tiles[p].size, true, true)])
  }

  lemma {:induction false} TakeWhole(h: Heap, p: int)
    requires Core(h, p) && p != 0 && p != h.dv && PredUsed(h, p) && SuccUsed(h, p)
    ensures After(h.g, p) in h.head && Core(WholeTaken(h, p), 0)
  {
    var n := After(h.g, p);
    assert TileOk(h.g, p) && TileOk(h.g, n) && ChunkOk(h, p, n) && ChunkOk(h, p, p);
    var h' := WholeTaken(h, p);
    SetUsedTiling(h.g, p, true);
    forall q | q in h'.g.tiles ensures ChunkOk(h', 0, q) {
      assert ChunkOk(h, p, q) && TileOk(h.g, q);
    }
  }

  /** The first `nb` bytes of `p` are handed out, the rest becomes the loose free chunk `p + nb`. */
  function SplitTaken(h: Heap, p: int, nb: nat): Heap
    requires p in h.g.tiles && nb < h.g.tiles[p].size
  {
    var s, r := h.g.tiles[p].size - nb, p + nb;
    h.(g := SetUsed(Split(h.g, p, nb), p, true),
       head := h.head[r := Head(s, true, false)][p := Head(nb, true, true)],
       foot := h.foot[r + s := s])
  }

  lemma {:induction false} TakeSplit(h: Heap, p: int, nb: nat)
    requires Core(h, p) && p != 0 && p != h.dv && PredUsed(h, p) && SuccUsed(h, p) && Written(h, p)
    requires nb >= MIN_CHUNK_SIZE && nb % ALIGN == 0 && nb + MIN_CHUNK_SIZE <= h.g.tiles[p].size
    ensures var h', r := SplitTaken(h, p, nb), p + nb;
      r !in h.g.tiles && Core(h', r) && PredUsed(h', r) && SuccUsed(h', r) && Written(h', r)
  {
    var h', r, n := SplitTaken(h, p, nb), p + nb, After(h.g, p);
    SplitTiling(h.g, p, nb);
    SetUsedTiling(Split(h.g, p, nb), p, true);
    assert TileOk(h.g, p) && TileOk(h.g, n) && TileOk(h.g, h.g.base) && ChunkOk(h, p, n);
    forall q | q in h'.g.tiles ensures ChunkOk(h', r, q) { TakeSplitChunk(h, p, nb, q); }
  }

  lemma {:induction false} TakeSplitChunk(h: Heap, p: int, nb: nat, q: int)
    requires Core(h, p) && p != 0 && p != h.dv && PredUsed(h, p) && SuccUsed(h, p) && Written(h, p)
    requires nb >= MIN_CHUNK_SIZE && nb % ALIGN == 0 && nb + MIN_CHUNK_SIZE <= h.g.tiles[p].size && p + nb !in h.g.tiles
    requires q in SplitTaken(h, p, nb).g.tiles && TileOk(SplitTaken(h, p, nb).g, q)
    ensures ChunkOk(SplitTaken(h, p, nb), p + nb, q)
  {
    var n := After(h.g, p);
    assert TileOk(h.g, p) && TileOk(h.g, n) && ChunkOk(h, p, n);
    if q != p + nb { assert ChunkOk(h, p, q) && TileOk(h.g, q); }
  }

  // Keeping the rest

  /** The loose chunk is put into the bin of its size: `insert_chunk`. */
  function Binned(h: Heap, p: int): Heap
    requires p in h.g.tiles
  {
    if IsSmall(h.g.tiles[p].size) then h.(small := h.small[p := h.g.tiles[p].size])
    else h.(tree := h.tree[p := h.g.tiles[p].size])
  }

  lemma {:induction false} PutInBin(h: Heap, p: int)
    requires Core(h, p) && p != 0 && p != h.dv && PredUsed(h, p) && SuccUsed(h, p) && Written(h, p)
    ensures p !in h.small && p !in h.tree
    ensures Core(Binned(h, p), 0)
  {
    assert ChunkOk(h, p, p) && TileOk(h.g, p);
    var h', v, n := Binned(h, p), h.g.tiles[p].prev, After(h.g, p);
    forall q | q in h'.g.tiles ensures ChunkOk(h', 0, q) {
      assert ChunkOk(h, p, q) && TileOk(h.g, q);
    }
  }

  /** `replace_dv`: the old victim, if any, goes to its small bin and `p` becomes the victim. */
  function DvReplaced(h: Heap, p: int): Heap
    requires p in h.g.tiles
  {
    h.(small := if h.dvsize != 0 then h.small[h.dv := h.dvsize] else h.small, dv := p, dvsize := h.g.tiles[p].size)
  }

  lemma {:induction false} ReplaceDv(h: Heap, p: int)
    requires Core(h, p) && p != 0 && p != h.dv && IsSmall(h.dvsize) && PredUsed(h, p) && SuccUsed(h, p) && Written(h, p)
    ensures h.dvsize != 0 ==> h.dv !in h.small
    ensures Core(DvReplaced(h, p), 0)
  {
    assert ChunkOk(h, p, p) && TileOk(h.g, p);
    if h.dv != 0 { assert ChunkOk(h, p, h.dv) && TileOk(h.g, h.dv); }
    var h' := DvReplaced(h, p);
    forall q | q in h'.g.tiles ensures ChunkOk(h', 0, q) {
      assert ChunkOk(h, p, q) && TileOk(h.g, q);
    }
  }

  /** The loose chunk, which already is the victim or finds none, becomes the victim. */
  lemma {:induction false} KeepDv(h: Heap, p: int)
    requires Core(h, p) && p != 0 && (h.dv == 0 || h.dv == p) && PredUsed(h, p) && SuccUsed(h, p) && Written(h, p)
    ensures Core(h.(dv := p, dvsize := h.g.tiles[p].size), 0)
  {
    assert ChunkOk(h, p, p) && TileOk(h.g, p);
    var h' := h.(dv := p, dvsize := h.g.tiles[p].size);
    forall q | q in h'.g.tiles ensures ChunkOk(h', 0, q) {
      assert ChunkOk(h, p, q) && TileOk(h.g, q);
    }
  }

  // The top chunk

  function TopTaken(h: Heap, nb: nat): Heap
    requires h.top in h.g.tiles && nb < h.g.tiles[h.top].size && nb <= h.topsize
  {
    var r, s := h.top + nb, h.topsize - nb;
    h.(g := SetUsed(Split(h.g, h.top, nb), h.top, true),
       head := h.head[r := Head(s, true, false)][h.top := Head(nb, true, true)],
       top := r, topsize := s)
  }

  /** The chunk before top is in use. */
  lemma {:induction false} TopPred(h: Heap)
    requires Core(h, 0)
    ensures PredUsed(h, h.top) && h.top in h.head && h.head[h.top] == Head(h.topsize, true, false)
    ensures h.topsize > 0
  {
    var v := h.g.tiles[h.top].prev;
    assert TileOk(h.g, h.top) && ChunkOk(h, 0, h.top);
    assert TileOk(h.g, v) && ChunkOk(h, 0, v);
  }

  lemma {:induction false} TakeTopChunk(h: Heap, nb: nat, q: int)
    requires Core(h, 0) && MIN_CHUNK_SIZE <= nb < h.topsize && nb % ALIGN == 0
    requires h.top in h.g.tiles && nb < h.g.tiles[h.top].size && h.top + nb !in h.g.tiles && q in TopTaken(h, nb).g.tiles
    requires After(h.g, h.top) == h.g.end && After(Split(h.g, h.top, nb), h.top + nb) == h.g.end
    ensures ChunkOk(TopTaken(h, nb), 0, q)
  {
    TopPred(h);
    EndOutside(h.g, h.g.end);
    if q != h.top + nb && q != h.top {
      assert ChunkOk(h, 0, q) && TileOk(h.g, q);
      LastIsGreatest(h.g, h.top, q);
    } else {
      assert ChunkOk(h, 0, h.top) && TileOk(h.g, h.top);
    }
  }

  lemma {:induction false} TakeTop(h: Heap, nb: nat)
    requires Core(h, 0) && MIN_CHUNK_SIZE <= nb < h.topsize && nb % ALIGN == 0
    ensures h.top in h.g.tiles && nb < h.g.tiles[h.top].size && h.top + nb !in h.g.tiles
    ensures Core(TopTaken(h, nb), 0)
  {
    var p, h' := h.top, TopTaken(h, nb);
    TopPred(h);
    SplitTiling(h.g, p, nb);
    SetUsedTiling(Split(h.g, p, nb), p, true);
    assert TileOk(h.g, h.g.base) && TileOk(h.g, p) && ChunkOk(h, 0, p);
    EndOutside(h.g, h.g.end);
    forall q | q in h'.g.tiles ensures ChunkOk(h', 0, q) { TakeTopChunk(h, nb, q); }
  }

  const TOP_FOOT_SIZE: nat := 80

  /** `sys_alloc` got `more` bytes that continue the segment: `init_top` on the larger top. */
  function Grown(h: Heap, more: nat): Heap
    requires h.top in h.g.tiles
  {
    h.(g := Extend(h.g, h.top, more),
       head := h.head[h.top := Head(h.topsize + more, true, false)][h.g.end + more := Head(TOP_FOOT_SIZE, false, false)],
       topsize := h.topsize + more)
  }

  lemma {:induction false} Grow(h: Heap, more: nat)
    requires Core(h, 0) && h.g.end + more - h.g.base < TREE_INDEX_LIMIT
    ensures h.top in h.g.tiles && Core(Grown(h, more), 0)
  {
    var h', p := Grown(h, more), h.top;
    ExtendTiling(h.g, p, more);
    TopPred(h);
    EndOutside(h.g, h.g.end + more);
    assert TileOk(h.g, p) && ChunkOk(h, 0, p);
    forall q | q in h'.g.tiles ensures ChunkOk(h', 0, q) {
      assert ChunkOk(h, 0, q) && TileOk(h.g, q);
      LastIsGreatest(h.g, p, q);
      if q != p {
        assert After(h'.g, q) == After(h.g, q) && q < h.g.end;
      }
    }
  }

  // Giving a chunk back

  /** A chunk in use becomes the loose chunk; no word of memory has changed yet. */
  lemma {:induction false} Release(h: Heap, p: int)
    requires Core(h, 0) && p in h.g.tiles && h.g.tiles[p].used && p != h.g.base
    ensures p in h.head && h.head[p].size == h.g.tiles[p].size && h.head[p].cinuse
    ensures Core(h.(g := SetUsed(h.g, p, false)), p)
    ensures h.head[p].pinuse <==> PredUsed(h.(g := SetUsed(h.g, p, false)), p)
    ensures After(h.g, p) in h.g.tiles && After(h.g, p) in h.head && h.head[After(h.g, p)].pinuse
  {
    var h', n := h.(g := SetUsed(h.g, p, false)), After(h.g, p);
    SetUsedTiling(h.g, p, false);
    assert TileOk(h.g, p) && ChunkOk(h, 0, p);
    LastIsGreatest(h.g, h.top, p);
    assert TileOk(h.g, n) && ChunkOk(h, 0, n);
    forall q | q in h'.g.tiles ensures ChunkOk(h', p, q) {
      assert ChunkOk(h, 0, q) && TileOk(h.g, q);
    }
  }

  /** The chunk before the loose chunk is free: it takes the loose chunk in and becomes loose itself. */
  function MergedBack(h: Heap, v: int): Heap
    requires v in h.g.tiles && After(h.g, v) in h.g.tiles
  {
    h.(g := Merge(h.g, v), small := h.small - {v}, tree := h.tree - {v})
  }

  lemma {:induction false} MergeBackFacts(h: Heap, p: int)
    requires Core(h, p) && p != 0 && p != h.dv && p != h.g.base && !PredUsed(h, p)
    ensures var v := h.g.tiles[p].prev;
      && v in h.g.tiles && After(h.g, v) == p && v != h.top && v != h.g.base && !h.g.tiles[v].used
      && p in h.foot && h.foot[p] == h.g.tiles[v].size
      && v in h.head && h.head[v].pinuse && PredUsed(h, v) && h.g.tiles[v].prev != v && h.g.tiles[v].prev != p
  {
    var v := h.g.tiles[p].prev;
    assert TileOk(h.g, p) && ChunkOk(h, p, p) && TileOk(h.g, v) && ChunkOk(h, p, v);
    LastIsGreatest(h.g, h.top, p);
    LastIsGreatest(h.g, h.top, v);
    var u := h.g.tiles[v].prev;
    assert ChunkOk(h, p, u) && TileOk(h.g, u);
  }

  lemma {:induction false} MergeBackChunk(h: Heap, p: int, v: int, q: int)
    requires Core(h, p) && p != 0 && p != h.dv && p != v && v in h.g.tiles && After(h.g, v) == p && p in h.g.tiles
    requires !h.g.tiles[v].used && PredUsed(h, v) && q in MergedBack(h, v).g.tiles && h.g.tiles[v].prev != p
    requires v in h.head && h.head[v].pinuse
    ensures ChunkOk(MergedBack(h, v), v, q)
  {
    assert ChunkOk(h, p, q) && TileOk(h.g, q) && TileOk(h.g, p) && ChunkOk(h, p, p) && TileOk(h.g, v) && ChunkOk(h, p, v);
    if After(h.g, p) in h.g.tiles { assert TileOk(h.g, After(h.g, p)); }
  }

  lemma {:induction false} MergeBack(h: Heap, p: int)
    requires Core(h, p) && p != 0 && p != h.dv && p != h.g.base && !PredUsed(h, p)
    ensures var v := h.g.tiles[p].prev;
      && v in h.g.tiles && After(h.g, v) == p && v != h.top && v != h.g.base
      && p in h.foot && h.foot[p] == h.g.tiles[v].size
      && v in h.head && h.head[v].pinuse
      && Core(MergedBack(h, v), v) && PredUsed(MergedBack(h, v), v)
      && After(MergedBack(h, v).g, v) == After(h.g, p)
  {
    MergeBackFacts(h, p);
    var v := h.g.tiles[p].prev;
    var h' := MergedBack(h, v);
    MergeTiling(h.g, v);
    assert TileOk(h.g, p) && ChunkOk(h, p, p) && TileOk(h.g, h.g.base);
    forall q | q in h'.g.tiles ensures ChunkOk(h', v, q) { MergeBackChunk(h, p, v, q); }
  }

  /** The chunk after the loose chunk is free and binned: it is unlinked and taken in. */
  function MergedForward(h: Heap, p: int): Heap
    requires p in h.g.tiles && After(h.g, p) in h.g.tiles
  {
    h.(g := Merge(h.g, p), small := h.small - {After(h.g, p)}, tree := h.tree - {After(h.g, p)})
  }

  /** What follows a free chunk that is not top is in use, and its PINUSE_BIT is clear. */
  lemma {:induction false} AfterFree(h: Heap, p: int, n: int)
    requires Core(h, p) && p != 0 && n == After(h.g, p) && IsFree(h, n) && n != h.top && PredUsed(h, p)
    ensures After(h.g, n) in h.g.tiles && h.g.tiles[After(h.g, n)].used
    ensures After(h.g, n) in h.head && !h.head[After(h.g, n)].pinuse
    ensures After(h.g, n) in h.foot && h.foot[After(h.g, n)] == h.g.tiles[n].size
    ensures n in h.head && h.head[n].size == h.g.tiles[n].size && !h.head[n].cinuse
    ensures After(h.g, n) != p && After(h.g, n) != n && n != p
  {
    var m := After(h.g, n);
    assert TileOk(h.g, p) && TileOk(h.g, n) && ChunkOk(h, p, n);
    LastIsGreatest(h.g, h.top, n);
    assert TileOk(h.g, m) && ChunkOk(h, p, m);
  }

  lemma {:induction false} MergeForwardChunk(h: Heap, p: int, n: int, q: int)
    requires Core(h, p) && p != 0 && n == After(h.g, p) && IsFree(h, n) && n != h.top && n != h.dv && PredUsed(h, p)
    requires q in MergedForward(h, p).g.tiles
    ensures ChunkOk(MergedForward(h, p), p, q)
  {
    AfterFree(h, p, n);
    assert ChunkOk(h, p, q) && TileOk(h.g, q) && TileOk(h.g, p) && TileOk(h.g, n);
    var m := After(h.g, n);
    assert TileOk(h.g, m);
  }

  lemma {:induction false} MergeForward(h: Heap, p: int)
    requires Core(h, p) && p != 0 && PredUsed(h, p) && IsFree(h, After(h.g, p)) && After(h.g, p) != h.top && After(h.g, p) != h.dv
    ensures var h', n := MergedForward(h, p), After(h.g, p);
      && n in h.head && h.head[n].size == h.g.tiles[n].size
      && Core(h', p) && PredUsed(h', p) && SuccUsed(h', p)
      && After(h'.g, p) in h'.head && !h'.head[After(h'.g, p)].pinuse
  {
    var h', n := MergedForward(h, p), After(h.g, p);
    AfterFree(h, p, n);
    MergeTiling(h.g, p);
    assert TileOk(h.g, p) && TileOk(h.g, n) && TileOk(h.g, h.g.base) && ChunkOk(h, p, n);
    LastIsGreatest(h.g, h.top, n);
    forall q | q in h'.g.tiles ensures ChunkOk(h', p, q) { MergeForwardChunk(h, p, n, q); }
  }

  /** The loose chunk borders top and becomes part of it. */
  function MergedTop(h: Heap, p: int): Heap
    requires p in h.g.tiles && After(h.g, p) in h.g.tiles
  {
    var s := h.topsize + h.g.tiles[p].size;
    h.(g := Merge(h.g, p), top := p, topsize := s, head := h.head[p := Head(s, true, false)],
       dv := if p == h.dv then 0 else h.dv, dvsize := if p == h.dv then 0 else h.dvsize)
  }

  lemma {:induction false} MergeTopChunk(h: Heap, p: int, q: int)
    requires Core(h, p) && p != 0 && PredUsed(h, p) && After(h.g, p) == h.top && q in MergedTop(h, p).g.tiles
    ensures ChunkOk(MergedTop(h, p), 0, q)
  {
    EndOutside(h.g, h.g.end);
    assert ChunkOk(h, p, q) && TileOk(h.g, q) && TileOk(h.g, p) && TileOk(h.g, h.top) && ChunkOk(h, p, h.top);
    assert TileOk(h.g, h.g.tiles[p].prev);
  }

  lemma {:induction false} MergeTop(h: Heap, p: int)
    requires Core(h, p) && p != 0 && PredUsed(h, p) && After(h.g, p) == h.top
    ensures Core(MergedTop(h, p), 0)
  {
    MergeTiling(h.g, p);
    EndOutside(h.g, h.g.end);
    assert TileOk(h.g, p) && TileOk(h.g, h.top) && ChunkOk(h, p, h.top) && ChunkOk(h, p, p);
    if h.dv != 0 && h.dv != p { assert TileOk(h.g, h.dv); }
    forall q | q in MergedTop(h, p).g.tiles ensures ChunkOk(MergedTop(h, p), 0, q) { MergeTopChunk(h, p, q); }
  }

  /** The loose chunk borders the designated victim and takes its role. */
  function MergedDv(h: Heap, p: int): Heap
    requires p in h.g.tiles && After(h.g, p) in h.g.tiles
  {
    var s := h.dvsize + h.g.tiles[p].size;
    h.(g := Merge(h.g, p), dv := p, dvsize := s, head := h.head[p := Head(s, true, false)], foot := h.foot[p + s := s])
  }

  lemma {:induction false} MergeDvChunk(h: Heap, p: int, q: int)
    requires Core(h, p) && p != 0 && PredUsed(h, p) && After(h.g, p) == h.dv && h.dv != 0 && q in MergedDv(h, p).g.tiles
    ensures ChunkOk(MergedDv(h, p), 0, q)
  {
    AfterFree(h, p, h.dv);
    assert ChunkOk(h, p, q) && TileOk(h.g, q) && TileOk(h.g, p) && TileOk(h.g, h.dv) && ChunkOk(h, p, h.dv) && ChunkOk(h, p, p);
    assert TileOk(h.g, After(h.g, h.dv));
    assert TileOk(h.g, h.g.tiles[p].prev);
  }

  lemma {:induction false} MergeDv(h: Heap, p: int)
    requires Core(h, p) && p != 0 && PredUsed(h, p) && After(h.g, p) == h.dv && h.dv != 0
    ensures Core(MergedDv(h, p), 0)
  {
    MergeTiling(h.g, p);
    AfterFree(h, p, h.dv);
    assert TileOk(h.g, p) && TileOk(h.g, h.dv) && ChunkOk(h, p, p) && ChunkOk(h, p, h.dv) && TileOk(h.g, h.g.base);
    LastIsGreatest(h.g, h.top, h.dv);
    forall q | q in MergedDv(h, p).g.tiles ensures ChunkOk(MergedDv(h, p), 0, q) { MergeDvChunk(h, p, q); }
  }

  /** `set_free_with_pinuse`: the words of the loose chunk are rewritten. */
  function FreeWritten(h: Heap, p: int): Heap
    requires p in h.g.tiles && After(h.g, p) in h.head
  {
    var s, n := h.g.tiles[p].size, After(h.g, p);
    h.(head := h.head[n := h.head[n].(pinuse := false)][p := Head(s, true, false)], foot := h.foot[n := s])
  }

  lemma {:induction false} WriteFree(h: Heap, p: int)
    requires Core(h, p) && p != 0 && PredUsed(h, p) && SuccUsed(h, p)
    ensures After(h.g, p) in h.head
    ensures var h' := FreeWritten(h, p); Core(h', p) && PredUsed(h', p) && SuccUsed(h', p) && Written(h', p)
  {
    var n := After(h.g, p);
    assert TileOk(h.g, p) && TileOk(h.g, n) && ChunkOk(h, p, n) && ChunkOk(h, p, p);
    var h' := FreeWritten(h, p);
    EndOutside(h.g, h.g.end);
    forall q | q in h'.g.tiles ensures ChunkOk(h', p, q) {
      assert ChunkOk(h, p, q) && TileOk(h.g, q);
    }
  }
}

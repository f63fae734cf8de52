/** `mspace_malloc` and `mspace_free` over one segment. */
module Mspace {
  import opened BestFit
  import opened BinIndex
  import BinMap
  import opened Coalescing
  import opened HeapState
  import opened Segment
  import opened SmallBins
  import opened TreeBins
  import opened TreeSearch
  import opened Words

  const MIN_REQUEST: nat := 23
  const MAX_SMALL_REQUEST: nat := 232
  const MAX_REQUEST: nat := WORD64 - 128
  const MAX_SIZE_T: nat := WORD64 - 1
  /** TOP_FOOT_SIZE + MALLOC_ALIGNMENT. */
  const SYS_ALLOC_PADDING: nat := 96

  function PadRequest(bytes: nat): nat { (bytes + 23) / 16 * 16 }

  /** The chunk size asked for by a request. */
  function RequestSize(bytes: nat): (nb: nat)
    ensures bytes < MAX_REQUEST ==> nb % ALIGN == 0 && nb >= MIN_CHUNK_SIZE && bytes + 8 <= nb < WORD64
    ensures bytes <= MAX_SMALL_REQUEST ==> nb < MIN_LARGE_SIZE
    ensures bytes > MAX_SMALL_REQUEST ==> nb >= MIN_LARGE_SIZE
    ensures bytes < WORD64 ==> nb < WORD64
  {
    if bytes < MIN_REQUEST then MIN_CHUNK_SIZE
    else if bytes >= MAX_REQUEST then MAX_SIZE_T
    else PadRequest(bytes)
  }

  /** Below MAX_REQUEST it is the least multiple of 16 that holds a chunk, and the request with the overhead; from
      there on it is more than there is. */
  lemma {:induction false} RequestLeast(bytes: nat, m: nat)
    ensures bytes >= MAX_REQUEST ==> RequestSize(bytes) == MAX_SIZE_T
    ensures bytes < MAX_REQUEST && m % ALIGN == 0 && m >= MIN_CHUNK_SIZE && m >= bytes + 8 ==> RequestSize(bytes) <= m
  {
    assert PadRequest(bytes) <= bytes + 23;
  }

  /** The chunks handed out, with their sizes. The first chunk holds the mspace itself. */
  ghost function Used(g: Seg): map<int, nat>
  {
    map p | p in g.tiles && g.tiles[p].used && p != g.base :: g.tiles[p].size
  }

  /** From `g` to `g'`, chunk `p` has been handed out for a request of chunk size `nb`; nothing else was. */
  ghost predicate HandedOut(g: Seg, g': Seg, p: int, nb: nat)
  {
    && g'.base == g.base && p > 0 && p in g'.tiles && p !in Used(g) && p != g.base
    && nb <= g'.tiles[p].size < nb + MIN_CHUNK_SIZE
    && Used(g') == Used(g)[p := g'.tiles[p].size]
  }

  /** The first aligned address from `a` on. */
  function AlignAsChunk(a: int): int { if a % 16 == 0 then a else a + (16 - a % 16) }

  lemma {:induction false} AlignAsChunkIs(a: int)
    ensures AlignAsChunk(a) % 16 == 0 && a <= AlignAsChunk(a) < a + 16
  {}

  lemma {:induction false} UsedWhole(g: Seg, p: int)
    requires p in g.tiles && !g.tiles[p].used && p != g.base
    ensures Used(SetUsed(g, p, true)) == Used(g)[p := g.tiles[p].size] && p !in Used(g)
  {
  }

  lemma {:induction false} UsedSplit(g: Seg, p: int, nb: nat)
    requires Tiling(g) && p in g.tiles && !g.tiles[p].used && p != g.base && nb < g.tiles[p].size && p + nb !in g.tiles && 0 < nb
    ensures Used(SetUsed(Split(g, p, nb), p, true)) == Used(g)[p := nb] && p !in Used(g)
  {
  }

  lemma {:induction false} SplitHandsOut(g: Seg, p: int, nb: nat)
    requires Tiling(g) && p in g.tiles && !g.tiles[p].used && p != g.base && 0 < nb < g.tiles[p].size && p + nb !in g.tiles
    ensures var g' := SetUsed(Split(g, p, nb), p, true);
            HandedOut(g, g', p, nb) && p + nb in g'.tiles && g'.tiles[p + nb].size == g.tiles[p].size - nb && g'.end == g.end
  {
    assert TileOk(g, p);
    UsedSplit(g, p, nb);
  }

  lemma {:induction false} UsedMerge(g: Seg, p: int)
    requires Tiling(g) && p in g.tiles && !g.tiles[p].used && After(g, p) in g.tiles && !g.tiles[After(g, p)].used
    ensures Used(Merge(g, p)) == Used(g)
  {
    assert TileOk(g, p);
  }

  lemma {:induction false} UsedReleased(g: Seg, p: int)
    requires p in g.tiles
    ensures Used(SetUsed(g, p, false)) == Used(g) - {p}
  {
  }

  /** Two chunks, the one of the mspace itself and top, with nothing in any bin. */
  lemma {:induction false} NewHeap(h: Heap, first: int, msize: nat, psize: nat)
    requires first > 0 && first % ALIGN == 0 && msize >= MIN_CHUNK_SIZE && msize % ALIGN == 0 && 0 < psize && msize + psize < TREE_INDEX_LIMIT
    requires h.g == Seg(map[first := Tile(msize, true, 0), first + msize := Tile(psize, false, first)], first, first + msize + psize)
    requires h.head == map[first := Head(msize, true, true), first + msize := Head(psize, true, false),
                           first + msize + psize := Head(TOP_FOOT_SIZE, false, false)]
    requires h.small == map[] && h.tree == map[] && h.dv == 0 && h.dvsize == 0 && h.top == first + msize && h.topsize == psize
    ensures Core(h, 0) && Used(h.g) == map[]
  {
    forall q | q in h.g.tiles ensures TileOk(h.g, q) {}
    forall q | q in h.g.tiles ensures ChunkOk(h, 0, q) {}
  }

  class Mspace {
    const small: SmallBins
    const trees: TreeBins
    var head: map<int, Head>
    var foot: map<int, nat>
    var dv: int
    var dvsize: nat
    var top: int
    var topsize: nat
    ghost var g: Seg

    ghost function State(): Heap
      reads this, small, trees
    {
      Heap(head, foot, g, small.size, trees.size, dv, dvsize, top, topsize)
    }

    ghost predicate Valid()
      reads this, small, trees
    {
      small.Valid() && trees.Valid() && Core(State(), 0)
    }

    /**
     `create_mspace_with_base`: the first aligned `msize` bytes become the chunk that holds the
     mspace itself, the rest is top. The capacity is checked without the bytes skipped for
     alignment, so it has to leave room for them. The end of the space is a multiple of 4 because
     the two flag bits share the head word of top with its size.
     */
    constructor (base: int, capacity: nat, msize: nat)
      requires base > 0 && msize >= MIN_CHUNK_SIZE && msize % ALIGN == 0 && (base + capacity) % 4 == 0
      requires AlignAsChunk(base) - base + msize + TOP_FOOT_SIZE < capacity < TREE_INDEX_LIMIT
      ensures Valid() && Used(g) == map[] && g.base == AlignAsChunk(base) && g.end == base + capacity - TOP_FOOT_SIZE
      ensures fresh(small) && fresh(trees)
      ensures top == g.base + msize && dv == 0 && small.size == map[] && trees.size == map[]
    {
      small := new SmallBins();
      trees := new TreeBins();
      dv, dvsize := 0, 0;
      AlignAsChunkIs(base);
      var first, end := AlignAsChunk(base), base + capacity - TOP_FOOT_SIZE;
      var psize := end - (first + msize);
      top, topsize := first + msize, psize;
      head := map[first := Head(msize, true, true), first + msize := Head(psize, true, false), end := Head(TOP_FOOT_SIZE, false, false)];
      foot := map[];
      g := Seg(map[first := Tile(msize, true, 0), first + msize := Tile(psize, false, first)], first, end);
      new;
      NewHeap(State(), first, msize, psize);
    }

    /** `set_inuse_and_pinuse`: the free chunk `p`, just unlinked, is too small to split and handed out whole. */
    method UseWhole(p: int, s: nat, nb: nat)
      requires small.Valid() && trees.Valid() && Core(State(), p) && p != 0 && p != dv
      requires PredUsed(State(), p) && SuccUsed(State(), p) && Written(State(), p)
      requires s == g.tiles[p].size && nb <= s < nb + MIN_CHUNK_SIZE
      modifies this`head, this`g
      ensures Valid() && HandedOut(old(g), g, p, nb) && g.end == old(g.end)
      ensures State() == old(WholeTaken(State(), p))
    {
      TakeWhole(State(), p);
      assert TileOk(g, p);
      UsedWhole(g, p);
      g := SetUsed(g, p, true);
      head := head[p + s := head[p + s].(pinuse := true)][p := Head(s, true, true)];
    }

    /** The free chunk `p`, just unlinked, is split: `nb` bytes are handed out, the rest stays loose. */
    method UseSplit(p: int, s: nat, nb: nat) returns (r: int)
      requires small.Valid() && trees.Valid() && Core(State(), p) && p != 0 && p != dv && s == g.tiles[p].size
      requires PredUsed(State(), p) && SuccUsed(State(), p) && Written(State(), p)
      requires nb >= MIN_CHUNK_SIZE && nb % ALIGN == 0 && nb + MIN_CHUNK_SIZE <= s
      modifies this`head, this`foot, this`g
      ensures r == p + nb && r in g.tiles && g.tiles[r].size == s - nb && r != dv
      ensures Core(State(), r) && PredUsed(State(), r) && SuccUsed(State(), r) && Written(State(), r)
      ensures HandedOut(old(g), g, p, nb) && g.end == old(g.end) && State() == old(SplitTaken(State(), p, nb))
    {
      TakeSplit(State(), p, nb);
      SplitHandsOut(g, p, nb);
      ghost var after := SplitTaken(State(), p, nb);
      r := p + nb;
      g := SetUsed(Split(g, p, nb), p, true);
      head := head[r := Head(s - nb, true, false)][p := Head(nb, true, true)];
      foot := foot[r + (s - nb) := s - nb];
      assert State() == after;
    }

    /** `replace_dv`. */
    method SetDv(p: int, s: nat)
      requires small.Valid() && trees.Valid() && Core(State(), p) && p != 0 && p != dv && s == g.tiles[p].size
      requires PredUsed(State(), p) && SuccUsed(State(), p) && Written(State(), p) && IsSmall(dvsize)
      modifies this`dv, this`dvsize, small
      ensures Valid() && g == old(g) && State() == old(DvReplaced(State(), p))
    {
      ReplaceDv(State(), p);
      if dvsize != 0 {
        DvAligned(State(), p);
        small.Insert(dv, dvsize);
      }
      dvsize := s;
      dv := p;
    }

    /** `insert_chunk`. */
    method InsertChunk(p: int, s: nat)
      requires small.Valid() && trees.Valid() && Core(State(), p) && p != 0 && p != dv && s == g.tiles[p].size
      requires PredUsed(State(), p) && SuccUsed(State(), p) && Written(State(), p)
      modifies small, trees
      ensures Valid() && g == old(g) && dv == old(dv) && State() == old(Binned(State(), p))
    {
      PutInBin(State(), p);
      ChunkAligned(State(), p);
      if IsSmall(s) {
        small.Insert(p, s);
      } else {
        trees.Insert(p, s);
      }
    }

    /** `unlink_chunk`, also while another chunk `l` is loose. */
    method UnlinkChunk(p: int, s: nat, ghost l: int)
      requires small.Valid() && trees.Valid() && Core(State(), l)
      requires p in g.tiles && !g.tiles[p].used && p != top && p != dv && p != l && s == g.tiles[p].size
      modifies small, trees
      ensures small.Valid() && trees.Valid() && State() == old(Unbinned(State(), p))
    {
      assert ChunkOk(State(), l, p);
      if IsSmall(s) {
        small.Unlink(p);
      } else {
        trees.Unlink(p);
      }
    }

    /** No small bin holds a chunk of at least `nb` bytes. */
    lemma {:induction false} NoSmallFits(nb: nat, idx: nat)
      requires Valid() && idx == SmallIndex(nb) && idx < 31 && nb % ALIGN == 0
      requires forall j :: idx <= j < NSMALLBINS ==> !small.smallmap[j]
      ensures forall q :: q in small.size ==> small.size[q] < nb
    {
      forall q | q in small.size ensures small.size[q] < nb {
        assert BinOk(small.link, small.size, small.smallmap[SmallIndex(small.size[q])], small.bins[SmallIndex(small.size[q])], SmallIndex(small.size[q]));
      }
    }

    lemma {:induction false} NoTreeWithoutMap()
      requires Valid()
      ensures forall q :: q in trees.size ==> trees.treemap != BinMap.ZERO
    {
      forall q | q in trees.size ensures trees.treemap != BinMap.ZERO {
        trees.BinOf(q);
        BinMap.NonZeroIs(trees.treemap);
      }
    }

    /** Without tree chunks, or for a size that is more than there is, no bin has a fit for a large request. */
    lemma {:induction false} LargeRest(bytes: nat, nb: nat)
      requires Valid() && bytes > MAX_SMALL_REQUEST && nb == RequestSize(bytes) && (bytes >= MAX_REQUEST || trees.treemap == BinMap.ZERO)
      ensures BinsPassed(State(), nb)
    {
      NoTreeWithoutMap();
      forall q ensures !Fits(State(), nb, q) {
        if q in g.tiles { assert ChunkOk(State(), 0, q) && TileOk(g, q); }
      }
    }

    lemma {:induction false} SmallRest(nb: nat)
      requires Valid() && trees.treemap == BinMap.ZERO && forall q :: q in small.size ==> small.size[q] < nb
      ensures BinsPassed(State(), nb)
    {
      NoTreeWithoutMap();
      forall q ensures !Fits(State(), nb, q) {
        if q in g.tiles { assert ChunkOk(State(), 0, q); }
      }
    }

    /** Neither the bin of the size nor the next is marked. */
    lemma {:induction false} NoExactFit(nb: nat, idx: nat)
      requires Valid() && idx == SmallIndex(nb) && idx < 31 && nb % ALIGN == 0 && !small.smallmap[idx] && !small.smallmap[idx + 1]
      ensures forall q :: !FitsExactly(State(), nb, q)
      ensures nb <= dvsize ==> BinsPassed(State(), nb)
    {
      forall q ensures !FitsExactly(State(), nb, q) {
        if FitsExactly(State(), nb, q) {
          ExactSize(State(), nb, q);
          assert ChunkOk(State(), 0, q);
          small.Marked(q);
        }
      }
    }

    /** The first marked bin after the index holds the least chunks that fit. */
    lemma {:induction false} LeastSmall(nb: nat, idx: nat, i: nat)
      requires Valid() && nb < MIN_LARGE_SIZE && idx == SmallIndex(nb) && idx < i < NSMALLBINS && !small.smallmap[idx] && nb % ALIGN == 0
      requires forall j :: idx < j < i ==> !small.smallmap[j]
      ensures forall q :: Fits(State(), nb, q) ==> i * 8 <= g.tiles[q].size
    {
      forall q | Fits(State(), nb, q) ensures i * 8 <= g.tiles[q].size {
        assert ChunkOk(State(), 0, q);
        if q in small.size { small.Marked(q); }
      }
    }

    // Allocation

    /** A chunk of small bin `i` serves a request of `nb` bytes; a remainder becomes the victim. */
    method FromSmallBin(i: nat, nb: nat) returns (mem: int)
      requires Valid() && i < NSMALLBINS && small.smallmap[i] && MIN_CHUNK_SIZE <= nb <= i * 8 && nb % ALIGN == 0
      requires i * 8 < nb + MIN_CHUNK_SIZE || IsSmall(dvsize)
      modifies this, small
      ensures Valid() && mem != 0 && g.end == old(g.end)
      ensures mem == 0 || HandedOut(old(g), g, mem - 16, nb)
      ensures mem - 16 in old(small.size) && old(small.size)[mem - 16] == i * 8 && ServedFrom(old(State()), State(), nb, mem - 16)
    {
      var p := small.UnlinkFirst(i);
      assert ChunkOk(old(State()), 0, p);
      var s := i * 8;
      SmallSize(old(small.size)[p], i);
      Unbin(old(State()), p);
      assert State() == Unbinned(old(State()), p);
      UseForSmall(p, s, nb);
      mem := p + 16;
    }

    /** Hand out the unlinked chunk `p`; a remainder that can be a chunk becomes the victim. */
    method UseForSmall(p: int, s: nat, nb: nat)
      requires small.Valid() && trees.Valid() && Core(State(), p) && p != 0 && p != dv && s == g.tiles[p].size
      requires PredUsed(State(), p) && SuccUsed(State(), p) && Written(State(), p)
      requires MIN_CHUNK_SIZE <= nb <= s && nb % ALIGN == 0 && (s < nb + MIN_CHUNK_SIZE || IsSmall(dvsize))
      modifies this, small
      ensures Valid() && HandedOut(old(g), g, p, nb) && g.end == old(g.end) && State() == old(RestToVictim(State(), p, nb))
    {
      if s - nb < MIN_CHUNK_SIZE {
        UseWhole(p, s, nb);
      } else {
        var r := UseSplit(p, s, nb);
        SetDv(r, s - nb);
      }
    }

    /** The chosen tree chunk `v` leaves its bin and is loose. */
    method UnlinkTree(v: int)
      requires Valid() && v in trees.size
      modifies trees
      ensures small.Valid() && trees.Valid() && State() == old(Unbinned(State(), v)) && v in g.tiles && g.tiles[v].size == old(trees.size)[v]
      ensures Core(State(), v) && v > 0 && v != dv && PredUsed(State(), v) && SuccUsed(State(), v) && Written(State(), v)
    {
      assert ChunkOk(State(), 0, v) && TileOk(g, v);
      Unbin(State(), v);
      trees.Unlink(v);
      assert State() == Unbinned(old(State()), v);
    }

    /** `tmalloc_small`. */
    method TmallocSmall(nb: nat) returns (mem: int)
      requires Valid() && MIN_CHUNK_SIZE <= nb < MIN_LARGE_SIZE && nb % ALIGN == 0 && trees.treemap != BinMap.ZERO && IsSmall(dvsize)
      modifies this, small, trees
      ensures Valid() && mem != 0 && g.end == old(g.end)
      ensures mem == 0 || HandedOut(old(g), g, mem - 16, nb)
      ensures mem - 16 in old(trees.size) && forall q :: q in old(trees.size) ==> old(trees.size)[mem - 16] <= old(trees.size)[q]
      ensures old(trees.size)[mem - 16] >= nb && ServedFrom(old(State()), State(), nb, mem - 16)
    {
      var v, rsize := trees.FindSmall(nb);
      UnlinkTree(v);
      UseForSmall(v, rsize + nb, nb);
      mem := v + 16;
    }

    /** The free chunk `p`, just unlinked, is handed out, and a rest that is big enough is put into a bin. */
    method UseForLarge(p: int, s: nat, nb: nat)
      requires small.Valid() && trees.Valid() && Core(State(), p) && p != 0 && p != dv && s == g.tiles[p].size
      requires PredUsed(State(), p) && SuccUsed(State(), p) && Written(State(), p)
      requires MIN_CHUNK_SIZE <= nb <= s && nb % ALIGN == 0
      modifies this, small, trees
      ensures Valid() && HandedOut(old(g), g, p, nb) && g.end == old(g.end) && State() == old(RestToBin(State(), p, nb))
    {
      if s - nb < MIN_CHUNK_SIZE {
        UseWhole(p, s, nb);
      } else {
        var r := UseSplit(p, s, nb);
        InsertChunk(r, s - nb);
      }
    }

    /** `tmalloc_large`: 0 when no tree chunk fits, or when the victim fits at least as tightly. */
    method TmallocLarge(nb: nat) returns (mem: int)
      requires Valid() && MIN_LARGE_SIZE <= nb < WORD64 && nb % ALIGN == 0
      modifies this, small, trees
      ensures Valid() && g.end == old(g.end)
      ensures mem == 0 ==> State() == old(State())
      ensures mem == 0 ==> BinsPassed(State(), nb)
      ensures mem == 0 || HandedOut(old(g), g, mem - 16, nb)
      ensures mem != 0 ==> Chosen(old(State()), nb, mem - 16) && ServedFrom(old(State()), State(), nb, mem - 16)
    {
      var v, rsize := trees.FindLarge(nb);
      DvBound(State());
      LargeChoice(State(), nb, v, rsize);
      mem := 0;
      if v != 0 && rsize < Sub64(dvsize, nb) {
        UseTree(v, rsize + nb, nb);
        mem := v + 16;
      }
    }

    /** The tree chunk `v` leaves its bin and is handed out; a rest that is big enough is put into a bin. */
    method UseTree(v: int, s: nat, nb: nat)
      requires Valid() && v in trees.size && trees.size[v] == s && MIN_LARGE_SIZE <= nb <= s && nb % ALIGN == 0
      modifies this, small, trees
      ensures Valid() && v > 0 && g.end == old(g.end) && HandedOut(old(g), g, v, nb) && ServedFrom(old(State()), State(), nb, v)
    {
      assert ChunkOk(State(), 0, v);
      UnlinkTree(v);
      UseForLarge(v, s, nb);
    }

    /** Split or exhaust the designated victim. */
    method FromDv(nb: nat) returns (mem: int)
      requires Valid() && MIN_CHUNK_SIZE <= nb <= dvsize && nb % ALIGN == 0
      modifies this
      ensures Valid() && mem != 0 && g.end == old(g.end)
      ensures mem == 0 || HandedOut(old(g), g, mem - 16, nb)
      ensures mem - 16 == old(dv) && ServedFrom(old(State()), State(), nb, mem - 16)
    {
      mem := dv + 16;
      if dvsize - nb >= MIN_CHUNK_SIZE {
        SplitDv(nb);
      } else {
        ExhaustDv(nb);
      }
    }

    method SplitDv(nb: nat)
      requires Valid() && MIN_CHUNK_SIZE <= nb && nb + MIN_CHUNK_SIZE <= dvsize && nb % ALIGN == 0
      modifies this
      ensures Valid() && old(dv) > 0 && g.end == old(g.end)
      ensures HandedOut(old(g), g, old(dv), nb) && ServedFrom(old(State()), State(), nb, old(dv))
    {
      var rsize, p, dvs := dvsize - nb, dv, dvsize;
      DropDv(State());
      dv, dvsize := 0, 0;
      assert State() == old(State()).(dv := 0, dvsize := 0);
      var r := UseSplit(p, dvs, nb);
      KeepDv(State(), r);
      dv, dvsize := r, rsize;
    }

    method ExhaustDv(nb: nat)
      requires Valid() && MIN_CHUNK_SIZE <= nb <= dvsize < nb + MIN_CHUNK_SIZE && nb % ALIGN == 0
      modifies this
      ensures Valid() && old(dv) > 0 && g.end == old(g.end)
      ensures HandedOut(old(g), g, old(dv), nb) && ServedFrom(old(State()), State(), nb, old(dv))
    {
      var p, dvs := dv, dvsize;
      DropDv(State());
      dv, dvsize := 0, 0;
      assert State() == old(State()).(dv := 0, dvsize := 0);
      UseWhole(p, dvs, nb);
    }

    /** Split top. */
    method FromTop(nb: nat) returns (mem: int)
      requires Valid() && MIN_CHUNK_SIZE <= nb < topsize && nb % ALIGN == 0
      modifies this
      ensures Valid() && mem != 0 && g.end == old(g.end)
      ensures mem == 0 || HandedOut(old(g), g, mem - 16, nb)
      ensures mem - 16 == old(top) && ServedFrom(old(State()), State(), nb, mem - 16)
    {
      var rsize, p := topsize - nb, top;
      TakeTop(State(), nb);
      TopPred(State());
      assert TileOk(g, p);
      UsedSplit(g, p, nb);
      g := SetUsed(Split(g, p, nb), p, true);
      topsize := rsize;
      top := p + nb;
      head := head[top := Head(rsize, true, false)][p := Head(nb, true, true)];
      mem := p + 16;
    }

    /** `sys_alloc`: the system either refuses or gives `tsize` bytes that continue the segment. */
    method SysAlloc(nb: nat, tsize: nat) returns (mem: int)
      requires Valid() && MIN_CHUNK_SIZE <= nb < WORD64 && (nb == MAX_SIZE_T || nb % ALIGN == 0)
      requires tsize != 0 ==> tsize >= nb + SYS_ALLOC_PADDING && g.end + tsize - g.base < TREE_INDEX_LIMIT
      modifies this
      ensures Valid()
      ensures mem == 0 <==> tsize == 0
      ensures mem == 0 ==> State() == old(State())
      ensures mem == 0 || HandedOut(old(g), g, mem - 16, nb)
      ensures g.end == old(g.end) + tsize
      ensures mem != 0 ==> mem - 16 == old(top) && ServedFrom(old(Grown(State(), tsize)), State(), nb, mem - 16)
    {
      if tsize == 0 {
        return 0;
      }
      TopBound(State());
      assert TileOk(g, g.base);
      ExtendTop(tsize);
      mem := FromTop(nb);
    }

    /** `init_top` on the top chunk and `tsize` bytes more. */
    method ExtendTop(tsize: nat)
      requires Valid() && g.end + tsize - g.base < TREE_INDEX_LIMIT
      modifies this`head, this`g, this`topsize
      ensures Valid() && top == old(top) && topsize == old(topsize) + tsize && State() == old(Grown(State(), tsize))
      ensures Used(g) == Used(old(g)) && g.base == old(g.base) && g.end == old(g.end) + tsize && g.tiles.Keys == old(g.tiles.Keys)
    {
      Grow(State(), tsize);
      UsedExtended(g, top, tsize);
      ghost var after := Grown(State(), tsize);
      head := head[top := Head(topsize + tsize, true, false)][top + topsize + tsize := Head(TOP_FOOT_SIZE, false, false)];
      g := Extend(g, top, tsize);
      topsize := topsize + tsize;
      assert State() == after;
    }

    /** The part of `mspace_malloc` for small requests that looks beyond the victim; 0 when it finds nothing or does not look. */
    method MallocSmall(nb: nat) returns (mem: int)
      requires Valid() && MIN_CHUNK_SIZE <= nb < MIN_LARGE_SIZE && nb % ALIGN == 0
      modifies this, small, trees
      ensures Valid() && g.end == old(g.end)
      ensures mem == 0 ==> State() == old(State())
      ensures mem == 0 ==> BinsPassed(State(), nb)
      ensures mem == 0 || HandedOut(old(g), g, mem - 16, nb)
      ensures mem != 0 ==> Chosen(old(State()), nb, mem - 16) && ServedFrom(old(State()), State(), nb, mem - 16)
    {
      var idx := SmallIndex(nb);
      SmallSize(nb, idx);
      SmallBitsAre(small.smallmap, idx);
      var smallbits := BinMap.ShiftRight(small.smallmap, idx);
      mem := 0;
      if smallbits[0] || smallbits[1] {  // (smallbits & 0x3U) != 0
        if !smallbits[0] {
          idx := idx + 1;
        }
        mem := FromSmallBin(idx, nb);
        ExactTaken(old(State()), nb, mem - 16);
      } else {
        NoExactFit(nb, idx);
        if nb > dvsize {
          mem := MallocFromLater(nb, idx);
        }
      }
    }

    /** No small bin fits closely, and the designated victim is too small. */
    method MallocFromLater(nb: nat, idx: nat) returns (mem: int)
      requires Valid() && MIN_CHUNK_SIZE <= nb < MIN_LARGE_SIZE && nb % ALIGN == 0 && nb > dvsize
      requires idx == SmallIndex(nb) && idx < 31 && !small.smallmap[idx] && !small.smallmap[idx + 1]
      requires forall q :: !FitsExactly(State(), nb, q)
      modifies this, small, trees
      ensures Valid() && g.end == old(g.end)
      ensures mem == 0 ==> State() == old(State()) && BinsPassed(State(), nb)
      ensures mem == 0 || HandedOut(old(g), g, mem - 16, nb)
      ensures mem != 0 ==> Chosen(old(State()), nb, mem - 16) && ServedFrom(old(State()), State(), nb, mem - 16)
    {
      SmallBitsAre(small.smallmap, idx);
      var smallbits := BinMap.ShiftRight(small.smallmap, idx);
      mem := 0;
      if smallbits != BinMap.ZERO {
        var leftbits := BinMap.And(BinMap.ShiftLeft(smallbits, idx), BinMap.LeftBits(BinMap.IdxToBit(idx)));
        NextSmallBin(small.smallmap, idx);
        LeastSmall(nb, idx, BinMap.FirstMarked(leftbits));
        mem := FromSmallBin(BinMap.FirstMarked(leftbits), nb);
        SmallTaken(old(State()), nb, mem - 16);
      } else {
        NoSmallFits(nb, idx);
        if trees.treemap != BinMap.ZERO {
          mem := TmallocSmall(nb);
          TreeTaken(old(State()), nb, mem - 16);
        } else {
          SmallRest(nb);
        }
      }
    }

    /** `mspace_malloc`. `tsize` is what the system would grant if it were asked. */
    method Malloc(bytes: nat, tsize: nat) returns (mem: int)
      requires Valid() && bytes < WORD64
      requires tsize != 0 ==> tsize >= RequestSize(bytes) + SYS_ALLOC_PADDING && g.end + tsize - g.base < TREE_INDEX_LIMIT
      modifies this, small, trees
      ensures Valid()
      ensures mem == 0 <==> tsize == 0 && NothingFits(old(State()), RequestSize(bytes))
      ensures mem == 0 ==> State() == old(State())
      ensures mem != 0 ==>
                Answers(Supplied(old(State()), RequestSize(bytes), tsize), RequestSize(bytes))(State(), mem - 16)
      ensures mem == 0 || HandedOut(old(g), g, mem - 16, RequestSize(bytes))
      ensures old(g.end) <= g.end <= old(g.end) + tsize
    {
      var nb := RequestSize(bytes);
      mem := MallocFromBins(bytes, nb);
      if mem == 0 {
        mem := MallocRest(nb, tsize);
      } else {
        NotAsked(old(State()), nb, tsize, mem - 16);
      }
    }

    /** The part of `mspace_malloc` that tries the bins. */
    method MallocFromBins(bytes: nat, nb: nat) returns (mem: int)
      requires Valid() && bytes < WORD64 && nb == RequestSize(bytes)
      modifies this, small, trees
      ensures Valid() && g.end == old(g.end)
      ensures mem == 0 ==> State() == old(State())
      ensures mem == 0 ==> BinsPassed(State(), nb)
      ensures mem == 0 || HandedOut(old(g), g, mem - 16, nb)
      ensures mem != 0 ==> Answers(old(State()), nb)(State(), mem - 16) && CanServe(old(State()), nb, mem - 16) && IsFree(old(State()), mem - 16)
    {
      mem := 0;
      if bytes <= MAX_SMALL_REQUEST {
        mem := MallocSmall(nb);
      } else if bytes < MAX_REQUEST && trees.treemap != BinMap.ZERO {
        mem := TmallocLarge(nb);
      } else {
        LargeRest(bytes, nb);
      }
    }

    /** The end of `mspace_malloc`: the victim, top, and the system. */
    method MallocRest(nb: nat, tsize: nat) returns (mem: int)
      requires Valid() && MIN_CHUNK_SIZE <= nb < WORD64 && (nb == MAX_SIZE_T || nb % ALIGN == 0)
      requires tsize != 0 ==> tsize >= nb + SYS_ALLOC_PADDING && g.end + tsize - g.base < TREE_INDEX_LIMIT
      requires BinsPassed(State(), nb)
      modifies this
      ensures Valid()
      ensures mem == 0 <==> tsize == 0 && NothingFits(old(State()), nb)
      ensures mem == 0 ==> State() == old(State())
      ensures mem != 0 ==> Answers(Supplied(old(State()), nb, tsize), nb)(State(), mem - 16)
      ensures mem == 0 || HandedOut(old(g), g, mem - 16, nb)
      ensures old(g.end) <= g.end <= old(g.end) + tsize
    {
      DvBound(State());
      TopBound(State());
      if nb <= dvsize {
        DvSmallerThanLimit(State());
        PassedToVictim(State(), nb, tsize);
        mem := FromDv(nb);
      } else {
        PassedToTop(State(), nb, tsize);
        if nb < topsize {
          mem := FromTop(nb);
        } else {
          mem := SysAlloc(nb, tsize);
        }
      }
    }

    // Release

    /** `mspace_free` of a pointer that was handed out. */
    method Free(mem: int)
      requires Valid() && mem - 16 in Used(g)
      modifies this, small, trees
      ensures Valid() && Used(g) == Used(old(g)) - {mem - 16} && g.base == old(g.base) && g.end == old(g.end)
      ensures Freed(old(State()), State(), mem - 16)
    {
      var p := mem - 16;
      Release(State(), p);
      UsedReleased(g, p);
      assert head[p].cinuse;
      g := SetUsed(g, p, false);
      assert State() == old(State()).(g := SetUsed(old(g), p, false));
      ghost var loose := FreeLoose(p);
      FreedIs(old(State()), loose, State(), p);
    }

    /** The chunk, marked free, is merged with its neighbours; `loose` is the heap between the two. */
    method FreeLoose(p0: int) returns (ghost loose: Heap)
      requires small.Valid() && trees.Valid() && Core(State(), p0) && p0 != 0 && p0 != dv && p0 != g.base
      requires p0 in head && head[p0].size == g.tiles[p0].size && (head[p0].pinuse <==> PredUsed(State(), p0))
      requires After(g, p0) in g.tiles && After(g, p0) in head && head[After(g, p0)].pinuse
      modifies this, small, trees
      ensures Valid() && Used(g) == Used(old(g)) && g.base == old(g.base) && g.end == old(g.end)
      ensures MergedIfFree(old(State()), loose, p0) && Settled(loose, State(), Start(old(g), p0))
    {
      var p, psize := p0, head[p0].size;
      var next := p + psize;
      assert TileOk(g, p);
      if !head[p].pinuse {
        var prevsize := ConsolidateBack(p);
        p, psize := p - prevsize, psize + prevsize;
        loose := State();
        assert ChunkOk(State(), p, next);
        if p == dv && head[next].pinuse && head[next].cinuse {
          BecomesDv(p, psize, next);
          return;
        }
      }
      loose := State();
      ConsolidateForward(p, psize, next);
    }

    /** The designated victim is in no bin. */
    method UnlinkUnlessDv(v: int, s: nat, ghost l: int)
      requires small.Valid() && trees.Valid() && Core(State(), l)
      requires v in g.tiles && !g.tiles[v].used && v != top && v != l && s == g.tiles[v].size
      modifies small, trees
      ensures small.Valid() && trees.Valid() && State() == old(Unbinned(State(), v))
    {
      if v != dv {
        UnlinkChunk(v, s, l);
      } else {
        assert ChunkOk(State(), l, v);
        assert State() == Unbinned(State(), v);
      }
    }

    /** The chunk before the loose chunk `p` is free: unlink it, unless it is the victim, and merge. */
    method ConsolidateBack(p: int) returns (prevsize: nat)
      requires small.Valid() && trees.Valid() && Core(State(), p) && p != 0 && p != dv && p != g.base && !PredUsed(State(), p)
      requires After(g, p) in g.tiles
      modifies this`g, small, trees
      ensures small.Valid() && trees.Valid()
      ensures p in foot && prevsize == foot[p]
      ensures var v := p - prevsize;
        && v != 0 && Core(State(), v) && PredUsed(State(), v) && g.tiles[v].size == old(g.tiles[p].size) + prevsize
        && After(g, v) == old(After(g, p)) && After(g, v) in g.tiles
        && g.tiles[After(g, v)].used == old(g.tiles[After(g, p)].used)
        && Used(g) == Used(old(g)) && g.base == old(g.base) && g.end == old(g.end)
        && v == Start(old(g), p) && MergedWith(old(State()), State(), v)
    {
      MergeBack(State(), p);
      prevsize := foot[p];
      var prev := p - prevsize;
      assert TileOk(g, p) && TileOk(g, prev) && ChunkOk(State(), p, prev);
      UnlinkUnlessDv(prev, prevsize, p);
      UsedMerge(g, prev);
      g := Merge(g, prev);
      assert State() == old(MergedBack(State(), prev));
    }

    /** The victim took the freed chunk in, and the chunk after it is in use. */
    method BecomesDv(p: int, psize: nat, next: int)
      requires small.Valid() && trees.Valid() && Core(State(), p) && p != 0 && p == dv && PredUsed(State(), p) && SuccUsed(State(), p)
      requires psize == g.tiles[p].size && next == After(g, p)
      modifies this`dvsize, this`head, this`foot
      ensures Valid() && Settled(old(State()), State(), p)
    {
      WriteFree(State(), p);
      KeepDv(FreeWritten(State(), p), p);
      dvsize := psize;
      head := head[next := head[next].(pinuse := false)][p := Head(psize, true, false)];
      foot := foot[next := psize];
      assert State() == old(FreeWritten(State(), p)).(dv := p, dvsize := psize);
    }

    /** What follows the loose chunk `p` is looked at, merged if free, and `p` finds its place. */
    method ConsolidateForward(p: int, psize: nat, next: int)
      requires small.Valid() && trees.Valid() && Core(State(), p) && p != 0 && PredUsed(State(), p)
      requires psize == g.tiles[p].size && next == After(g, p) && next in g.tiles && (p == dv ==> !g.tiles[next].used)
      modifies this, small, trees
      ensures Valid() && Used(g) == Used(old(g)) && g.base == old(g.base) && g.end == old(g.end)
      ensures Settled(old(State()), State(), p)
    {
      assert ChunkOk(State(), p, next) && TileOk(g, p) && TileOk(g, next);
      if !head[next].cinuse {
        if next == top {
          MergeIntoTop(p, psize);
        } else if next == dv {
          MergeIntoDv(p, psize);
        } else {
          MergeNext(p, psize, next);
        }
      } else {
        WriteFree(State(), p);
        head := head[next := head[next].(pinuse := false)][p := Head(psize, true, false)];
        foot := foot[next := psize];
        assert State() == old(FreeWritten(State(), p));
        InsertChunk(p, psize);
      }
    }

    method MergeIntoTop(p: int, psize: nat)
      requires small.Valid() && trees.Valid() && Core(State(), p) && p != 0 && PredUsed(State(), p)
      requires psize == g.tiles[p].size && After(g, p) == top
      modifies this
      ensures Valid() && Used(g) == Used(old(g)) && g.base == old(g.base) && g.end == old(g.end)
      ensures Settled(old(State()), State(), p)
    {
      MergeTop(State(), p);
      UsedMerge(g, p);
      topsize := topsize + psize;
      top := p;
      head := head[p := Head(topsize, true, false)];
      if p == dv {
        dv, dvsize := 0, 0;
      }
      g := Merge(g, p);
      assert State() == old(MergedTop(State(), p));
    }

    method MergeIntoDv(p: int, psize: nat)
      requires small.Valid() && trees.Valid() && Core(State(), p) && p != 0 && PredUsed(State(), p)
      requires psize == g.tiles[p].size && After(g, p) == dv && dv != 0
      modifies this
      ensures Valid() && Used(g) == Used(old(g)) && g.base == old(g.base) && g.end == old(g.end)
      ensures Settled(old(State()), State(), p)
    {
      MergeDv(State(), p);
      UsedMerge(g, p);
      dvsize := dvsize + psize;
      dv := p;
      head := head[p := Head(dvsize, true, false)];
      foot := foot[p + dvsize := dvsize];
      g := Merge(g, p);
      assert State() == old(MergedDv(State(), p));
    }

    /** The chunk after the loose chunk is free and binned: unlink it, merge, and rewrite the words. */
    method MergeNext(p: int, psize: nat, next: int)
      requires small.Valid() && trees.Valid() && Core(State(), p) && p != 0 && PredUsed(State(), p)
      requires psize == g.tiles[p].size && next == After(g, p) && IsFree(State(), next) && next != top && next != dv
      modifies this, small, trees
      ensures Valid() && Used(g) == Used(old(g)) && g.base == old(g.base) && g.end == old(g.end)
      ensures Settled(old(State()), State(), p)
    {
      MergeForward(State(), p);
      UsedMerge(g, p);
      assert TileOk(g, p) && TileOk(g, next);
      var nsize := head[next].size;
      UnlinkChunk(next, nsize, p);
      g := Merge(g, p);
      assert State() == old(MergedForward(State(), p));
      FinishMerge(p, psize + nsize);
    }

    /** `set_size_and_pinuse_of_free_chunk` on the merged chunk, which stays the victim or is binned. */
    method FinishMerge(p: int, size: nat)
      requires small.Valid() && trees.Valid() && Core(State(), p) && p != 0 && PredUsed(State(), p) && SuccUsed(State(), p)
      requires size == g.tiles[p].size && After(g, p) in head && !head[After(g, p)].pinuse
      modifies this`head, this`foot, this`dvsize, small, trees
      ensures Valid() && Rested(old(State()), State(), p)
    {
      WriteFree(State(), p);
      head := head[p := Head(size, true, false)];
      foot := foot[p + size := size];
      assert State() == old(FreeWritten(State(), p));
      if p == dv {
        KeepDv(State(), p);
        dvsize := size;
      } else {
        InsertChunk(p, size);
      }
    }
  }

  /** What the tree search has found is the least fit for a large request. */
  lemma {:induction false} LargeFound(h: Heap, nb: nat, v: int, rsize: nat)
    requires Core(h, 0) && MIN_LARGE_SIZE <= nb < WORD64 && Candidate(h.tree, nb, v, rsize)
    requires forall p :: p in h.tree && h.tree[p] >= nb ==> Best(h.tree, v, p)
    ensures v == 0 ==> forall q :: !Fits(h, nb, q)
    ensures v != 0 ==> v in h.tree && LeastFit(h, nb, v) && h.g.tiles[v].size == nb + rsize < TREE_INDEX_LIMIT
  {
    if v != 0 { assert ChunkOk(h, 0, v) && TileOk(h.g, v); }
    forall q | Fits(h, nb, q) ensures v != 0 && h.tree[v] <= h.g.tiles[q].size {
      assert ChunkOk(h, 0, q);
      assert Best(h.tree, v, q);
    }
  }

  /** It is passed over for a victim that fits at least as tightly. */
  lemma {:induction false} LargeChoice(h: Heap, nb: nat, v: int, rsize: nat)
    requires Core(h, 0) && MIN_LARGE_SIZE <= nb < WORD64 && h.dvsize < WORD64 && Candidate(h.tree, nb, v, rsize)
    requires forall p :: p in h.tree && h.tree[p] >= nb ==> Best(h.tree, v, p)
    ensures if v != 0 && rsize < Sub64(h.dvsize, nb) then v in h.tree && Chosen(h, nb, v) else BinsPassed(h, nb)
  {
    LargeFound(h, nb, v, rsize);
    if v != 0 && rsize < Sub64(h.dvsize, nb) { LeastChosen(h, nb, v); }
  }

  /** A chunk of a small bin that has been used for an exact fit. */
  lemma {:induction false} ExactTaken(h: Heap, nb: nat, p: int)
    requires Core(h, 0) && IsSmall(nb) && p in h.small && nb <= h.small[p] < nb + ALIGN
    ensures Chosen(h, nb, p)
  {
    assert ChunkOk(h, 0, p);
    ExactChosen(h, nb, p);
  }

  lemma {:induction false} SmallTaken(h: Heap, nb: nat, p: int)
    requires Core(h, 0) && IsSmall(nb) && h.dvsize < nb && (forall q :: !FitsExactly(h, nb, q)) && p in h.small && h.small[p] >= nb
    requires forall q :: Fits(h, nb, q) ==> h.small[p] <= h.g.tiles[q].size
    ensures Chosen(h, nb, p)
  {
    assert ChunkOk(h, 0, p);
    LeastChosen(h, nb, p);
  }

  lemma {:induction false} TreeTaken(h: Heap, nb: nat, p: int)
    requires Core(h, 0) && IsSmall(nb) && h.dvsize < nb && (forall q :: !FitsExactly(h, nb, q)) && p in h.tree && h.tree[p] >= nb
    requires (forall q :: q in h.small ==> h.small[q] < nb) && forall q :: q in h.tree ==> h.tree[p] <= h.tree[q]
    ensures Chosen(h, nb, p)
  {
    assert ChunkOk(h, 0, p);
    forall q | Fits(h, nb, q) ensures h.g.tiles[p].size <= h.g.tiles[q].size { assert ChunkOk(h, 0, q); }
    LeastChosen(h, nb, p);
  }

  lemma {:induction false} UsedExtended(g: Seg, p: int, more: nat)
    requires p in g.tiles && !g.tiles[p].used
    ensures Used(Extend(g, p, more)) == Used(g)
  {
  }

  /** The two low bits of `smallmap >> idx`. */
  lemma {:induction false} SmallBitsAre(m: BinMap.Bits, idx: nat)
    requires idx < 31
    ensures BinMap.ShiftRight(m, idx)[0] == m[idx] && BinMap.ShiftRight(m, idx)[1] == m[idx + 1]
    ensures BinMap.ShiftRight(m, idx) == BinMap.ZERO ==> forall j :: idx <= j < NSMALLBINS ==> !m[j]
  {
    BinMap.ShiftIs(m, idx, 0);
    BinMap.ShiftIs(m, idx, 1);
    if BinMap.ShiftRight(m, idx) == BinMap.ZERO {
      forall j | idx <= j < NSMALLBINS ensures !m[j] { BinMap.ShiftIs(m, idx, j - idx); }
    }
  }

  /** When neither `idx` nor `idx + 1` is marked but a later bin is, the left bits find it. */
  lemma {:induction false} NextSmallBin(m: BinMap.Bits, idx: nat)
    requires idx < 31 && !m[idx] && !m[idx + 1] && BinMap.ShiftRight(m, idx) != BinMap.ZERO
    ensures var l := BinMap.And(BinMap.ShiftLeft(BinMap.ShiftRight(m, idx), idx), BinMap.LeftBits(BinMap.IdxToBit(idx)));
      && l != BinMap.ZERO && BinMap.FirstMarked(l) > idx && m[BinMap.FirstMarked(l)]
      && forall j :: idx < j < BinMap.FirstMarked(l) ==> !m[j]
  {
    var x := BinMap.ShiftRight(m, idx);
    var l := BinMap.And(BinMap.ShiftLeft(x, idx), BinMap.LeftBits(BinMap.IdxToBit(idx)));
    forall j: BinMap.Index ensures l[j] <==> idx < j && m[j] {
      BinMap.ShiftIs(m, idx, j);
      BinMap.LeftBitsIs(idx, j);
    }
    var k := BinMap.FirstMarked(x);
    BinMap.ShiftIs(m, idx, k);
    assert l[idx + k];
    BinMap.NonZeroIs(l);
  }

  lemma {:induction false} DvSmallerThanLimit(h: Heap)
    requires Core(h, 0)
    ensures h.dvsize < TREE_INDEX_LIMIT
  {
    if h.dv != 0 { assert TileOk(h.g, h.dv); }
  }

  lemma {:induction false} TopBound(h: Heap)
    requires Core(h, 0)
    ensures h.topsize < TREE_INDEX_LIMIT
  {
    assert TileOk(h.g, h.top);
  }

  lemma {:induction false} SmallSize(s: nat, i: nat)
    requires s % 16 == 0 && SmallIndex(s) == i
    ensures s == i * 8
  {
  }

  lemma {:induction false} DvBound(h: Heap)
    requires Core(h, 0)
    ensures h.dvsize < WORD64
  {
    if h.dv != 0 { assert TileOk(h.g, h.dv); }
  }

  lemma {:induction false} ChunkAligned(h: Heap, p: int)
    requires Core(h, p) && p != 0 && SuccUsed(h, p)
    ensures p > 0 && h.g.tiles[p].size % ALIGN == 0 && h.g.tiles[p].size < TREE_INDEX_LIMIT
  {
    assert TileOk(h.g, p);
    EndOutside(h.g, h.g.end);
  }

  lemma {:induction false} DvAligned(h: Heap, p: int)
    requires Core(h, p) && h.dv != 0 && h.dv != p
    ensures h.dv > 0 && h.dvsize % ALIGN == 0
  {
    assert TileOk(h.g, h.dv);
    LastIsGreatest(h.g, h.top, h.dv);
  }
}

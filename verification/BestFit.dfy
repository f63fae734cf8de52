/**
 Which free chunk a request gets, and what becomes of its rest: the policy of `mspace_malloc`
 stated over the whole heap at once, without bins, trees or bit maps.
 */
module BestFit {
  import opened BinIndex
  import opened HeapState
  import opened Segment

  /** A free chunk that is in a bin. */
  ghost predicate InBin(h: Heap, q: int) { IsFree(h, q) && q != h.top && q != h.dv }

  ghost predicate Fits(h: Heap, nb: nat, q: int) { InBin(h, q) && h.g.tiles[q].size >= nb }

  /** It fits with too little to spare for another chunk, in the small bin of `nb` or in the next. */
  ghost predicate FitsExactly(h: Heap, nb: nat, q: int) { Fits(h, nb, q) && h.g.tiles[q].size < nb + ALIGN }

  ghost predicate LeastFit(h: Heap, nb: nat, p: int) {
    Fits(h, nb, p) && forall q :: Fits(h, nb, q) ==> h.g.tiles[p].size <= h.g.tiles[q].size
  }

  /** The victim fits, and no binned chunk that fits is smaller. */
  ghost predicate VictimLeast(h: Heap, nb: nat) {
    nb <= h.dvsize && forall q :: Fits(h, nb, q) ==> h.dvsize <= h.g.tiles[q].size
  }

  /** Chunk `p` is the one for a request of chunk size `nb`; the last resort is top. A small request prefers an
      exact fit, then the victim, then the least fit; a large one takes the least of all, the victim on a tie. */
  ghost predicate Chosen(h: Heap, nb: nat, p: int) {
    if IsSmall(nb) && exists q :: FitsExactly(h, nb, q) then FitsExactly(h, nb, p)
    else if (IsSmall(nb) && nb <= h.dvsize) || VictimLeast(h, nb) then p == h.dv
    else if exists q :: Fits(h, nb, q) then LeastFit(h, nb, p)
    else p == h.top
  }

  /** No free chunk, top included, can serve the request. */
  ghost predicate NothingFits(h: Heap, nb: nat) {
    && h.topsize <= nb
    && forall q :: q in h.g.tiles && !h.g.tiles[q].used && q != h.top ==> h.g.tiles[q].size < nb
  }

  /** Sizes are multiples of 16, so an exact fit has the size asked for. */
  lemma {:induction false} ExactSize(h: Heap, nb: nat, q: int)
    requires Core(h, 0) && nb % ALIGN == 0 && FitsExactly(h, nb, q)
    ensures h.g.tiles[q].size == nb
  {
    assert TileOk(h.g, q) && ChunkOk(h, 0, q);
    LastIsGreatest(h.g, h.top, q);
  }

  // What becomes of the chunk

  ghost predicate CanUse(h: Heap, p: int, nb: nat) {
    p in h.g.tiles && nb <= h.g.tiles[p].size && After(h.g, p) in h.head
  }

  /** The loose chunk `p` is handed out; a rest that can be a chunk becomes the victim. */
  function RestToVictim(h: Heap, p: int, nb: nat): Heap
    requires CanUse(h, p, nb)
  {
    if h.g.tiles[p].size < nb + MIN_CHUNK_SIZE then WholeTaken(h, p) else DvReplaced(SplitTaken(h, p, nb), p + nb)
  }

  /** The same, with the rest put into the bin of its size. */
  function RestToBin(h: Heap, p: int, nb: nat): Heap
    requires CanUse(h, p, nb)
  {
    if h.g.tiles[p].size < nb + MIN_CHUNK_SIZE then WholeTaken(h, p) else Binned(SplitTaken(h, p, nb), p + nb)
  }

  ghost predicate CanServe(h: Heap, nb: nat, p: int) {
    CanUse(h, p, nb) && (p == h.top ==> nb < h.g.tiles[p].size && nb <= h.topsize)
  }

  /** The heap after the request has been served from `p`. */
  function Served(h: Heap, nb: nat, p: int): Heap
    requires CanServe(h, nb, p)
  {
    if p == h.top then TopTaken(h, nb)
    else if p == h.dv then RestToVictim(h.(dv := 0, dvsize := 0), p, nb)
    else if IsSmall(nb) then RestToVictim(Unbinned(h, p), p, nb)
    else RestToBin(Unbinned(h, p), p, nb)
  }

  ghost predicate ServedFrom(h: Heap, h': Heap, nb: nat, p: int) { CanServe(h, nb, p) && h' == Served(h, nb, p) }

  /** The chunk is in use, all of it or `nb` bytes of it, and what is left is free; no other chunk has changed. */
  ghost predicate Cut(g: Seg, g': Seg, p: int, nb: nat, whole: bool)
    requires p in g.tiles
  {
    && p in g'.tiles && g'.tiles[p].used && g'.tiles[p].size == (if whole then g.tiles[p].size else nb)
    && (forall q :: q in g'.tiles <==> q in g.tiles || (!whole && q == p + nb))
    && (forall q :: q in g.tiles && q != p ==> g'.tiles[q].size == g.tiles[q].size && g'.tiles[q].used == g.tiles[q].used)
    && (!whole ==> p + nb !in g.tiles && !g'.tiles[p + nb].used && g'.tiles[p + nb].size == g.tiles[p].size - nb)
  }

  /** What has become of the chunk: all of it is in use when the rest would be too small for a chunk. The rest of top is
      top, the rest of the victim and that after a small request is the victim, and any other is in a bin, as is a
      victim that has been replaced. */
  ghost predicate Divided(h: Heap, h': Heap, nb: nat, p: int)
    requires p in h.g.tiles
  {
    var whole := p != h.top && h.g.tiles[p].size < nb + MIN_CHUNK_SIZE;
    && Cut(h.g, h'.g, p, nb, whole)
    && h'.top == (if p == h.top then p + nb else h.top)
    && h'.dv == if p == h.top then h.dv else if whole then (if p == h.dv then 0 else h.dv)
                else if p == h.dv || IsSmall(nb) then p + nb else h.dv
  }

  lemma {:induction false} CutIs(g: Seg, p: int, nb: nat)
    requires Tiling(g) && p in g.tiles && 0 < nb < g.tiles[p].size
    ensures Cut(g, SetUsed(Split(g, p, nb), p, true), p, nb, false)
  {
    assert TileOk(g, p);
    assert p + nb in g.tiles ==> Apart(g, p, p + nb);
  }

  lemma {:induction false} ServedIs(h: Heap, h': Heap, nb: nat, p: int)
    requires Core(h, 0) && IsFree(h, p) && 0 < nb && ServedFrom(h, h', nb, p)
    ensures Divided(h, h', nb, p)
  {
    if p == h.top || h.g.tiles[p].size >= nb + MIN_CHUNK_SIZE { CutIs(h.g, p, nb); }
  }

  /** Whether a heap is the one after the request has been served from a chunk of `h`, and that is the right chunk. */
  ghost function Answers(h: Heap, nb: nat): (Heap, int) -> bool {
    (h': Heap, p: int) => Chosen(h, nb, p) && ServedFrom(h, h', nb, p)
  }

  /** The heap from which a request is served: the system is asked for more only when nothing fits. */
  ghost function Supplied(h: Heap, nb: nat, tsize: nat): Heap {
    if NothingFits(h, nb) && h.top in h.g.tiles then Grown(h, tsize) else h
  }

  lemma {:induction false} NotAsked(h: Heap, nb: nat, tsize: nat, p: int)
    requires Core(h, 0) && CanServe(h, nb, p) && IsFree(h, p)
    ensures !NothingFits(h, nb) && Supplied(h, nb, tsize) == h
  {}

  // How the stages of the search lead there

  /** The bins have been passed over: what is left is the victim, if it fits, or else top. */
  ghost predicate BinsPassed(h: Heap, nb: nat) {
    && (IsSmall(nb) ==> forall q :: !FitsExactly(h, nb, q))
    && ((IsSmall(nb) && nb <= h.dvsize) || VictimLeast(h, nb) || (forall q :: !Fits(h, nb, q)))
  }

  lemma {:induction false} PassedToVictim(h: Heap, nb: nat, tsize: nat)
    requires Core(h, 0) && BinsPassed(h, nb) && 0 < nb <= h.dvsize
    ensures Chosen(h, nb, h.dv) && !NothingFits(h, nb) && Supplied(h, nb, tsize) == h
  {
    assert IsFree(h, h.dv) && h.dv != h.top;
  }

  /** Then no free chunk but top can serve, also after top has grown. */
  lemma {:induction false} PassedToTop(h: Heap, nb: nat, tsize: nat)
    requires Core(h, 0) && BinsPassed(h, nb) && h.dvsize < nb
    ensures NothingFits(h, nb) <==> h.topsize <= nb
    ensures h.top in h.g.tiles && Supplied(h, nb, tsize) == (if h.topsize <= nb then Grown(h, tsize) else h)
    ensures Chosen(Supplied(h, nb, tsize), nb, h.top)
  {
    forall q | q in h.g.tiles && !h.g.tiles[q].used && q != h.top ensures h.g.tiles[q].size < nb {
      assert ChunkOk(h, 0, q);
      assert !Fits(h, nb, q);
    }
    var h' := Supplied(h, nb, tsize);
    forall q ensures !Fits(h', nb, q) {}
  }

  /** What fits exactly is chosen. */
  lemma {:induction false} ExactChosen(h: Heap, nb: nat, p: int)
    requires IsSmall(nb) && FitsExactly(h, nb, p)
    ensures Chosen(h, nb, p)
  {}

  lemma {:induction false} LeastChosen(h: Heap, nb: nat, p: int)
    requires LeastFit(h, nb, p) && (IsSmall(nb) ==> h.dvsize < nb && forall q :: !FitsExactly(h, nb, q))
    requires h.dvsize < nb || h.g.tiles[p].size < h.dvsize
    ensures Chosen(h, nb, p)
  {}
}

/**
 The 32 small bins: circular lists through a header, one list per size. The links of
 an empty bin's header are stale; only the bin map tells that the bin is empty.
 */
module SmallBins {
  import opened BinIndex
  import BinMap
  import opened Ring

  /** The address that stands for the header of bin `i`. */
  function Header(i: nat): int { -1 - i }

  ghost predicate BinOk(link: Links, size: map<int, nat>, marked: bool, chunks: seq<int>, i: nat)
  {
    && Header(i) in link
    && (marked <==> chunks != [])
    && (marked ==> IsRing(link, [Header(i)] + chunks))
    && (forall p :: p in chunks ==> p > 0 && p in size && SmallIndex(size[p]) == i)
  }

  lemma {:induction false} BinFrame(link: Links, size: map<int, nat>, link': Links, size': map<int, nat>, marked: bool, chunks: seq<int>, i: nat)
    requires BinOk(link, size, marked, chunks, i)
    requires forall q :: (q in chunks || q == Header(i)) && q in link ==> q in link' && link'[q] == link[q]
    requires forall q :: q in chunks && q in size ==> q in size' && size'[q] == size[q]
    ensures BinOk(link', size', marked, chunks, i)
  {
    var s := [Header(i)] + chunks;
    if marked { RingFrame(link, link', s, set q | q in s); }
  }

  /** `B->fd = P; F->bk = P; P->fd = F; P->bk = B`. */
  function Link4(link: Links, b: int, f: int, p: int): Links
    requires b in link && f in link
  {
    SetBk(SetFd(link, b, p), f, p)[p := Link(f, b)]
  }

  lemma {:induction false} FirstInserted(link: Links, b: int, p: int)
    requires b in link && p != b
    ensures IsRing(Link4(link, b, b, p), [b, p])
  {
    var s := [b, p];
    assert s[0] == b && s[1] == p;
  }

  lemma {:induction false} NextInserted(link: Links, b: int, chunks: seq<int>, p: int)
    requires IsRing(link, [b] + chunks) && p != b && p !in chunks && chunks != []
    ensures b in link && link[b].fd in link && link[b].fd != b
    ensures IsRing(Link4(link, b, link[b].fd, p), [b] + ([p] + chunks))
  {
    var s := [b] + chunks;
    assert s[0] == b && s[1..] == chunks && s[1] == chunks[0];
    RingMembers(link, s, 0);
    InsertAfterHead(link, s, p);
    assert Link4(link, b, link[b].fd, p) == InsertAfter(link, b, p);
    assert [s[0], p] + s[1..] == [b] + ([p] + chunks);
  }

  function IndexOf(s: seq<int>, p: int): (k: nat)
    requires p in s
    ensures k < |s| && s[k] == p
  {
    if s[0] == p then 0 else 1 + IndexOf(s[1..], p)
  }

  function Without(s: seq<int>, p: int): seq<int>
    requires p in s
  {
    s[..IndexOf(s, p)] + s[IndexOf(s, p) + 1..]
  }

  lemma {:induction false} WithoutMembers(chunks: seq<int>, p: int)
    requires NoDup(chunks) && p in chunks
    ensures forall q :: q in Without(chunks, p) <==> q in chunks && q != p
  {
    var k := IndexOf(chunks, p);
    assert chunks == chunks[..k] + [p] + chunks[k + 1..];
  }

  lemma {:induction false} TailNoDup(b: int, chunks: seq<int>)
    requires NoDup([b] + chunks)
    ensures NoDup(chunks) && b !in chunks
  {
    var s := [b] + chunks;
    assert s[0] == b && forall i :: 0 <= i < |chunks| ==> chunks[i] == s[i + 1];
  }

  /** How the code tells that a chunk is the only one of its bin: its two links agree. */
  lemma {:induction false} OnlyChunk(link: Links, b: int, chunks: seq<int>, p: int)
    requires IsRing(link, [b] + chunks) && p in chunks
    ensures p in link && link[p].fd in link && link[p].bk in link
    ensures link[link[p].fd].bk == p && link[link[p].bk].fd == p
    ensures (link[p].fd == b || link[p].fd in chunks) && (link[p].bk == b || link[p].bk in chunks)
    ensures link[p].fd == link[p].bk <==> |chunks| == 1
  {
    var s := [b] + chunks;
    var k := IndexOf(chunks, p);
    var n := |s|;
    assert s[k + 1] == p;
    RingMembers(link, s, k + 1);
    RingMembers(link, s, if k + 2 == n then 0 else k + 2);
    RingMembers(link, s, k);
  }

  lemma {:induction false} UnlinkedRing(link: Links, b: int, chunks: seq<int>, p: int)
    requires IsRing(link, [b] + chunks) && p in chunks && |chunks| > 1
    ensures p in link && link[p].fd in link && link[p].bk in link
    ensures IsRing(Remove(link, p), [b] + Without(chunks, p))
  {
    WithoutFrom(b, chunks, p);
    RemoveFromRing(link, [b] + chunks, IndexOf(chunks, p) + 1);
  }

  lemma {:induction false} WithoutFrom(b: int, chunks: seq<int>, p: int)
    requires p in chunks
    ensures var s, k := [b] + chunks, IndexOf(chunks, p) + 1;
            s[k] == p && s[..k] + s[k + 1..] == [b] + Without(chunks, p)
  {
    var s, k := [b] + chunks, IndexOf(chunks, p) + 1;
    assert s[..k] == [b] + chunks[..k - 1] && s[k + 1..] == chunks[k..];
  }

  /** What bin `i` is once `p` has been unlinked from it. */
  lemma {:induction false} AfterUnlink(link: Links, size: map<int, nat>, chunks: seq<int>, i: nat, p: int)
    requires BinOk(link, size, true, chunks, i) && p in chunks
    ensures p in link && link[p].fd in link && link[p].bk in link
    ensures link[p].fd == Header(i) || link[link[p].fd].bk == p
    ensures link[p].bk == Header(i) || link[link[p].bk].fd == p
    ensures var only := link[p].fd == link[p].bk;
      var link' := if only then link else Remove(link, p);
      && BinOk(link', size - {p}, !only, Without(chunks, p), i)
      && (forall q :: q in link && q !in chunks && q != Header(i) ==> q in link' && link'[q] == link[q])
    ensures forall q :: q in Without(chunks, p) <==> q in chunks && q != p
  {
    OnlyChunk(link, Header(i), chunks, p);
    TailNoDup(Header(i), chunks);
    WithoutMembers(chunks, p);
    if |chunks| > 1 {
      UnlinkedRing(link, Header(i), chunks, p);
    } else {
      assert Without(chunks, p) == [];
    }
  }

  /** The chunk is small, and in the bin of its size. */
  ghost predicate Filed(size: map<int, nat>, bins: seq<seq<int>>, p: int)
    requires p in size && |bins| == NSMALLBINS
  {
    IsSmall(size[p]) && size[p] % 16 == 0 && p > 0 && p in bins[SmallIndex(size[p])]
  }

  ghost predicate Consistent(link: Links, size: map<int, nat>, smallmap: BinMap.Bits, bins: seq<seq<int>>)
  {
    && |bins| == NSMALLBINS
    && (forall i :: 0 <= i < NSMALLBINS ==> BinOk(link, size, smallmap[i], bins[i], i))
    && (forall p :: p in size ==> Filed(size, bins, p))
  }

  /** The chunk goes to the front of its bin, and the other bins do not notice. */
  lemma {:induction false} InsertConsistent(link: Links, size: map<int, nat>, smallmap: BinMap.Bits, bins: seq<seq<int>>, i: nat, p: int, s: nat, f: int)
    requires Consistent(link, size, smallmap, bins) && p > 0 && p !in size && IsSmall(s) && s % 16 == 0 && i == SmallIndex(s)
    requires Header(i) in link && f == if smallmap[i] then link[Header(i)].fd else Header(i)
    ensures f in link && Consistent(Link4(link, Header(i), f, p), size[p := s], smallmap[i := true], bins[i := [p] + bins[i]])
  {
    assert BinOk(link, size, smallmap[i], bins[i], i);
    BinInserted(link, size, smallmap[i], bins[i], i, p, s, f);
    var link', size', bins' := Link4(link, Header(i), f, p), size[p := s], bins[i := [p] + bins[i]];
    forall j | 0 <= j < NSMALLBINS ensures BinOk(link', size', smallmap[i := true][j], bins'[j], j) {
      if j != i {
        assert BinOk(link, size, smallmap[j], bins[j], j);
        OtherBin(link, size, link', size', smallmap[j], bins[j], bins[i], i, j);
      }
    }
    forall q | q in size' ensures Filed(size', bins', q) { assert q != p ==> Filed(size, bins, q); }
  }

  lemma {:induction false} BinInserted(link: Links, size: map<int, nat>, marked: bool, chunks: seq<int>, i: nat, p: int, s: nat, f: int)
    requires BinOk(link, size, marked, chunks, i) && p > 0 && p !in size && i == SmallIndex(s)
    requires f == if marked then link[Header(i)].fd else Header(i)
    ensures f in link && BinOk(Link4(link, Header(i), f, p), size[p := s], true, [p] + chunks, i)
    ensures forall q | q in link && q != p && q != Header(i) && q !in chunks :: Link4(link, Header(i), f, p)[q] == link[q]
  {
    var b := Header(i);
    if marked {
      NextInserted(link, b, chunks, p);
      HeadFirst(link, b, chunks);
    } else {
      FirstInserted(link, b, p);
      assert [b] + ([p] + chunks) == [b, p];
    }
  }

  /** A bin whose links have not changed. */
  lemma {:induction false} OtherBin(link: Links, size: map<int, nat>, link': Links, size': map<int, nat>, marked: bool,
                                    chunks: seq<int>, changed: seq<int>, i: nat, j: nat)
    requires BinOk(link, size, marked, chunks, j) && i != j
    requires forall q | q in changed :: q > 0 && q in size && SmallIndex(size[q]) == i
    requires forall q | q in link && q in size && q != Header(i) && q !in changed :: q in link' && link'[q] == link[q]
    requires forall q | q in link && q < 0 && q != Header(i) :: q in link' && link'[q] == link[q]
    requires forall q | q in size && SmallIndex(size[q]) == j :: q in size' && size'[q] == size[q]
    ensures BinOk(link', size', marked, chunks, j)
  {
    BinFrame(link, size, link', size', marked, chunks, j);
  }

  /** The chunk leaves its bin, and the other bins do not notice. */
  lemma {:induction false} UnlinkConsistent(link: Links, size: map<int, nat>, smallmap: BinMap.Bits, bins: seq<seq<int>>, i: nat, p: int)
    requires Consistent(link, size, smallmap, bins) && p in size && i == SmallIndex(size[p]) && i < NSMALLBINS && p in bins[i]
    requires p in link && link[p].fd in link && link[p].bk in link
    ensures var only := link[p].fd == link[p].bk;
      Consistent(if only then link else Remove(link, p), size - {p}, if only then smallmap[i := false] else smallmap, bins[i := Without(bins[i], p)])
  {
    assert BinOk(link, size, smallmap[i], bins[i], i);
    AfterUnlink(link, size, bins[i], i, p);
    var only := link[p].fd == link[p].bk;
    var link', size', bins' := if only then link else Remove(link, p), size - {p}, bins[i := Without(bins[i], p)];
    var smallmap' := if only then smallmap[i := false] else smallmap;
    forall j | 0 <= j < NSMALLBINS ensures BinOk(link', size', smallmap'[j], bins'[j], j) {
      if j != i {
        assert BinOk(link, size, smallmap[j], bins[j], j);
        OtherBin(link, size, link', size', smallmap[j], bins[j], bins[i], i, j);
      }
    }
    forall q | q in size' ensures Filed(size', bins', q) { assert Filed(size, bins, q); }
  }

  class SmallBins {
    var smallmap: BinMap.Bits
    var link: Links
    /** `chunksize` of every chunk now in a small bin. */
    var size: map<int, nat>
    ghost var bins: seq<seq<int>>

    ghost predicate Valid()
      reads this
    {
      Consistent(link, size, smallmap, bins)
    }

    /** `init_bins`. */
    constructor ()
      ensures Valid() && size == map[]
    {
      smallmap := BinMap.ZERO;
      link := map i: int | -32 <= i < 0 :: Link(i, i);
      size := map[];
      bins := seq(NSMALLBINS, _ => []);
    }

    /** The bin of every chunk is marked. */
    lemma {:induction false} Marked(p: int)
      requires Valid() && p in size
      ensures SmallIndex(size[p]) < NSMALLBINS && smallmap[SmallIndex(size[p])]
    {
      assert Filed(size, bins, p);
      assert BinOk(link, size, smallmap[SmallIndex(size[p])], bins[SmallIndex(size[p])], SmallIndex(size[p]));
    }

    /** `insert_small_chunk`: to the front of the list of its bin. */
    method Insert(p: int, s: nat)
      requires Valid() && p > 0 && p !in size && IsSmall(s) && s % 16 == 0
      modifies this
      ensures Valid() && size == old(size)[p := s]
      ensures var i := SmallIndex(s); i < |old(bins)| && bins == old(bins)[i := [p] + old(bins)[i]]
    {
      var i := SmallIndex(s);
      var b := Header(i);
      var f := b;
      assert BinOk(link, size, smallmap[i], bins[i], i);
      BinMap.MarkIs(smallmap, i);
      if !smallmap[i] {
        smallmap := BinMap.Mark(smallmap, i);
      } else {
        HeadFirst(link, b, bins[i]);
        f := link[b].fd;
      }
      InsertConsistent(link, size, old(smallmap), bins, i, p, s, f);
      link := Link4(link, b, f, p);
      size := size[p := s];
      bins := bins[i := [p] + bins[i]];
    }

    /** `unlink_small_chunk`. The links of the header are left alone when the bin becomes empty. */
    method Unlink(p: int)
      requires Valid() && p in size
      modifies this
      ensures Valid() && size == old(size) - {p}
    {
      var i := SmallIndex(size[p]);
      assert Filed(size, bins, p) && BinOk(link, size, smallmap[i], bins[i], i);
      AfterUnlink(link, size, bins[i], i, p);
      var f, b := link[p].fd, link[p].bk;
      assert f == Header(i) || link[f].bk == p;
      assert b == Header(i) || link[b].fd == p;
      BinMap.MarkIs(smallmap, i);
      UnlinkConsistent(link, size, smallmap, bins, i, p);
      if b == f {
        smallmap := BinMap.Clear(smallmap, i);
      } else {
        link := SetFd(SetBk(link, f, b), b, f);
      }
      size := size - {p};
      bins := bins[i := Without(bins[i], p)];
    }

    /** `unlink_first_small_chunk` of bin `i`, which is not empty. */
    method UnlinkFirst(i: nat) returns (p: int)
      requires Valid() && i < NSMALLBINS && smallmap[i]
      modifies this
      ensures Valid() && p in old(size) && SmallIndex(old(size)[p]) == i && size == old(size) - {p}
      ensures |old(bins)| == NSMALLBINS && old(bins)[i] != [] && p == old(bins)[i][0]
    {
      assert BinOk(link, size, smallmap[i], bins[i], i);
      HeadFirst(link, Header(i), bins[i]);
      p := link[Header(i)].fd;
      Unlink(p);
    }
  }

  lemma {:induction false} HeadFirst(link: Links, b: int, chunks: seq<int>)
    requires IsRing(link, [b] + chunks) && chunks != []
    ensures b in link && link[b].fd == chunks[0]
  {
    RingMembers(link, [b] + chunks, 0);
  }
}

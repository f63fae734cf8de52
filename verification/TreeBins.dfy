/** The 32 tree bins of the allocator, with the in-place insertion and removal of large chunks. */
module TreeBins {
  import opened BinIndex
  import BinMap
  import opened Ring
  import opened TreeBin
  import opened TreeKey
  import opened TreeSearch
  import opened TreeUnlink
  import opened Trie
  import opened TrieMemory
  import opened TrieUpdate
  import opened Words

  /** Everything the bins promise: the tries, the map of non-empty bins, and what is stored where. */
  ghost predicate Consistent(treemap: BinMap.Bits, root: seq<int>, node: Nodes, link: Links, size: Sizes, tries: seq<Trie>)
  {
    && BinsOk(node, link, size, root, tries, -1)
    && (forall i :: 0 <= i < NTREEBINS ==> treemap[i] == tries[i].Node?)
    && (forall p :: p in size ==> Filed(size, tries, p))
    && (forall p :: p in node ==> p > 0)
  }

  /** The chunk is large, and in the bin of its size. */
  ghost predicate Filed(size: Sizes, tries: seq<Trie>, p: int)
    requires p in size && |tries| == NTREEBINS
  {
    MIN_LARGE_SIZE <= size[p] < TREE_INDEX_LIMIT && In(tries[ComputeTreeIndex(size[p])], p)
  }

  /** Placing `x` in its bin leaves every bin in order. */
  lemma {:induction false} AllPlaced(node: Nodes, link: Links, size: Sizes, root: seq<int>, root': seq<int>, tries: seq<Trie>, i: nat, x: int, s: nat, node': Nodes, link': Links)
    requires BinsOk(node, link, size, root, tries, -1) && x !in size && |root'| == NTREEBINS && i < NTREEBINS
    requires MIN_LARGE_SIZE <= s < TREE_INDEX_LIMIT && i == ComputeTreeIndex(s)
    requires forall j :: 0 <= j < NTREEBINS && j != i ==> root'[j] == root[j]
    requires Placed(node, link, size, root'[i], tries[i], i, x, s, node', link')
    ensures var t' := WithChunk(tries[i], BinLo(i), BinWidth(i), x, s);
      && BinsOk(node', link', size[x := s], root', tries[i := t'], -1)
      && t'.Node? && forall q :: In(t', q) <==> q == x || In(tries[i], q)
  {
    forall j | 0 <= j < NTREEBINS ensures !In(tries[j], x) {
      assert BinOk(node, link, size, root[j], tries[j], j);
    }
    assert BinOk(node, link, size, root[i], tries[i], i);
    OtherBins(node, link, size, root, tries, node', link', size[x := s], i, x);
    TreeIndexBracket(s);
    InsertedOrder(tries[i], size, i, x, s);
    var tries' := tries[i := WithChunk(tries[i], BinLo(i), BinWidth(i), x, s)];
    forall j | 0 <= j < NTREEBINS
      ensures BinOk(node', link', size[x := s], root'[j], tries'[j], j)
    {
      if j != i { assert BinOk(node', link', size[x := s], root[j], tries[j], j); }
    }
  }

  lemma {:induction false} InsertConsistent(treemap: BinMap.Bits, root: seq<int>, root': seq<int>, node: Nodes, link: Links, size: Sizes, tries: seq<Trie>,
                         i: nat, x: int, s: nat, node': Nodes, link': Links)
    requires Consistent(treemap, root, node, link, size, tries) && x !in size && x > 0
    requires MIN_LARGE_SIZE <= s < TREE_INDEX_LIMIT && i == ComputeTreeIndex(s)
    requires |root'| == NTREEBINS && forall j :: 0 <= j < NTREEBINS && j != i ==> root'[j] == root[j]
    requires Placed(node, link, size, root'[i], tries[i], i, x, s, node', link')
    ensures Consistent(treemap[i := true], root', node', link', size[x := s], tries[i := WithChunk(tries[i], BinLo(i), BinWidth(i), x, s)])
  {
    AllPlaced(node, link, size, root, root', tries, i, x, s, node', link');
    var size', tries' := size[x := s], tries[i := WithChunk(tries[i], BinLo(i), BinWidth(i), x, s)];
    forall p | p in size' ensures Filed(size', tries', p) {
      assert p != x ==> Filed(size, tries, p);
    }
  }

  lemma {:induction false} RootPresent(node: Nodes, link: Links, p: int, t: Trie, i: nat, x: int)
    requires Rep(node, link, p, BinPointer(i), t) && In(t, x)
    ensures p != 0
  {
  }

  lemma {:induction false} AllRemoved(root: seq<int>, root': seq<int>, node: Nodes, link: Links, size: Sizes, tries: seq<Trie>, i: nat, x: int,
                                      node': Nodes, link': Links)
    requires BinsOk(node, link, size, root, tries, -1) && x in size && i == ComputeTreeIndex(size[x])
    requires |root'| == NTREEBINS && forall j :: 0 <= j < NTREEBINS && j != i ==> root'[j] == root[j]
    requires Removed(node, link, size, root'[i], tries[i], i, x, node', link')
    ensures BinsOk(node', link', size - {x}, root', tries[i := WithoutChunk(tries[i], x)], -1)
  {
    assert BinOk(node, link, size, root[i], tries[i], i);
    forall j | 0 <= j < NTREEBINS && j != i ensures !In(tries[j], x) {
      assert BinOk(node, link, size, root[j], tries[j], j);
    }
    OtherBins(node, link, size, root, tries, node', link', size - {x}, i, x);
    var tries' := tries[i := WithoutChunk(tries[i], x)];
    forall j | 0 <= j < NTREEBINS
      ensures BinOk(node', link', size - {x}, root'[j], tries'[j], j)
    {
      if j != i { assert BinOk(node', link', size - {x}, root[j], tries[j], j); }
    }
  }

  /** Removing `x` from its bin leaves every bin in order. */
  lemma {:induction false} RemoveConsistent(treemap: BinMap.Bits, treemap': BinMap.Bits, root: seq<int>, root': seq<int>, node: Nodes, link: Links, size: Sizes,
                          tries: seq<Trie>, i: nat, x: int, node': Nodes, link': Links)
    requires Consistent(treemap, root, node, link, size, tries) && x in size && i == ComputeTreeIndex(size[x])
    requires |root'| == NTREEBINS && forall j :: 0 <= j < NTREEBINS && j != i ==> root'[j] == root[j]
    requires Removed(node, link, size, root'[i], tries[i], i, x, node', link')
    requires treemap' == if root'[i] == 0 then treemap[i := false] else treemap
    ensures Consistent(treemap', root', node', link', size - {x}, tries[i := WithoutChunk(tries[i], x)])
  {
    AllRemoved(root, root', node, link, size, tries, i, x, node', link');
    var tries' := tries[i := WithoutChunk(tries[i], x)];
    StillFiled(node, link, size, root[i], tries, i, x);
    forall j | 0 <= j < NTREEBINS ensures treemap'[j] == tries'[j].Node? {
      if j == i { EmptyRoot(node', link', size - {x}, root'[i], tries'[i], i); }
    }
  }

  lemma {:induction false} StillFiled(node: Nodes, link: Links, size: Sizes, p: int, tries: seq<Trie>, i: nat, x: int)
    requires |tries| == NTREEBINS && i < NTREEBINS && BinOk(node, link, size, p, tries[i], i) && In(tries[i], x)
    requires forall q :: q in size ==> Filed(size, tries, q)
    ensures forall q :: q in size - {x} ==> Filed(size - {x}, tries[i := WithoutChunk(tries[i], x)], q)
  {
    RemovedOrder(tries[i], size, i, x);
    forall q | q in size - {x} ensures Filed(size - {x}, tries[i := WithoutChunk(tries[i], x)], q) { assert Filed(size, tries, q); }
  }

  lemma {:induction false} EmptyRoot(node: Nodes, link: Links, size: Sizes, p: int, t: Trie, i: nat)
    requires BinOk(node, link, size, p, t, i)
    ensures p == 0 <==> t.Nil?
  {}

  /** A subtree being walked, with the parent pointer of its root and the range of its sizes. */
  datatype Cursor = Cursor(u: Trie, par: int, lo: nat, w: nat)

  /** The cursor of a child of node `t`; an empty child when the range can shrink no further. */
  ghost function Below(t: int, c: Cursor, b: bool): Cursor
    requires c.u.Node?
  {
    if c.w == 0 then Cursor(Nil, t, 0, 0) else Cursor(Child(c.u, b), t, ChildLo(c.lo, c.w, b), c.w - 1)
  }

  class TreeBins {
    var treemap: BinMap.Bits
    var root: seq<int>
    var node: Nodes
    var link: Links
    /** `chunksize` of every chunk now in a tree bin. */
    var size: Sizes
    ghost var tries: seq<Trie>

    ghost predicate Valid()
      reads this
    {
      Consistent(treemap, root, node, link, size, tries)
    }

    constructor ()
      ensures Valid() && size == map[]
    {
      treemap := BinMap.ZERO;
      root := seq(NTREEBINS, _ => 0);
      node, link, size := map[], map[], map[];
      tries := seq(NTREEBINS, _ => Nil);
    }

    /** `insert_large_chunk`: file chunk `x` of size `s`. */
    method Insert(x: int, s: nat)
      requires Valid() && x > 0 && x !in size && MIN_LARGE_SIZE <= s < TREE_INDEX_LIMIT
      modifies this
      ensures Valid() && size == old(size)[x := s]
    {
      var i := ComputeTreeIndex(s);
      if !treemap[i] {
        PlaceInEmpty(i, x, s);
      } else {
        PlaceInTrie(i, x, s);
      }
      InsertConsistent(old(treemap), old(root), root, old(node), old(link), size, tries, i, x, s, node, link);
      size := size[x := s];
      tries := tries[i := WithChunk(tries[i], BinLo(i), BinWidth(i), x, s)];
    }

    /** The first branch of `insert_large_chunk`: the bin is empty. */
    method PlaceInEmpty(i: nat, x: int, s: nat)
      requires Valid() && x > 0 && x !in size && MIN_LARGE_SIZE <= s < TREE_INDEX_LIMIT
      requires i == ComputeTreeIndex(s) && !treemap[i]
      modifies this`treemap, this`root, this`node, this`link
      ensures treemap == old(treemap)[i := true] && root == old(root)[i := x]
      ensures Placed(old(node), old(link), size, root[i], tries[i], i, x, s, node, link)
    {
      assert BinOk(node, link, size, root[i], tries[i], i);
      EmptyInsert(node, link, size, root[i], tries[i], i, x, s);
      BinMap.MarkIs(treemap, i);
      treemap := BinMap.Mark(treemap, i);
      root := root[i := x];
      node := node[x := TreeNode(0, 0, BinPointer(i), i)];
      link := link[x := Link(x, x)];
    }

    /** The search loop of `insert_large_chunk` on a bin that is not empty. */
    method PlaceInTrie(i: nat, x: int, s: nat)
      requires Valid() && x > 0 && x !in size && MIN_LARGE_SIZE <= s < TREE_INDEX_LIMIT
      requires i == ComputeTreeIndex(s) && treemap[i]
      modifies this`node, this`link
      ensures treemap == old(treemap)[i := true]
      ensures Placed(old(node), old(link), size, root[i], tries[i], i, x, s, node, link)
    {
      var t, k := root[i], FirstKey(s, i);
      ghost var pos := Position([], BinLo(i), BinWidth(i));
      assert BinOk(node, link, size, root[i], tries[i], i);
      WalkStart(node, link, size, root[i], tries[i], i, s, x);
      var placed := false;
      while !placed
        invariant placed ==> Placed(old(node), old(link), size, root[i], tries[i], i, x, s, node, link)
        invariant !placed ==> node == old(node) && link == old(link) && OnPath(node, link, size, root[i], tries[i], i, x, s, pos, t, k)
        decreases !placed, pos.w
      {
        if size[t] != s {
          var right := TopBit(k);
          if ChildPointer(node[t], right) != 0 {
            WalkDown(node, link, size, root[i], tries[i], i, x, s, pos, t, k);
            t := ChildPointer(node[t], right);
            pos := Descend(pos, right);
          } else {
            WalkLeaf(node, link, size, root[i], tries[i], i, x, s, pos, t, k);
            node := node[x := TreeNode(0, 0, t, i)][t := SetChild(node[t], right, x)];
            link := link[x := Link(x, x)];
            placed := true;
          }
          k := NextKey(k);
        } else {
          WalkEnd(node, link, size, root[i], tries[i], i, x, s, pos, t, k);
          link := InsertAfter(link, t, x);
          node := node[x := TreeNode(0, 0, 0, i)];
          placed := true;
        }
      }
    }

    /** `unlink_large_chunk`: take chunk `x` out of its bin. */
    method Unlink(x: int)
      requires Valid() && x in size
      modifies this
      ensures Valid() && size == old(size) - {x}
    {
      ghost var i0 := ComputeTreeIndex(size[x]);
      ghost var t := tries[i0];
      assert BinOk(node, link, size, root[i0], t, i0);
      SubFacts(node, link, size, root[i0], t, i0, x);
      var xp, i := node[x].parent, node[x].index;
      if xp == 0 {
        CutChained(node, link, size, root[i], t, i, x);
      }
      var r := TakeReplacement(x, t, i);
      if xp != 0 {
        ReplaceInParent(x, xp, i, r, t, old(node), old(link));
      }
      RemoveConsistent(old(treemap), treemap, old(root), root, old(node), old(link), size, tries, i, x, node, link);
      size := size - {x};
      tries := tries[i := WithoutChunk(t, x)];
    }

    /** Steps 1 and 2 of the unlinking: choose the chunk that takes the place of `x`. */
    method TakeReplacement(x: int, ghost t: Trie, ghost i: nat) returns (r: int)
      requires i < |root| && BinOk(node, link, size, root[i], t, i) && In(t, x)
      modifies this`node, this`link
      ensures Taken(old(node), old(link), size, root[i], t, i, x, r, node, link)
    {
      SubFacts(node, link, size, root[i], t, i, x);
      if link[x].bk != x {
        TakeFromChain(node, link, size, root[i], t, i, x);
        r := link[x].bk;
        link := Remove(link, x);
      } else {
        r := TakeFromBelow(x, t, i);
      }
    }

    /** For the only chunk of its size: the rightmost leaf below, or none. */
    method TakeFromBelow(x: int, ghost t: Trie, ghost i: nat) returns (r: int)
      requires i < |root| && BinOk(node, link, size, root[i], t, i) && In(t, x) && x in link && link[x].bk == x
      modifies this`node
      ensures Taken(old(node), link, size, root[i], t, i, x, r, node, link)
    {
      OnlyOfItsSize(node, link, size, root[i], t, i, x);
      r := 0;
      if node[x].child1 != 0 || node[x].child0 != 0 {
        r := TakeLeaf(x, Sub(t, x), SubParent(node, root[i], t, i, x), SubLo(t, i, x), BinWidth(i) - |PathTo(t, x)|);
      }
    }

    /** Walk to the leaf below `x` and clear the pointer that leads to it. */
    method TakeLeaf(x: int, ghost u: Trie, ghost par: int, ghost lo: nat, ghost w: nat) returns (r: int)
      requires u.Node? && Ordered(u, size, lo, w) && u.chain == [x] && Rep(node, link, x, par, u) && !IsLast(u)
      modifies this`node
      ensures Detached(old(node), link, node, link, par, u, size, lo, w) && r == NewChain(u)[0] && r != 0
    {
      LeafWalkStart(node, link, par, u);
      var owner, side := x, node[x].child1 != 0;
      r := ChildPointer(node[x], side);
      ghost var path: Path := [];
      LeafWalkStep(node, link, x, par, u, path, owner, side, r);
      while node[r].child1 != 0 || node[r].child0 != 0
        invariant node == old(node)
        invariant AtLeafPath(node, x, u, path, owner, side, r) && r in node
        invariant (node[r].child1 != 0 || node[r].child0 != 0) <==> LeafPath(SubAt(u, path + [side])) != []
        decreases |LeafPath(u)| - |path|
      {
        LeafWalkStep(node, link, x, par, u, path, owner, side, r);
        path := path + [side];
        owner, side := r, node[r].child1 != 0;
        r := ChildPointer(node[r], side);
        LeafWalkStep(node, link, x, par, u, path, owner, side, r);
      }
      DetachLeaf(node, link, par, u, size, lo, w, path, owner, side, r);
      node := node[owner := SetChild(node[owner], side, 0)];
    }

    /** Step 3: the parent of `x` and the children of `x` are relinked to the replacement, if any. */
    method ReplaceInParent(x: int, xp: int, i: nat, r: int, ghost t: Trie, ghost node0: Nodes, ghost link0: Links)
      requires i < |root| == NTREEBINS && BinOk(node0, link0, size, root[i], t, i) && In(t, x)
      requires x in node0 && xp == node0[x].parent && 0 !in node0
      requires Sub(t, x).chain != [] && x == Sub(t, x).chain[0] && Taken(node0, link0, size, root[i], t, i, x, r, node, link)
      modifies this`node, this`root, this`treemap
      ensures |root| == NTREEBINS && forall j :: 0 <= j < NTREEBINS && j != i ==> root[j] == old(root[j])
      ensures Removed(node0, link0, size, root[i], t, i, x, node, link)
      ensures treemap == if root[i] == 0 then old(treemap)[i := false] else old(treemap)
    {
      if x == root[i] {
        ReplaceRoot(x, i, r, t, node0, link0);
      } else {
        RootPresent(node0, link0, root[i], t, i, x);
        ReplaceChild(x, xp, i, r, t, node0, link0);
      }
    }

    method ReplaceRoot(x: int, i: nat, r: int, ghost t: Trie, ghost node0: Nodes, ghost link0: Links)
      requires i < |root| == NTREEBINS && BinOk(node0, link0, size, root[i], t, i) && In(t, x) && 0 !in node0
      requires Sub(t, x).chain != [] && x == Sub(t, x).chain[0] && x == root[i]
      requires Taken(node0, link0, size, root[i], t, i, x, r, node, link)
      modifies this`node, this`root, this`treemap
      ensures root == old(root)[i := r] && treemap == if r == 0 then old(treemap)[i := false] else old(treemap)
      ensures Removed(node0, link0, size, root[i], t, i, x, node, link)
    {
      RootRelinked(node0, link0, size, t, i, x, r, node, link);
      root := root[i := r];
      if r == 0 {
        BinMap.MarkIs(treemap, i);
        treemap := BinMap.Clear(treemap, i);
      } else {
        node := Adopt(node, x, r);
      }
    }

    method ReplaceChild(x: int, xp: int, i: nat, r: int, ghost t: Trie, ghost node0: Nodes, ghost link0: Links)
      requires i < |root| && BinOk(node0, link0, size, root[i], t, i) && In(t, x) && x in node0 && xp == node0[x].parent && 0 !in node0
      requires Sub(t, x).chain != [] && x == Sub(t, x).chain[0] && x != root[i]
      requires Taken(node0, link0, size, root[i], t, i, x, r, node, link)
      modifies this`node
      ensures Removed(node0, link0, size, root[i], t, i, x, node, link)
    {
      ChildRelinked(node0, link0, size, root[i], t, i, x, r, node, link);
      if node[xp].child0 == x {
        node := node[xp := node[xp].(child0 := r)];
      } else {
        node := node[xp := node[xp].(child1 := r)];
      }
      if r != 0 {
        node := Adopt(node, x, r);
      }
    }

    // Best fit

    /** `leftmost_child(t)`. */
    function LeftmostChild(t: int): int
      reads this
      requires t in node
    {
      if node[t].child0 != 0 then node[t].child0 else node[t].child1
    }

    /** Pointer `t` is the root of subtree `c.u`. */
    ghost predicate Reached(t: int, c: Cursor)
      reads this
    {
      && Rep(node, link, t, c.par, c.u) && Ordered(c.u, size, c.lo, c.w)
      && forall q :: In(c.u, q) ==> q in size && q in node && q != 0
    }

    lemma {:induction false} ReachedChild(t: int, c: Cursor, b: bool)
      requires Reached(t, c) && c.u.Node?
      ensures t in node && t in size && t != 0 && t == c.u.chain[0] && size[t] == c.u.size && In(c.u, t)
      ensures ChildPointer(node[t], b) == 0 <==> Child(c.u, b).Nil?
      ensures Reached(ChildPointer(node[t], b), Below(t, c, b))
      ensures c.w == 0 ==> Child(c.u, b).Nil?
      ensures forall q :: In(Child(c.u, b), q) ==> In(c.u, q)
    {
      assert t == c.u.chain[0] && t in c.u.chain && In(c.u, t);
      EmptyChild(node, link, t, c.par, c.u, b);
      var p, u := ChildPointer(node[t], b), Child(c.u, b);
      assert Rep(node, link, p, t, u);
      if c.w > 0 { assert Ordered(u, size, ChildLo(c.lo, c.w, b), c.w - 1); }
      assert forall q :: In(u, q) ==> In(c.u, q);
    }

    /** The two children are different nodes. */
    lemma {:induction false} ReachedSides(t: int, c: Cursor)
      requires Reached(t, c) && c.u.Node?
      ensures t in node && (node[t].child1 != 0 ==> node[t].child1 != node[t].child0)
    {
      ReachedChild(t, c, false);
      ReachedChild(t, c, true);
      if c.u.left.Node? && c.u.right.Node? {
        ReachedChild(node[t].child0, Below(t, c, false), true);
        ReachedChild(node[t].child1, Below(t, c, true), true);
        Halves(c.u, size, c.lo, c.w, node[t].child0);
        Halves(c.u, size, c.lo, c.w, node[t].child1);
      }
    }

    /** The descent of `tmalloc_large` stands at node `t`; `rst` is the deepest right subtree not taken. */
    ghost predicate Underway(bin: Trie, nb: nat, v: int, rsize: nat, t: int, c: Cursor, rst: int, rt: Cursor, k: nat)
      reads this
    {
      && 0 < nb < WORD64 && (forall p :: p in size ==> size[p] < TREE_INDEX_LIMIT)
      && Candidate(size, nb, v, rsize) && rsize > 0 && (v != 0 ==> In(bin, v))
      && Reached(t, c) && c.u.Node? && Reached(rst, rt)
      && (nb < TREE_INDEX_LIMIT ==> Descending(size, nb, bin, v, c.u, rt.u, c.lo, c.w, k))
      && (forall q :: In(c.u, q) || In(rt.u, q) ==> In(bin, q))
    }

    /** The descent is over: the candidate `v` and the subtree at `t` account for the whole bin. */
    ghost predicate Descended(bin: Trie, nb: nat, v: int, rsize: nat, t: int, c: Cursor)
      reads this
    {
      && Candidate(size, nb, v, rsize) && Reached(t, c) && Safe(size, nb, v, c.u)
      && Accounted(size, nb, bin, v, c.u)
      && (v != 0 ==> In(bin, v))
      && (forall q :: In(c.u, q) ==> In(bin, q))
    }

    lemma {:induction false} SearchStart(idx: nat, nb: nat)
      requires Valid() && MIN_LARGE_SIZE <= nb < WORD64 && idx == ComputeTreeIndex(nb) && root[idx] != 0
      ensures Underway(tries[idx], nb, 0, WORD64 - nb, root[idx], Cursor(tries[idx], BinPointer(idx), BinLo(idx), BinWidth(idx)),
                       0, Cursor(Nil, 1, 0, 0), FirstKey(nb, idx))
    {
      assert BinOk(node, link, size, root[idx], tries[idx], idx);
      if nb < TREE_INDEX_LIMIT { TreeIndexBracket(nb); KeyStart(nb, idx); }
    }

    lemma {:induction false} SearchLook(bin: Trie, nb: nat, v: int, rsize: nat, t: int, c: Cursor, rst: int, rt: Cursor, k: nat)
      requires Underway(bin, nb, v, rsize, t, c, rst, rt, k)
      ensures t in node && t in size && size[t] < WORD64
      ensures Sub64(size[t], nb) == 0 ==> Descended(bin, nb, t, 0, t, c)
    {
      ReachedChild(t, c, true);
      if Sub64(size[t], nb) == 0 { ExactFit(size, nb, bin, t, c.u); }
    }

    /** The right child is set aside when the descent goes left and there is one. */
    lemma {:induction false} SetAside(t: int, c: Cursor, rst: int, rt: Cursor, b: bool)
      requires Reached(t, c) && c.u.Node? && Reached(rst, rt)
      ensures t in node
      ensures var aside := node[t].child1 != 0 && node[t].child1 != ChildPointer(node[t], b);
        && Reached(if aside then node[t].child1 else rst, if aside then Below(t, c, true) else rt)
        && (if aside then Below(t, c, true) else rt).u == (if !b && c.u.right.Node? then c.u.right else rt.u)
    {
      ReachedChild(t, c, true);
      ReachedSides(t, c);
    }

    /** The candidate and the subtrees after one level, at a node that is not an exact fit. */
    lemma {:induction false} SearchNext(bin: Trie, nb: nat, v: int, rsize: nat, t: int, c: Cursor, rst: int, rt: Cursor, k: nat, v': int, rsize': nat)
      requires Underway(bin, nb, v, rsize, t, c, rst, rt, k) && t in size && Sub64(size[t], nb) != 0
      requires v' == (if Sub64(size[t], nb) < rsize then t else v)
      requires rsize' == if Sub64(size[t], nb) < rsize then Sub64(size[t], nb) else rsize
      ensures Candidate(size, nb, v', rsize') && rsize' > 0 && (v' != 0 ==> In(bin, v'))
      ensures nb < TREE_INDEX_LIMIT ==>
        && c.w > 0
        && Descending(size, nb, bin, v', Child(c.u, TopBit(k)), if !TopBit(k) && c.u.right.Node? then c.u.right else rt.u,
                      ChildLo(c.lo, c.w, TopBit(k)), c.w - 1, NextKey(k))
    {
      ReachedChild(t, c, true);
      Consider(size, nb, v, rsize, t);
      if nb < TREE_INDEX_LIMIT { Descent(size, nb, bin, v, v', c.u, rt.u, c.lo, c.w, k); }
    }

    /** One level of the descent where it goes on, to `t'`; `rst'` is now set aside. */
    lemma {:induction false} SearchOn(bin: Trie, nb: nat, v: int, rsize: nat, t: int, c: Cursor, rst: int, rt: Cursor, k: nat,
                                      v': int, rsize': nat, t': int, rst': int, rt': Cursor)
      requires Underway(bin, nb, v, rsize, t, c, rst, rt, k) && t in node
      requires Candidate(size, nb, v', rsize') && rsize' > 0 && (v' != 0 ==> In(bin, v'))
      requires nb < TREE_INDEX_LIMIT ==>
        && c.w > 0 && Descending(size, nb, bin, v', Child(c.u, TopBit(k)), rt'.u, ChildLo(c.lo, c.w, TopBit(k)), c.w - 1, NextKey(k))
      requires Reached(rst', rt') && rt'.u == if !TopBit(k) && c.u.right.Node? then c.u.right else rt.u
      requires t' == ChildPointer(node[t], TopBit(k)) && t' != 0
      ensures Underway(bin, nb, v', rsize', t', Below(t, c, TopBit(k)), rst', rt', NextKey(k))
    {
      ReachedChild(t, c, TopBit(k));
      ReachedChild(t, c, true);
    }

    /** One level of the descent where there is no child to go on to. */
    lemma {:induction false} SearchEnd(bin: Trie, nb: nat, v: int, rsize: nat, t: int, c: Cursor, rst: int, rt: Cursor, k: nat,
                                       v': int, rsize': nat, rst': int, rt': Cursor)
      requires Underway(bin, nb, v, rsize, t, c, rst, rt, k) && t in node
      requires Candidate(size, nb, v', rsize') && (v' != 0 ==> In(bin, v'))
      requires nb < TREE_INDEX_LIMIT ==>
        && c.w > 0 && Descending(size, nb, bin, v', Child(c.u, TopBit(k)), rt'.u, ChildLo(c.lo, c.w, TopBit(k)), c.w - 1, NextKey(k))
      requires Reached(rst', rt') && rt'.u == if !TopBit(k) && c.u.right.Node? then c.u.right else rt.u
      requires ChildPointer(node[t], TopBit(k)) == 0
      ensures Descended(bin, nb, v', rsize', rst', rt')
    {
      ReachedChild(t, c, TopBit(k));
      ReachedChild(t, c, true);
      DescentEnds(size, nb, bin, v', rt'.u, if c.w > 0 then ChildLo(c.lo, c.w, TopBit(k)) else 0, if c.w > 0 then c.w - 1 else 0);
    }

    /** One level of the descent, at a node that is not an exact fit. */
    lemma {:induction false} SearchStep(bin: Trie, nb: nat, v: int, rsize: nat, t: int, c: Cursor, rst: int, rt: Cursor, k: nat,
                                        v': int, rsize': nat, t': int, rst': int, rt': Cursor)
      requires Underway(bin, nb, v, rsize, t, c, rst, rt, k) && t in size && t in node && Sub64(size[t], nb) != 0
      requires v' == (if Sub64(size[t], nb) < rsize then t else v)
      requires rsize' == if Sub64(size[t], nb) < rsize then Sub64(size[t], nb) else rsize
      requires t' == ChildPointer(node[t], TopBit(k))
      requires var c1 := node[t].child1;
        && rst' == (if c1 != 0 && c1 != t' then c1 else rst)
        && rt' == if c1 != 0 && c1 != t' then Below(t, c, true) else rt
      ensures t' == 0 ==> Descended(bin, nb, v', rsize', rst', rt')
      ensures t' != 0 ==> Underway(bin, nb, v', rsize', t', Below(t, c, TopBit(k)), rst', rt', NextKey(k))
    {
      SetAside(t, c, rst, rt, TopBit(k));
      SearchNext(bin, nb, v, rsize, t, c, rst, rt, k, v', rsize');
      if t' == 0 {
        SearchEnd(bin, nb, v, rsize, t, c, rst, rt, k, v', rsize', rst', rt');
      } else {
        SearchOn(bin, nb, v, rsize, t, c, rst, rt, k, v', rsize', t', rst', rt');
      }
    }

    /** The descent of `tmalloc_large` through the bin of `nb`, which is not empty. */
    method DescendBin(idx: nat, nb: nat) returns (t: int, v: int, rsize: nat, ghost c: Cursor)
      requires Valid() && MIN_LARGE_SIZE <= nb < WORD64 && idx == ComputeTreeIndex(nb) && root[idx] != 0
      ensures Descended(tries[idx], nb, v, rsize, t, c)
    {
      ghost var bin := tries[idx];
      SearchStart(idx, nb);
      v, rsize, t := 0, WORD64 - nb, root[idx];
      c := Cursor(bin, BinPointer(idx), BinLo(idx), BinWidth(idx));
      var k, rst := FirstKey(nb, idx), 0;
      ghost var rt := Cursor(Nil, 1, 0, 0);
      while true
        invariant Underway(bin, nb, v, rsize, t, c, rst, rt, k)
        decreases c.u
      {
        SearchLook(bin, nb, v, rsize, t, c, rst, rt, k);
        var trem := Sub64(size[t], nb);
        ghost var v1, rsize1, t1 := v, rsize, t;
        if trem < rsize {
          v, rsize := t, trem;
          if rsize == 0 {
            return;
          }
        }
        ghost var rst1, rt1 := rst, rt;
        var c1 := node[t].child1;
        t := ChildPointer(node[t], TopBit(k));
        if c1 != 0 && c1 != t {
          rst, rt := c1, Below(t1, c, true);
        }
        SearchStep(bin, nb, v1, rsize1, t1, c, rst1, rt1, k, v, rsize, t, rst, rt);
        if t == 0 {
          t, c := rst, rt;
          return;
        }
        c := Below(t1, c, TopBit(k));
        k := NextKey(k);
      }
    }

    /** The bin where chunk `p` is, or the fact that no chunk of its bin or before fits. */
    lemma {:induction false} BinOf(p: int)
      requires Valid() && p in size
      ensures var j := ComputeTreeIndex(size[p]);
        && In(tries[j], p) && tries[j].Node? && treemap[j] && root[j] != 0 && MIN_LARGE_SIZE <= size[p] < TREE_INDEX_LIMIT
    {
      var j := ComputeTreeIndex(size[p]);
      assert BinOk(node, link, size, root[j], tries[j], j);
      RootPresent(node, link, root[j], tries[j], j, p);
    }

    lemma {:induction false} InBin(i: nat, q: int)
      requires Valid() && i < NTREEBINS && In(tries[i], q)
      ensures q in size && ComputeTreeIndex(size[q]) == i && MIN_LARGE_SIZE <= size[q] < TREE_INDEX_LIMIT
    {
      assert BinOk(node, link, size, root[i], tries[i], i);
    }

    /** The descent found something in the bin of `nb`: later bins hold nothing smaller. */
    lemma {:induction false} OwnBinEnough(idx: nat, nb: nat, v: int, u: Trie)
      requires Valid() && MIN_LARGE_SIZE <= nb < WORD64 && idx == ComputeTreeIndex(nb)
      requires Accounted(size, nb, tries[idx], v, u) && (v != 0 ==> In(tries[idx], v)) && forall q :: In(u, q) ==> In(tries[idx], q)
      requires v != 0 || u.Node?
      ensures forall p :: p in size && size[p] >= nb ==> Best(size, v, p) || BelowTrie(size, u, p)
    {
      forall p | p in size && size[p] >= nb
        ensures Best(size, v, p) || BelowTrie(size, u, p)
      {
        BinOf(p);
        OtherBinFit(size, nb, p);
        if ComputeTreeIndex(size[p]) > idx {
          if v != 0 {
            InBin(idx, v);
            LaterBin(size, idx, v, p);
          } else {
            forall q | In(u, q) ensures q in size && size[q] <= size[p] {
              InBin(idx, q);
              LaterBin(size, idx, q, p);
            }
          }
        }
      }
    }

    /** Nothing fits in the bin of `nb`: the next non-empty bin, if any, holds the least fitting chunks. */
    lemma {:induction false} NextBinBest(idx: nat, nb: nat, u: Trie, i: nat)
      requires Valid() && MIN_LARGE_SIZE <= nb < WORD64 && idx == ComputeTreeIndex(nb)
      requires Accounted(size, nb, tries[idx], 0, Nil)
      requires if u.Node? then idx < i < NTREEBINS && u == tries[i] && forall j :: idx < j < i ==> !treemap[j]
               else forall j :: idx < j < NTREEBINS ==> !treemap[j]
      ensures Safe(size, nb, 0, u)
      ensures forall p :: p in size && size[p] >= nb ==> BelowTrie(size, u, p)
    {
      forall p | p in size && size[p] >= nb
        ensures nb < TREE_INDEX_LIMIT && BelowTrie(size, u, p)
      {
        BinOf(p);
        OtherBinFit(size, nb, p);
        var j := ComputeTreeIndex(size[p]);
        if j > i {
          forall q | In(u, q) ensures q in size && size[q] <= size[p] {
            InBin(i, q);
            LaterBin(size, i, q, p);
          }
        }
      }
      if nb < TREE_INDEX_LIMIT && u.Node? {
        forall q | In(u, q) ensures q in size && size[q] >= nb {
          InBin(i, q);
          OtherBinFit(size, nb, q);
        }
      } else if u.Node? {
        forall p | p in size ensures size[p] < nb { BinOf(p); }
      }
    }

    /** The search of `tmalloc_large`: a chunk of the least size that is at least `nb`, if any. */
    method FindLarge(nb: nat) returns (v: int, rsize: nat)
      requires Valid() && MIN_LARGE_SIZE <= nb < WORD64
      ensures Candidate(size, nb, v, rsize)
      ensures forall p :: p in size && size[p] >= nb ==> Best(size, v, p)
    {
      var idx, t := ComputeTreeIndex(nb), 0;
      ghost var c;
      t, v, rsize, c := OwnBin(idx, nb);
      if t == 0 && v == 0 {
        t, c := NextBin(idx, nb);
      } else {
        OwnBinEnough(idx, nb, v, c.u);
      }
      v, rsize := Leftmost(t, nb, v, rsize, c);
    }

    /** The descent through the bin of `nb`, if there is anything in it. */
    method OwnBin(idx: nat, nb: nat) returns (t: int, v: int, rsize: nat, ghost c: Cursor)
      requires Valid() && MIN_LARGE_SIZE <= nb < WORD64 && idx == ComputeTreeIndex(nb)
      ensures Descended(tries[idx], nb, v, rsize, t, c)
    {
      t, v, rsize, c := 0, 0, WORD64 - nb, Cursor(Nil, 1, 0, 0);
      if root[idx] != 0 {
        t, v, rsize, c := DescendBin(idx, nb);
      } else {
        assert BinOk(node, link, size, root[idx], tries[idx], idx);
      }
    }

    /** The root of the next non-empty tree bin after `idx`, or 0. */
    method NextBin(idx: nat, nb: nat) returns (t: int, ghost c: Cursor)
      requires Valid() && MIN_LARGE_SIZE <= nb < WORD64 && idx == ComputeTreeIndex(nb)
      requires Accounted(size, nb, tries[idx], 0, Nil)
      ensures Reached(t, c) && Safe(size, nb, 0, c.u)
      ensures forall p :: p in size && size[p] >= nb ==> BelowTrie(size, c.u, p)
    {
      var leftbits := BinMap.And(BinMap.LeftBits(BinMap.IdxToBit(idx)), treemap);
      forall j | 0 <= j < NTREEBINS ensures leftbits[j] <==> idx < j && treemap[j] { BinMap.AboveIs(treemap, idx, j); }
      if leftbits != BinMap.ZERO {
        var i := BinMap.FirstMarked(leftbits);
        t := root[i];
        c := Cursor(tries[i], BinPointer(i), BinLo(i), BinWidth(i));
        assert BinOk(node, link, size, root[i], tries[i], i);
        NextBinBest(idx, nb, tries[i], i);
      } else {
        BinMap.NonZeroIs(leftbits);
        t, c := 0, Cursor(Nil, 1, 0, 0);
        NextBinBest(idx, nb, Nil, 0);
      }
    }

    /** The search of `tmalloc_small`: a smallest chunk of all tree bins. */
    method FindSmall(nb: nat) returns (v: int, rsize: nat)
      requires Valid() && 0 < nb < MIN_LARGE_SIZE && treemap != BinMap.ZERO
      ensures v in size && size[v] >= nb && rsize == size[v] - nb
      ensures forall p :: p in size ==> size[v] <= size[p]
    {
      var i := BinMap.FirstMarked(treemap);
      var t := root[i];
      assert BinOk(node, link, size, root[i], tries[i], i);
      ghost var c := Cursor(tries[i], BinPointer(i), BinLo(i), BinWidth(i));
      SmallestBin(i, nb);
      ReachedChild(t, c, true);
      v, rsize := Leftmost(t, nb, 0, WORD64 - nb, c);
      InBin(i, t);
      assert Best(size, v, t);
    }

    /** A small request fits every tree chunk, and the first non-empty bin holds the smallest. */
    lemma {:induction false} SmallestBin(i: nat, nb: nat)
      requires Valid() && 0 < nb < MIN_LARGE_SIZE && i < NTREEBINS && treemap[i] && forall j :: 0 <= j < i ==> !treemap[j]
      ensures Safe(size, nb, 0, tries[i])
      ensures forall p :: p in size ==> size[p] >= nb && BelowTrie(size, tries[i], p)
    {
      forall q | In(tries[i], q) ensures q in size && size[q] >= nb { InBin(i, q); }
      forall p | p in size
        ensures size[p] >= nb && BelowTrie(size, tries[i], p)
      {
        BinOf(p);
        if ComputeTreeIndex(size[p]) > i {
          forall q | In(tries[i], q) ensures q in size && size[q] <= size[p] {
            InBin(i, q);
            LaterBin(size, i, q, p);
          }
        }
      }
    }

    /** The loop that finds the smallest chunk of a tree or subtree. */
    method Leftmost(start: int, nb: nat, v0: int, rsize0: nat, ghost c0: Cursor) returns (v: int, rsize: nat)
      requires Valid() && 0 < nb < WORD64 && Candidate(size, nb, v0, rsize0) && Reached(start, c0)
      requires Safe(size, nb, v0, c0.u)
      ensures Candidate(size, nb, v, rsize) && Narrowed(size, nb, v0, c0.u, v, Nil)
    {
      v, rsize := v0, rsize0;
      var t := start;
      ghost var c := c0;
      while t != 0
        invariant Candidate(size, nb, v, rsize) && Reached(t, c)
        invariant Safe(size, nb, v, c.u)
        invariant Narrowed(size, nb, v0, c0.u, v, c.u)
        decreases c.u
      {
        ReachedChild(t, c, false);
        ReachedChild(t, c, true);
        var trem := Sub64(size[t], nb);
        Consider(size, nb, v, rsize, t);
        NarrowStep(size, nb, v0, c0.u, v, if trem < rsize then t else v, c.u, c.lo, c.w);
        if trem < rsize {
          rsize, v := trem, t;
        }
        c := Below(t, c, c.u.left.Nil?);
        t := LeftmostChild(t);
      }
    }
  }
}

/** Why the pointer updates of `unlink_large_chunk` remove one chunk from its trie and nothing else. */
module TreeUnlink {
  import opened BinIndex
  import opened Ring
  import opened TreeBin
  import opened TreeKey
  import opened Trie
  import opened TrieMemory
  import opened TrieUpdate
  import opened Words

  /** Memory after the removal of `x`: its bin holds the rest, no other bin is concerned. */
  ghost predicate Removed(node: Nodes, link: Links, size: Sizes, p: int, t: Trie, i: nat, x: int, node': Nodes, link': Links)
  {
    && In(t, x)
    && BinOk(node', link', size - {x}, p, WithoutChunk(t, x), i)
    && (forall q :: q in node && !In(t, q) ==> q in node' && node'[q] == node[q])
    && (forall q :: q in link && !In(t, q) ==> q in link' && link'[q] == link[q])
    && (forall q :: q in node' ==> q in node)
  }

  /** The way from the root to the node whose chain holds `x`. */
  function PathTo(t: Trie, x: int): Path
    requires In(t, x)
    decreases t
  {
    if x in t.chain then []
    else if In(t.left, x) then [false] + PathTo(t.left, x)
    else [true] + PathTo(t.right, x)
  }

  lemma {:induction false} PathToIs(t: Trie, x: int)
    requires In(t, x)
    ensures HasPath(t, PathTo(t, x)) && SubAt(t, PathTo(t, x)).Node? && x in SubAt(t, PathTo(t, x)).chain
    ensures WithoutChunk(t, x) == Plug(t, PathTo(t, x), UnlinkHere(SubAt(t, PathTo(t, x)), x))
    decreases t
  {
    if x !in t.chain {
      if In(t.left, x) { PathToIs(t.left, x); } else { PathToIs(t.right, x); }
    }
  }

  lemma {:induction false} RemovedOrder(t: Trie, size: Sizes, i: nat, x: int)
    requires Ordered(t, size, BinLo(i), BinWidth(i)) && In(t, x) && forall q :: In(t, q) ==> q in size
    ensures Ordered(WithoutChunk(t, x), size - {x}, BinLo(i), BinWidth(i))
    ensures forall q :: In(WithoutChunk(t, x), q) <==> In(t, q) && q != x
  {
    UnlinkStores(t, size, BinLo(i), BinWidth(i), x);
    OrderedFrame(WithoutChunk(t, x), size, size - {x}, BinLo(i), BinWidth(i));
  }

  /** The chunks left keep their bin, and chunks of other bins are untouched. */
  lemma {:induction false} RemovedRest(node: Nodes, link: Links, size: Sizes, node': Nodes, link': Links, p: int, p': int, t: Trie, i: nat, path: Path, x: int)
    requires BinOk(node, link, size, p, t, i) && HasPath(t, path) && SubAt(t, path).Node? && x in node
    requires LocalChange(node, link, node', link', t, path, x) && In(t, x) && x in node' && node'[x].index == node[x].index
    requires forall q :: In(SubAt(t, path), q) ==> In(t, q)
    requires Rep(node', link', p', BinPointer(i), WithoutChunk(t, x))
    ensures Removed(node, link, size, p', t, i, x, node', link')
  {
    RemovedOrder(t, size, i, x);
    forall q | In(WithoutChunk(t, x), q)
      ensures q in size - {x} && ComputeTreeIndex((size - {x})[q]) == i && q in node' && node'[q].index == i
    {
      assert In(t, q) && q in node && node[q].index == i;
    }
  }

  /** The subtree that held `x` is replaced where it stood. */
  lemma {:induction false} UnlinkedBin(node: Nodes, link: Links, size: Sizes, node': Nodes, link': Links, p: int, t: Trie, i: nat, path: Path, x: int, u: Trie)
    requires BinOk(node, link, size, p, t, i) && HasPath(t, path) && SubAt(t, path).Node? && In(SubAt(t, path), x)
    requires Rep(node', link', PointerAt(node, p, path), ParentAt(node, p, BinPointer(i), path), u)
    requires LocalChange(node, link, node', link', t, path, x) && x in node && x in node' && node'[x].index == node[x].index
    requires In(t, x) && Plug(t, path, u) == WithoutChunk(t, x)
    ensures Removed(node, link, size, p, t, i, x, node', link')
  {
    OrderedAt(t, size, BinLo(i), BinWidth(i), path);
    LocalRep(node, link, size, node', link', p, t, i, path, x, u);
    RemovedRest(node, link, size, node', link', p, p, t, i, path, x);
  }

  /** The same at the root, where the bin itself gets the new pointer. */
  lemma {:induction false} UnlinkedRoot(node: Nodes, link: Links, size: Sizes, node': Nodes, link': Links, p: int, p': int, t: Trie, i: nat, x: int, u: Trie)
    requires BinOk(node, link, size, p, t, i) && In(t, x) && u == WithoutChunk(t, x)
    requires Rep(node', link', p', BinPointer(i), u)
    requires LocalChange(node, link, node', link', t, [], x) && x in node && x in node' && node'[x].index == node[x].index
    ensures Removed(node, link, size, p', t, i, x, node', link')
  {
    RemovedRest(node, link, size, node', link', p, p', t, i, [], x);
  }

  /** The parent of `x` gets the replacement `r` as the child that `x` was. */
  lemma {:induction false} ChildReplaced(node: Nodes, link: Links, node': Nodes, link': Links, par: int, t: Trie, sz: Sizes, lo: nat, w: nat,
                                        b: bool, r: int, u: Trie)
    requires t.Node? && Ordered(t, sz, lo, w) && Rep(node, link, t.chain[0], par, t)
    requires Rep(node', link', r, t.chain[0], u)
    requires t.chain[0] in node && t.chain[0] in node' && node'[t.chain[0]] == SetChild(node[t.chain[0]], b, r)
    requires forall q :: In(t, q) && !In(Child(t, b), q) && q != t.chain[0] && q in node ==> q in node' && node'[q] == node[q]
    requires forall q :: In(t, q) && !In(Child(t, b), q) && q in link ==> q in link' && link'[q] == link[q]
    ensures Rep(node', link', t.chain[0], par, WithChild(t, b, u))
  {
    var p, d := t.chain[0], Child(t, !b);
    forall q | q in t.chain ensures In(t, q) && !In(Child(t, b), q) && !In(d, q) {
      Halves(t, sz, lo, w, q);
    }
    forall q | In(d, q) ensures In(t, q) && !In(Child(t, b), q) && q != p {
      Halves(t, sz, lo, w, q);
    }
    RingFrame(link, link', t.chain, set q | q in t.chain);
    RepFrame(node, link, node', link', ChildPointer(node[p], !b), p, d);
  }

  // The chunk that takes the place of a chain head

  predicate IsLast(u: Trie)
    requires u.Node?
  {
    |u.chain| <= 1 && u.left.Nil? && u.right.Nil?
  }

  /** There is a chunk to take the place of the first. */
  predicate Replaceable(u: Trie) { u.Node? && u.chain != [] && !IsLast(u) && NewChain(u) != [] }

  /** The subtree once the replacement has been taken out of it. */
  function Rest(u: Trie): Trie
    requires u.Node?
  {
    if |u.chain| > 1 then u else DropLeaf(u)
  }

  /** The chain that takes over. */
  function NewChain(u: Trie): (c: seq<int>)
    requires u.Node? && u.chain != [] && !IsLast(u)
  {
    if |u.chain| > 1 then ChainRemove(u.chain, u.chain[0]) else Leaf(u).chain
  }

  lemma {:induction false} UnlinkHead(u: Trie)
    requires u.Node? && u.chain != [] && !IsLast(u)
    ensures UnlinkHere(u, u.chain[0]) == Node(NewChain(u), if |u.chain| > 1 then u.size else Leaf(u).size, Rest(u).left, Rest(u).right)
  {
  }

  /** The replacement `NewChain(u)` has been taken out: its head is childless and off the tree. */
  ghost predicate Detached(node: Nodes, link: Links, node': Nodes, link': Links, par: int, u: Trie, sz: Sizes, lo: nat, w: nat)
  {
    && u.Node? && u.chain != [] && !IsLast(u)
    && Rest(u).Node? && Ordered(Rest(u), sz, lo, w)
    && Rep(node', link, u.chain[0], par, Rest(u))
    && NewChain(u) != [] && ChainRep(node', link', NewChain(u))
    && node'[NewChain(u)[0]].child0 == 0 && node'[NewChain(u)[0]].child1 == 0
    && u.chain[0] !in NewChain(u)
    && (forall q :: q in NewChain(u) ==> In(u, q) && !In(Rest(u).left, q) && !In(Rest(u).right, q))
    && (forall q :: In(Rest(u), q) ==> In(u, q))
    && (forall q :: (In(Rest(u).left, q) || In(Rest(u).right, q)) && q in link ==> q in link' && link'[q] == link[q])
    && (forall q :: q in node && !In(u, q) ==> q in node' && node'[q] == node[q])
    && (forall q :: q in link && !In(u, q) ==> q in link' && link'[q] == link[q])
    && (forall q :: q in node ==> q in node' && node'[q].index == node[q].index)
    && node'.Keys == node.Keys
  }

  ghost function Detaching(node: Nodes, link: Links, node': Nodes, link': Links, par: int, sz: Sizes, lo: nat, w: nat): Trie -> bool {
    (u: Trie) => Detached(node, link, node', link', par, u, sz, lo, w)
  }

  lemma {:induction false} DetachFromChain(node: Nodes, link: Links, par: int, u: Trie, sz: Sizes, lo: nat, w: nat)
    requires u.Node? && Ordered(u, sz, lo, w) && Rep(node, link, u.chain[0], par, u) && |u.chain| > 1
    ensures u.chain[0] in link && link[u.chain[0]].fd in link && link[u.chain[0]].bk in link
    ensures link[u.chain[0]].bk == NewChain(u)[0]
    ensures Detached(node, link, node, Remove(link, u.chain[0]), par, u, sz, lo, w)
  {
    var c := u.chain;
    HeadUnlinkRing(link, c);
    ChainRemoveMembers(c, c[0]);
    forall q | q in c ensures In(u, q) && !In(u.left, q) && !In(u.right, q) {
      Halves(u, sz, lo, w, q);
    }
    assert c[|c| - 1] in c && c[|c| - 1] != c[0];
  }

  /** Where the walk to the leaf has come: `r`, reached from child `side` of `owner`. */
  ghost predicate AtLeafPath(node: Nodes, x: int, u: Trie, path: Path, owner: int, side: bool, r: int)
  {
    && u.Node? && HasPath(u, path) && SubAt(u, path).Node? && !(|u.chain| > 1)
    && HasPath(u, path + [side]) && SubAt(u, path + [side]).Node?
    && owner == PointerAt(node, x, path) && r == PointerAt(node, x, path + [side])
    && LeafPath(u) == path + [side] + LeafPath(SubAt(u, path + [side]))
  }

  lemma {:induction false} LeafWalkStart(node: Nodes, link: Links, par: int, u: Trie)
    requires u.Node? && u.chain != [] && Rep(node, link, u.chain[0], par, u) && |u.chain| == 1
    ensures u.chain[0] in node
    ensures IsLast(u) <==> node[u.chain[0]].child0 == 0 && node[u.chain[0]].child1 == 0
    ensures !IsLast(u) ==>
      var side := node[u.chain[0]].child1 != 0;
      AtLeafPath(node, u.chain[0], u, [], u.chain[0], side, ChildPointer(node[u.chain[0]], side))
  {
    var x := u.chain[0];
    EmptyChild(node, link, x, par, u, true);
    EmptyChild(node, link, x, par, u, false);
    if !IsLast(u) {
      var side := node[x].child1 != 0;
      assert [] + LeafPath(u) == LeafPath(u);
      LeafPathStep(u, [], side);
      PointerExtend(node, link, x, par, u, [], side);
    }
  }

  lemma {:induction false} LeafWalkStep(node: Nodes, link: Links, x: int, par: int, u: Trie, path: Path, owner: int, side: bool, r: int)
    requires Rep(node, link, x, par, u) && AtLeafPath(node, x, u, path, owner, side, r)
    ensures r in node
    ensures (node[r].child1 != 0 || node[r].child0 != 0) <==> LeafPath(SubAt(u, path + [side])) != []
    ensures node[r].child1 != 0 || node[r].child0 != 0 ==>
      AtLeafPath(node, x, u, path + [side], r, node[r].child1 != 0, ChildPointer(node[r], node[r].child1 != 0))
  {
    var path', v := path + [side], SubAt(u, path + [side]);
    RepAt(node, link, x, par, u, path');
    EmptyChild(node, link, r, ParentAt(node, x, par, path'), v, true);
    EmptyChild(node, link, r, ParentAt(node, x, par, path'), v, false);
    if LeafPath(v) != [] {
      LeafPathStep(u, path', v.right.Node?);
      PointerExtend(node, link, x, par, u, path', v.right.Node?);
    }
  }

  /** The leaf's chunks are stored nowhere in what is left. */
  lemma {:induction false} LeafApart(u: Trie, sz: Sizes, lo: nat, w: nat)
    requires u.Node? && Ordered(u, sz, lo, w) && !(|u.chain| > 1) && !IsLast(u)
    ensures Rest(u).Node? && Ordered(Rest(u), sz, lo, w) && Rest(u).chain == u.chain
    ensures NewChain(u) == Leaf(u).chain && NewChain(u) != []
    ensures forall q :: q in NewChain(u) ==> In(u, q) && !In(Rest(u), q)
    ensures forall q :: In(Rest(u), q) ==> In(u, q)
  {
    DropLeafStores(u, sz, lo, w);
    forall q | q in NewChain(u) ensures !In(Rest(u), q) {
      if In(Rest(u), q) { MemberSize(DropLeaf(u), sz, lo, w, q); }
    }
  }

  /** Clearing the pointer to the leaf removes it from the subtree in memory. */
  lemma {:induction false} DropLeafRep(node: Nodes, link: Links, par: int, u: Trie, sz: Sizes, lo: nat, w: nat, path: Path, owner: int, side: bool, r: int)
    requires u.Node? && Ordered(u, sz, lo, w) && Rep(node, link, u.chain[0], par, u)
    requires AtLeafPath(node, u.chain[0], u, path, owner, side, r) && LeafPath(SubAt(u, path + [side])) == []
    ensures owner in node && In(u, owner)
    ensures Rep(node[owner := SetChild(node[owner], side, 0)], link, u.chain[0], par, DropLeaf(u))
  {
    var x, t := u.chain[0], SubAt(u, path);
    var parT := ParentAt(node, x, par, path);
    LeafPathIs(u);
    assert path + [side] + [] == path + [side];
    PathExtend(u, path, side);
    PointerExtend(node, link, x, par, u, path, side);
    RepAt(node, link, x, par, u, path);
    OrderedAt(u, sz, lo, w, path);
    var node' := node[owner := SetChild(node[owner], side, 0)];
    assert In(t, owner);
    ChildReplaced(node, link, node', link, parT, t, sz, RangeLo(lo, w, path), w - |path|, side, 0, Nil);
    RepPlug(node, link, node', link, x, par, u, sz, lo, w, path, WithChild(t, side, Nil));
  }

  lemma {:induction false} LeafRep(node: Nodes, link: Links, par: int, u: Trie, path: Path, owner: int, side: bool, r: int)
    requires u.Node? && u.chain != [] && Rep(node, link, u.chain[0], par, u)
    requires AtLeafPath(node, u.chain[0], u, path, owner, side, r) && LeafPath(SubAt(u, path + [side])) == []
    ensures !IsLast(u) && NewChain(u) != [] && r == NewChain(u)[0]
    ensures ChainRep(node, link, NewChain(u)) && node[r].child0 == 0 && node[r].child1 == 0
  {
    LeafPathIs(u);
    assert path + [side] + [] == path + [side];
    RepAt(node, link, u.chain[0], par, u, path + [side]);
  }

  /** Clearing the pointer to the leaf takes the replacement out of the subtree. */
  lemma {:induction false} DetachLeaf(node: Nodes, link: Links, par: int, u: Trie, sz: Sizes, lo: nat, w: nat, path: Path, owner: int, side: bool, r: int)
    requires u.Node? && Ordered(u, sz, lo, w) && Rep(node, link, u.chain[0], par, u)
    requires AtLeafPath(node, u.chain[0], u, path, owner, side, r) && LeafPath(SubAt(u, path + [side])) == []
    ensures owner in node && !IsLast(u) && NewChain(u) != [] && r == NewChain(u)[0]
    ensures Detached(node, link, node[owner := SetChild(node[owner], side, 0)], link, par, u, sz, lo, w)
  {
    LeafRep(node, link, par, u, path, owner, side, r);
    DropLeafRep(node, link, par, u, sz, lo, w, path, owner, side, r);
    LeafApart(u, sz, lo, w);
    OwnerInRest(node, link, par, u, sz, lo, w, path, owner, side, r);
  }

  lemma {:induction false} OwnerInRest(node: Nodes, link: Links, par: int, u: Trie, sz: Sizes, lo: nat, w: nat, path: Path, owner: int, side: bool, r: int)
    requires u.Node? && Ordered(u, sz, lo, w) && Rep(node, link, u.chain[0], par, u)
    requires AtLeafPath(node, u.chain[0], u, path, owner, side, r) && LeafPath(SubAt(u, path + [side])) == []
    ensures owner !in Leaf(u).chain
  {
    var t := SubAt(u, path);
    LeafPathIs(u);
    assert path + [side] + [] == path + [side];
    PathExtend(u, path, side);
    RepAt(node, link, u.chain[0], par, u, path);
    OrderedAt(u, sz, lo, w, path);
    assert owner in t.chain && In(t, owner);
    Halves(t, sz, RangeLo(lo, w, path), w - |path|, owner);
    assert forall q :: q in Leaf(u).chain ==> In(Child(t, side), q);
  }

  // Relinking the parent

  /** The replacement takes the place of `x`: R->parent = X->parent and X's children move to R. */
  lemma {:induction false} AdoptDetached(node: Nodes, link: Links, node': Nodes, link': Links, par: int, u: Trie, sz: Sizes, lo: nat, w: nat, node2: Nodes)
    requires Detached(node, link, node', link', par, u, sz, lo, w) && 0 !in node2
    requires forall q :: In(u, q) && q in node' ==> q in node2 && node2[q] == node'[q]
    ensures var x, r := u.chain[0], NewChain(u)[0];
      && CanAdopt(node2, x, r)
      && Rep(Adopt(node2, x, r), link', r, par, UnlinkHere(u, x))
      && Adopted(node2, Adopt(node2, x, r), x, r)
      && In(u, r) && (node2[x].child0 != 0 ==> In(u, node2[x].child0)) && (node2[x].child1 != 0 ==> In(u, node2[x].child1))
  {
    var x, v := u.chain[0], Rest(u);
    RepFrame(node', link, node2, link, x, par, v);
    UnlinkHead(u);
    ChildOf(node2, link, x, v);
    AdoptRep(node2, link, link', par, v, sz, lo, w, x, NewChain(u), if |u.chain| > 1 then u.size else Leaf(u).size);
  }

  /** Adopting only touches chunks of the subtree, and never an index. */
  lemma {:induction false} AdoptLocal(node: Nodes, x: int, r: int, u: Trie)
    requires CanAdopt(node, x, r) && In(u, r)
    requires node[x].child0 != 0 ==> In(u, node[x].child0)
    requires node[x].child1 != 0 ==> In(u, node[x].child1)
    ensures Adopt(node, x, r).Keys == node.Keys
    ensures forall q :: q in node && !In(u, q) ==> Adopt(node, x, r)[q] == node[q]
    ensures forall q :: q in node ==> Adopt(node, x, r)[q].index == node[q].index
  {
  }

  lemma {:induction false} RelinkRoot(node: Nodes, link: Links, size: Sizes, t: Trie, i: nat, x: int, node': Nodes, link': Links)
    requires t.Node? && BinOk(node, link, size, x, t, i) && x == t.chain[0] && 0 !in node
    requires Detached(node, link, node', link', BinPointer(i), t, size, BinLo(i), BinWidth(i))
    ensures var r := NewChain(t)[0];
      && CanAdopt(node', x, r)
      && Removed(node, link, size, r, t, i, x, Adopt(node', x, r), link')
  {
    var r := NewChain(t)[0];
    AdoptDetached(node, link, node', link', BinPointer(i), t, size, BinLo(i), BinWidth(i), node');
    AdoptLocal(node', x, r, t);
    assert In(t, x) && x in node;
    UnlinkedRoot(node, link, size, Adopt(node', x, r), link', x, r, t, i, x, UnlinkHere(t, x));
  }

  function ChildLo(lo: nat, w: nat, b: bool): nat
    requires w > 0
  {
    if b then lo + Pow2(w - 1) else lo
  }

  /** Memory once the parent `xp` of `x` points to the replacement and the replacement is linked in. */
  function Relink(node: Nodes, xp: int, b: bool, x: int, r: int): Nodes
    requires xp in node && CanAdopt(node[xp := SetChild(node[xp], b, r)], x, r)
  {
    Adopt(node[xp := SetChild(node[xp], b, r)], x, r)
  }

  lemma {:induction false} RelinkedSub(node: Nodes, link: Links, node': Nodes, link': Links, xp: int, b: bool, u: Trie, sz: Sizes, lo: nat, w: nat)
    requires Replaceable(u) && Detaching(node, link, node', link', xp, sz, lo, w)(u) && 0 !in node && xp in node && !In(u, xp)
    ensures xp in node' && CanAdopt(node'[xp := SetChild(node'[xp], b, NewChain(u)[0])], u.chain[0], NewChain(u)[0])
    ensures var x, r := u.chain[0], NewChain(u)[0];
      var node3 := Relink(node', xp, b, x, r);
      && Rep(node3, link', r, xp, UnlinkHere(u, x))
      && node3.Keys == node.Keys
      && node3[xp] == SetChild(node[xp], b, r)
      && (forall q :: q in node && !In(u, q) && q != xp ==> node3[q] == node[q])
      && (forall q :: q in node ==> node3[q].index == node[q].index)
  {
    var x, r := u.chain[0], NewChain(u)[0];
    var node2 := node'[xp := SetChild(node'[xp], b, r)];
    AdoptDetached(node, link, node', link', xp, u, sz, lo, w, node2);
    AdoptLocal(node2, x, r, u);
  }

  /** The parent node `tp` of `x` after its child pointer and the replacement have been set. */
  lemma {:induction false} RelinkedParent(node: Nodes, link: Links, node': Nodes, link': Links, par: int, tp: Trie, xp: int, x: int, sz: Sizes, lo: nat, w: nat, b: bool)
    requires tp.Node? && Ordered(tp, sz, lo, w) && Rep(node, link, tp.chain[0], par, tp) && w > 0 && 0 !in node
    requires Replaceable(Child(tp, b)) && xp == tp.chain[0] && x == Child(tp, b).chain[0]
    requires Detaching(node, link, node', link', xp, sz, ChildLo(lo, w, b), w - 1)(Child(tp, b))
    ensures var u := Child(tp, b);
      var r := NewChain(u)[0];
      && xp in node' && CanAdopt(node'[xp := SetChild(node'[xp], b, r)], x, r)
      && Swapped(node, Relink(node', xp, b, x, r), link', xp, par, tp, WithChild(tp, b, UnlinkHere(u, x)))
  {
    var u := Child(tp, b);
    var r := NewChain(u)[0];
    forall q | In(u, q) ensures q != xp && In(tp, q) {
      Halves(tp, sz, lo, w, q);
    }
    RelinkedSub(node, link, node', link', xp, b, u, sz, ChildLo(lo, w, b), w - 1);
    ChildReplaced(node, link, Relink(node', xp, b, x, r), link', par, tp, sz, lo, w, b, r, UnlinkHere(u, x));
    assert In(tp, xp);
  }

  lemma {:induction false} RelinkChild(node: Nodes, link: Links, size: Sizes, p: int, t: Trie, i: nat, path: Path, b: bool, x: int, node': Nodes, link': Links,
                                       xp: int, u: Trie, lo: nat, w: nat)
    requires BinOk(node, link, size, p, t, i) && 0 !in node
    requires HasPath(t, path) && SubAt(t, path).Node? && u == Child(SubAt(t, path), b) && Replaceable(u) && x == u.chain[0]
    requires In(t, x) && WithoutChunk(t, x) == Plug(t, path, WithChild(SubAt(t, path), b, UnlinkHere(u, x)))
    requires |path| < BinWidth(i) && w == BinWidth(i) - |path| && lo == RangeLo(BinLo(i), BinWidth(i), path)
    requires xp == PointerAt(node, p, path) && Detaching(node, link, node', link', xp, size, ChildLo(lo, w, b), w - 1)(u)
    ensures var r := NewChain(u)[0];
      && xp in node' && CanAdopt(node'[xp := SetChild(node'[xp], b, r)], x, r)
      && Removed(node, link, size, p, t, i, x, Relink(node', xp, b, x, r), link')
  {
    DetachedLinks(node, link, node', link', xp, u, size, ChildLo(lo, w, b), w - 1);
    RootOfSub(node, link, size, p, t, i, path);
    RelinkedParent(node, link, node', link', ParentAt(node, p, BinPointer(i), path), SubAt(t, path), xp, x, size, lo, w, b);
    ChildOff(node, link, size, p, t, i, path, b, x, Relink(node', xp, b, x, NewChain(u)[0]), link');
  }

  /** Only the subtree and its parent have been touched; indices stay. */
  ghost predicate Swapped(node: Nodes, node': Nodes, link': Links, xp: int, par: int, tp: Trie, tp': Trie) {
    && Rep(node', link', xp, par, tp') && node'.Keys == node.Keys
    && (forall q :: q in node && !In(tp, q) ==> node'[q] == node[q])
    && (forall q :: q in node ==> node'[q].index == node[q].index)
  }

  ghost predicate LinksKept(link: Links, link': Links, u: Trie) { forall q :: q in link && !In(u, q) ==> q in link' && link'[q] == link[q] }

  lemma {:induction false} DetachedLinks(node: Nodes, link: Links, node': Nodes, link': Links, par: int, u: Trie, sz: Sizes, lo: nat, w: nat)
    requires u.Node? && u.chain != [] && Detaching(node, link, node', link', par, sz, lo, w)(u)
    ensures In(u, u.chain[0]) && u.chain[0] in u.chain && LinksKept(link, link', u)
  {}

  /** The parent's subtree, put back where it stood. */
  lemma {:induction false} ChildOff(node: Nodes, link: Links, size: Sizes, p: int, t: Trie, i: nat, path: Path, b: bool, x: int, node': Nodes, link': Links)
    requires BinOk(node, link, size, p, t, i)
    requires HasPath(t, path) && SubAt(t, path).Node? && In(Child(SubAt(t, path), b), x) && x in Child(SubAt(t, path), b).chain
    requires In(t, x) && WithoutChunk(t, x) == Plug(t, path, WithChild(SubAt(t, path), b, UnlinkHere(Child(SubAt(t, path), b), x)))
    requires Swapped(node, node', link', PointerAt(node, p, path), ParentAt(node, p, BinPointer(i), path), SubAt(t, path),
                     WithChild(SubAt(t, path), b, UnlinkHere(Child(SubAt(t, path), b), x)))
    requires LinksKept(link, link', Child(SubAt(t, path), b))
    ensures Removed(node, link, size, p, t, i, x, node', link')
  {
    var tp := SubAt(t, path);
    assert In(tp, x) && x in node by { RepMember(node, link, p, BinPointer(i), t, x); }
    assert forall q :: In(Child(tp, b), q) ==> In(tp, q);
    UnlinkedBin(node, link, size, node', link', p, t, i, path, x, WithChild(tp, b, UnlinkHere(Child(tp, b), x)));
  }

  /** The last chunk of its size, without children, is simply cut off. */
  lemma {:induction false} CutLast(node: Nodes, link: Links, size: Sizes, p: int, t: Trie, i: nat, path: Path, b: bool, x: int)
    requires BinOk(node, link, size, p, t, i) && HasPath(t, path) && SubAt(t, path).Node? && Child(SubAt(t, path), b).Node?
    requires Child(SubAt(t, path), b).chain == [x] && IsLast(Child(SubAt(t, path), b))
    requires In(t, x) && WithoutChunk(t, x) == Plug(t, path, WithChild(SubAt(t, path), b, UnlinkHere(Child(SubAt(t, path), b), x)))
    ensures var xp := PointerAt(node, p, path);
      && xp in node && Removed(node, link, size, p, t, i, x, node[xp := SetChild(node[xp], b, 0)], link)
  {
    var tp, xp := SubAt(t, path), PointerAt(node, p, path);
    var u, par := Child(tp, b), ParentAt(node, p, BinPointer(i), path);
    RootOfSub(node, link, size, p, t, i, path);
    RepMember(node, link, p, BinPointer(i), t, x);
    var node2 := node[xp := SetChild(node[xp], b, 0)];
    assert UnlinkHere(u, x) == Nil;
    ChildReplaced(node, link, node2, link, par, tp, size, RangeLo(BinLo(i), BinWidth(i), path), BinWidth(i) - |path|, b, 0, Nil);
    assert In(u, x) && In(tp, x);
    UnlinkedBin(node, link, size, node2, link, p, t, i, path, x, WithChild(tp, b, Nil));
  }

  lemma {:induction false} CutRoot(node: Nodes, link: Links, size: Sizes, t: Trie, i: nat, x: int)
    requires t.Node? && BinOk(node, link, size, x, t, i) && t.chain == [x] && IsLast(t)
    ensures Removed(node, link, size, 0, t, i, x, node, link)
  {
    assert In(t, x);
    UnlinkedRoot(node, link, size, node, link, x, 0, t, i, x, Nil);
  }

  /** A chunk that is not the head of its chain has no parent pointer and only leaves the ring. */
  lemma {:induction false} CutChained(node: Nodes, link: Links, size: Sizes, p: int, t: Trie, i: nat, x: int)
    requires BinOk(node, link, size, p, t, i) && In(t, x) && x != SubChain(t, x)[0]
    ensures x in link && link[x].fd in link && link[x].bk in link
    ensures Removed(node, link, size, p, t, i, x, node, Remove(link, x))
  {
    var path := PathTo(t, x);
    PathToIs(t, x);
    var u, par := SubAt(t, path), ParentAt(node, p, BinPointer(i), path);
    RootOfSub(node, link, size, p, t, i, path);
    ChainMemberUnlinkRep(node, link, par, u, size, RangeLo(BinLo(i), BinWidth(i), path), BinWidth(i) - |path|, x);
    RepMember(node, link, p, BinPointer(i), t, x);
    ChainLinks(link, u.chain, x);
    UnlinkedBin(node, link, size, node, Remove(link, x), p, t, i, path, x, UnlinkHere(u, x));
  }

  lemma {:induction false} ChainLinks(link: Links, c: seq<int>, x: int)
    requires IsRing(link, c) && x in c
    ensures x in link && link[x].fd in c && link[x].bk in c
  {
    RingMembers(link, c, Index(c, x));
  }

  /** The chain that holds `x`. */
  function SubChain(t: Trie, x: int): (c: seq<int>)
    requires In(t, x)
    ensures c != []
  {
    PathToIs(t, x);
    SubAt(t, PathTo(t, x)).chain
  }

  // Reading the position of a chunk off its own fields

  /** The subtree whose root chain holds `x`, and its range. */
  function Sub(t: Trie, x: int): (u: Trie)
    requires In(t, x)
    ensures u.Node? && x in u.chain
  {
    PathToIs(t, x);
    SubAt(t, PathTo(t, x))
  }

  function SubLo(t: Trie, i: nat, x: int): nat
    requires In(t, x)
  {
    RangeLo(BinLo(i), BinWidth(i), PathTo(t, x))
  }

  ghost function SubParent(node: Nodes, p: int, t: Trie, i: nat, x: int): int
    requires In(t, x)
  {
    ParentAt(node, p, BinPointer(i), PathTo(t, x))
  }

  lemma {:induction false} SubFacts(node: Nodes, link: Links, size: Sizes, p: int, t: Trie, i: nat, x: int)
    requires BinOk(node, link, size, p, t, i) && In(t, x)
    ensures x in node && x in link && x > 0 && node[x].index == i
    ensures |PathTo(t, x)| <= BinWidth(i)
    ensures var u := Sub(t, x);
      && Ordered(u, size, SubLo(t, i, x), BinWidth(i) - |PathTo(t, x)|)
      && u.chain != [] && Rep(node, link, u.chain[0], SubParent(node, p, t, i, x), u)
      && (x != u.chain[0] ==> node[x].parent == 0 && link[x].bk != x)
      && (x == u.chain[0] ==> node[x].parent == SubParent(node, p, t, i, x) != 0)
      && (x == u.chain[0] ==> (link[x].bk != x <==> |u.chain| > 1))
  {
    PathToIs(t, x);
    RootOfSub(node, link, size, p, t, i, PathTo(t, x));
    RepMember(node, link, p, BinPointer(i), t, x);
    var c := Sub(t, x).chain;
    RingMembers(link, c, Index(c, x));
  }

  /** A head is the root of its bin exactly when the bin points to it. */
  lemma {:induction false} RootOrChild(node: Nodes, link: Links, size: Sizes, p: int, t: Trie, i: nat, x: int)
    requires BinOk(node, link, size, p, t, i) && In(t, x) && Sub(t, x).chain != [] && x == Sub(t, x).chain[0]
    ensures x == p <==> PathTo(t, x) == []
    ensures x == p ==> Sub(t, x) == t && SubParent(node, p, t, i, x) == BinPointer(i) && SubLo(t, i, x) == BinLo(i)
  {
    PathToIs(t, x);
    if PathTo(t, x) != [] { NotRoot(t, size, BinLo(i), BinWidth(i), PathTo(t, x), x); }
  }

  /** `x` is the child on side `b` of the node at `path`. */
  ghost predicate HangsAt(node: Nodes, p: int, t: Trie, i: nat, x: int, path: Path, b: bool)
    requires In(t, x)
  {
    && |path| < BinWidth(i)
    && HasPath(t, path) && SubAt(t, path).Node? && Child(SubAt(t, path), b) == Sub(t, x)
    && SubParent(node, p, t, i, x) == PointerAt(node, p, path)
    && PointerAt(node, p, path) in node
    && (node[PointerAt(node, p, path)].child0 == x <==> !b)
    && WithoutChunk(t, x) == Plug(t, path, WithChild(SubAt(t, path), b, UnlinkHere(Sub(t, x), x)))
    && SubLo(t, i, x) == ChildLo(RangeLo(BinLo(i), BinWidth(i), path), BinWidth(i) - |path|, b)
    && |PathTo(t, x)| == |path| + 1
  }

  lemma {:induction false} IsChild(node: Nodes, link: Links, size: Sizes, p: int, t: Trie, i: nat, x: int) returns (path: Path, b: bool)
    requires BinOk(node, link, size, p, t, i) && In(t, x) && Sub(t, x).chain != [] && x == Sub(t, x).chain[0] && x != p
    ensures HangsAt(node, p, t, i, x, path, b)
  {
    RootOrChild(node, link, size, p, t, i, x);
    var n := |PathTo(t, x)| - 1;
    path, b := PathTo(t, x)[..n], PathTo(t, x)[n];
    assert PathTo(t, x) == path + [b];
    Hangs(node, link, size, p, t, i, x, path, b);
  }

  lemma {:induction false} Hangs(node: Nodes, link: Links, size: Sizes, p: int, t: Trie, i: nat, x: int, path: Path, b: bool)
    requires BinOk(node, link, size, p, t, i) && In(t, x) && Sub(t, x).chain != [] && x == Sub(t, x).chain[0]
    requires PathTo(t, x) == path + [b]
    ensures HangsAt(node, p, t, i, x, path, b)
  {
    PathToIs(t, x);
    PrefixPath(t, path, b);
    PathExtend(t, path, b);
    PointerExtend(node, link, p, BinPointer(i), t, path, b);
    OrderedAt(t, size, BinLo(i), BinWidth(i), path + [b]);
    RangeExtend(BinLo(i), BinWidth(i), path, b);
    RootOfSub(node, link, size, p, t, i, path);
    OtherSide(node, link, size, ParentAt(node, p, BinPointer(i), path), SubAt(t, path), RangeLo(BinLo(i), BinWidth(i), path), BinWidth(i) - |path|, b, x);
  }

  lemma {:induction false} PrefixPath(t: Trie, path: Path, b: bool)
    requires HasPath(t, path + [b])
    ensures HasPath(t, path) && SubAt(t, path).Node?
    decreases path
  {
    if path == [] {
      assert path + [b] == [b];
    } else {
      assert (path + [b])[1..] == path[1..] + [b];
      PrefixPath(Child(t, path[0]), path[1..], b);
    }
  }

  lemma {:induction false} OtherSide(node: Nodes, link: Links, size: Sizes, par: int, tp: Trie, lo: nat, w: nat, b: bool, x: int)
    requires tp.Node? && Ordered(tp, size, lo, w) && Rep(node, link, tp.chain[0], par, tp)
    requires Child(tp, b).Node? && Child(tp, b).chain != [] && x == Child(tp, b).chain[0]
    ensures tp.chain[0] in node && (node[tp.chain[0]].child0 == x <==> !b)
  {
    var xp := tp.chain[0];
    assert In(Child(tp, b), x) && In(tp, x);
    Halves(tp, size, lo, w, x);
    RepMember(node, link, ChildPointer(node[xp], b), xp, Child(tp, b), x);
    if b && tp.left.Node? {
      assert In(tp.left, node[xp].child0);
    }
  }

  lemma {:induction false} NotRoot(t: Trie, size: Sizes, lo: nat, w: nat, path: Path, x: int)
    requires Ordered(t, size, lo, w) && path != [] && HasPath(t, path) && SubAt(t, path).Node? && In(SubAt(t, path), x)
    ensures x !in t.chain
  {
    OrderedAt(Child(t, path[0]), size, if path[0] then lo + Pow2(w - 1) else lo, w - 1, path[1..]);
    assert In(Child(t, path[0]), x);
    Halves(t, size, lo, w, x);
  }

  // The two halves of the removal

  /** The replacement `r` of `x` has been found and taken out of its own place. */
  ghost predicate Taken(node: Nodes, link: Links, size: Sizes, p: int, t: Trie, i: nat, x: int, r: int, node': Nodes, link': Links)
    requires In(t, x)
  {
    var u := Sub(t, x);
    && u.chain != []
    && |PathTo(t, x)| <= BinWidth(i)
    && if x != u.chain[0] then
         && x in link && link[x].fd in link && link[x].bk in link
         && node' == node && link' == Remove(link, x)
       else if IsLast(u) then
         r == 0 && node' == node && link' == link
       else
         && Detached(node, link, node', link', SubParent(node, p, t, i, x), u, size, SubLo(t, i, x), BinWidth(i) - |PathTo(t, x)|)
         && r == NewChain(u)[0] && r != 0
  }

  lemma {:induction false} TakeFromChain(node: Nodes, link: Links, size: Sizes, p: int, t: Trie, i: nat, x: int)
    requires BinOk(node, link, size, p, t, i) && In(t, x) && x in link && link[x].bk != x
    ensures link[x].fd in link && link[x].bk in link
    ensures Taken(node, link, size, p, t, i, x, link[x].bk, node, Remove(link, x))
  {
    SubFacts(node, link, size, p, t, i, x);
    var u := Sub(t, x);
    if x == u.chain[0] {
      DetachFromChain(node, link, SubParent(node, p, t, i, x), u, size, SubLo(t, i, x), BinWidth(i) - |PathTo(t, x)|);
      RepMember(node, link, x, SubParent(node, p, t, i, x), u, NewChain(u)[0]);
    } else {
      CutChained(node, link, size, p, t, i, x);
    }
  }

  /** The only chunk of its size: it has nothing below, and nothing takes its place, or a leaf will. */
  lemma {:induction false} OnlyOfItsSize(node: Nodes, link: Links, size: Sizes, p: int, t: Trie, i: nat, x: int)
    requires BinOk(node, link, size, p, t, i) && In(t, x) && x in link && link[x].bk == x
    ensures x in node && |PathTo(t, x)| <= BinWidth(i)
    ensures var u := Sub(t, x);
      && u.chain == [x] && Rep(node, link, x, SubParent(node, p, t, i, x), u)
      && Ordered(u, size, SubLo(t, i, x), BinWidth(i) - |PathTo(t, x)|)
      && (IsLast(u) <==> node[x].child0 == 0 && node[x].child1 == 0)
      && (IsLast(u) ==> Taken(node, link, size, p, t, i, x, 0, node, link))
  {
    SubFacts(node, link, size, p, t, i, x);
    LeafWalkStart(node, link, SubParent(node, p, t, i, x), Sub(t, x));
  }

  /** Memory once the parent of `x`, if `x` had one, points to `r` instead. */
  function ParentSet(node: Nodes, x: int, xp: int, r: int): Nodes
    requires xp in node
  {
    node[xp := SetChild(node[xp], node[xp].child0 != x, r)]
  }

  lemma {:induction false} RootRelinked(node: Nodes, link: Links, size: Sizes, t: Trie, i: nat, x: int, r: int, node': Nodes, link': Links)
    requires BinOk(node, link, size, x, t, i) && In(t, x) && x == Sub(t, x).chain[0] && 0 !in node
    requires Taken(node, link, size, x, t, i, x, r, node', link')
    ensures r != 0 ==> CanAdopt(node', x, r)
    ensures Removed(node, link, size, r, t, i, x, if r != 0 then Adopt(node', x, r) else node', link')
  {
    SubFacts(node, link, size, x, t, i, x);
    RootOrChild(node, link, size, x, t, i, x);
    if IsLast(t) { CutRoot(node, link, size, t, i, x); } else { RelinkRoot(node, link, size, t, i, x, node', link'); }
  }

  lemma {:induction false} ChildRelinked(node: Nodes, link: Links, size: Sizes, p: int, t: Trie, i: nat, x: int, r: int, node': Nodes, link': Links)
    requires BinOk(node, link, size, p, t, i) && In(t, x) && Sub(t, x).chain != [] && x == Sub(t, x).chain[0] && x != p && 0 !in node
    requires Taken(node, link, size, p, t, i, x, r, node', link') && x in node
    ensures node[x].parent in node' && (r != 0 ==> CanAdopt(ParentSet(node', x, node[x].parent, r), x, r))
    ensures var node2 := ParentSet(node', x, node[x].parent, r);
      Removed(node, link, size, p, t, i, x, if r != 0 then Adopt(node2, x, r) else node2, link')
  {
    SubFacts(node, link, size, p, t, i, x);
    var path, b := IsChild(node, link, size, p, t, i, x);
    if IsLast(Sub(t, x)) {
      CutLast(node, link, size, p, t, i, path, b, x);
    } else {
      MoreRelinked(node, link, size, p, t, i, x, r, node', link', path, b);
    }
  }

  lemma {:induction false} MoreRelinked(node: Nodes, link: Links, size: Sizes, p: int, t: Trie, i: nat, x: int, r: int, node': Nodes, link': Links, path: Path, b: bool)
    requires BinOk(node, link, size, p, t, i) && In(t, x) && Sub(t, x).chain != [] && x == Sub(t, x).chain[0] && 0 !in node
    requires HangsAt(node, p, t, i, x, path, b) && x in node && node[x].parent == SubParent(node, p, t, i, x)
    requires |PathTo(t, x)| <= BinWidth(i) && !IsLast(Sub(t, x)) && r != 0
    requires Detached(node, link, node', link', SubParent(node, p, t, i, x), Sub(t, x), size, SubLo(t, i, x), BinWidth(i) - |PathTo(t, x)|)
    requires r == NewChain(Sub(t, x))[0]
    ensures node[x].parent in node' && CanAdopt(ParentSet(node', x, node[x].parent, r), x, r)
    ensures Removed(node, link, size, p, t, i, x, Adopt(ParentSet(node', x, node[x].parent, r), x, r), link')
  {
    ParentKept(node, link, node', link', size, p, t, i, path, b, x);
    RelinkChild(node, link, size, p, t, i, path, b, x, node', link', PointerAt(node, p, path), Child(SubAt(t, path), b), RangeLo(BinLo(i), BinWidth(i), path), BinWidth(i) - |path|);
  }

  /** Taking the replacement out leaves the parent of `x` as it was. */
  lemma {:induction false} ParentKept(node: Nodes, link: Links, node': Nodes, link': Links, size: Sizes, p: int, t: Trie, i: nat, path: Path, b: bool, x: int)
    requires BinOk(node, link, size, p, t, i) && HasPath(t, path) && SubAt(t, path).Node?
    requires forall q :: q in node && !In(Child(SubAt(t, path), b), q) ==> q in node' && node'[q] == node[q]
    ensures PointerAt(node, p, path) in node && PointerAt(node, p, path) in node'
    ensures node'[PointerAt(node, p, path)] == node[PointerAt(node, p, path)]
  {
    RootOfSub(node, link, size, p, t, i, path);
    var xp := PointerAt(node, p, path);
    assert xp in SubAt(t, path).chain;
    Halves(SubAt(t, path), size, RangeLo(BinLo(i), BinWidth(i), path), BinWidth(i) - |path|, xp);
  }
}

/** One tree bin in memory, and why `insert_large_chunk` adds one chunk to it and nothing else. */
module TreeBin {
  import opened BinIndex
  import opened Ring
  import opened TreeKey
  import opened Trie
  import opened TrieMemory
  import opened TrieUpdate
  import opened Words

  /** `t` is the trie of bin `i`, laid out in memory from pointer `p`. */
  ghost predicate BinOk(node: Nodes, link: Links, size: Sizes, p: int, t: Trie, i: nat)
  {
    && Rep(node, link, p, BinPointer(i), t)
    && Ordered(t, size, BinLo(i), BinWidth(i))
    && (forall q :: In(t, q) ==> q in size && ComputeTreeIndex(size[q]) == i)
    && (forall q :: In(t, q) ==> q in node && node[q].index == i)
  }

  /** A bin is untouched by changes to chunks it does not hold. */
  lemma {:induction false} BinFrame(node: Nodes, link: Links, size: Sizes, node': Nodes, link': Links, size': Sizes, p: int, t: Trie, i: nat)
    requires BinOk(node, link, size, p, t, i)
    requires forall q :: In(t, q) && q in node ==> q in node' && node'[q] == node[q]
    requires forall q :: In(t, q) && q in link ==> q in link' && link'[q] == link[q]
    requires forall q :: In(t, q) && q in size ==> q in size' && size'[q] == size[q]
    ensures BinOk(node', link', size', p, t, i)
  {
    RepFrame(node, link, node', link', p, BinPointer(i), t);
    OrderedFrame(t, size, size', BinLo(i), BinWidth(i));
  }

  /** Changes confined to chunk `x` and to the subtree at `path`, whose root stays put. */
  ghost predicate LocalChange(node: Nodes, link: Links, node': Nodes, link': Links, t: Trie, path: Path, x: int)
    requires HasPath(t, path)
  {
    && (forall q :: q in node && q != x && !In(SubAt(t, path), q) ==> q in node' && node'[q] == node[q])
    && (forall q :: q in link && q != x && !In(SubAt(t, path), q) ==> q in link' && link'[q] == link[q])
    && (forall q :: q in node && q != x ==> q in node' && node'[q].index == node[q].index)
    && (forall q :: q in node' ==> q in node || q == x)
  }

  /** Local changes at one subtree leave the whole trie in memory, with that subtree replaced. */
  lemma {:induction false} LocalRep(node: Nodes, link: Links, size: Sizes, node': Nodes, link': Links, p: int, t: Trie, i: nat, path: Path, x: int, u: Trie)
    requires BinOk(node, link, size, p, t, i)
    requires HasPath(t, path) && SubAt(t, path).Node? && (In(t, x) ==> In(SubAt(t, path), x))
    requires Rep(node', link', PointerAt(node, p, path), ParentAt(node, p, BinPointer(i), path), u)
    requires LocalChange(node, link, node', link', t, path, x)
    ensures Rep(node', link', p, BinPointer(i), Plug(t, path, u))
  {
    RepPlug(node, link, node', link', p, BinPointer(i), t, size, BinLo(i), BinWidth(i), path, u);
  }

  lemma {:induction false} InsertedOrder(t: Trie, size: Sizes, i: nat, x: int, s: nat)
    requires i < NTREEBINS && Ordered(t, size, BinLo(i), BinWidth(i)) && Bracket(s, i) && s < WORD64
    requires x !in size && forall q :: In(t, q) ==> q in size
    ensures Ordered(WithChunk(t, BinLo(i), BinWidth(i), x, s), size[x := s], BinLo(i), BinWidth(i))
    ensures forall q :: In(WithChunk(t, BinLo(i), BinWidth(i), x, s), q) <==> q == x || In(t, q)
  {
    OrderedFrame(t, size, size[x := s], BinLo(i), BinWidth(i));
    BinRange(s, i);
    assert !In(t, x);
    InsertStores(t, size[x := s], BinLo(i), BinWidth(i), x, s);
  }

  /** An insertion below the root `u` of a subtree is an insertion into the bin. */
  lemma {:induction false} InsertedBin(node: Nodes, link: Links, size: Sizes, node': Nodes, link': Links, p: int, t: Trie, i: nat, path: Path, x: int, s: nat, u: Trie)
    requires i < NTREEBINS && BinOk(node, link, size, p, t, i) && ComputeTreeIndex(s) == i && Bracket(s, i) && s < WORD64
    requires x !in size && HasPath(t, path) && SubAt(t, path).Node?
    requires Rep(node', link', PointerAt(node, p, path), ParentAt(node, p, BinPointer(i), path), u)
    requires Plug(t, path, u) == WithChunk(t, BinLo(i), BinWidth(i), x, s)
    requires LocalChange(node, link, node', link', t, path, x) && x in node' && node'[x].index == i
    ensures Placed(node, link, size, p, t, i, x, s, node', link')
  {
    OrderedAt(t, size, BinLo(i), BinWidth(i), path);
    LocalRep(node, link, size, node', link', p, t, i, path, x, u);
    InsertedOrder(t, size, i, x, s);
    InsertedMembers(node, link, size, node', p, t, WithChunk(t, BinLo(i), BinWidth(i), x, s), i, x, s);
  }

  /** The members of bin `i` and the new chunk `x` belong there. */
  lemma {:induction false} InsertedMembers(node: Nodes, link: Links, size: Sizes, node': Nodes, p: int, t: Trie, t': Trie, i: nat, x: int, s: nat)
    requires BinOk(node, link, size, p, t, i) && ComputeTreeIndex(s) == i
    requires forall q :: In(t', q) <==> q == x || In(t, q)
    requires forall q :: q in node && q != x ==> q in node' && node'[q].index == node[q].index
    requires x in node' && node'[x].index == i
    ensures forall q :: In(t', q) ==> q in size[x := s] && ComputeTreeIndex(size[x := s][q]) == i
    ensures forall q :: In(t', q) ==> q in node' && node'[q].index == i
  {
  }

  /** Memory after the insertion of `x`: bin `i` holds it, no other bin is concerned. */
  ghost predicate Placed(node: Nodes, link: Links, size: Sizes, p: int, t: Trie, i: nat, x: int, s: nat, node': Nodes, link': Links)
  {
    && BinOk(node', link', size[x := s], p, WithChunk(t, BinLo(i), BinWidth(i), x, s), i)
    && (forall q :: q in node && q != x && !In(t, q) ==> q in node' && node'[q] == node[q])
    && (forall q :: q in link && q != x && !In(t, q) ==> q in link' && link'[q] == link[q])
    && (forall q :: q in node' ==> q in node || q == x)
  }

  /** A position of the search: the path taken and the range of sizes below it. */
  datatype Position = Position(path: Path, lo: nat, w: nat)

  function Descend(pos: Position, right: bool): Position
    requires pos.w > 0
  {
    Position(pos.path + [right], if right then pos.lo + Pow2(pos.w - 1) else pos.lo, pos.w - 1)
  }

  /** The insertion search has reached node `t`: inserting below it is inserting into the bin. */
  ghost predicate OnPath(node: Nodes, link: Links, size: Sizes, p: int, t0: Trie, i: nat, x: int, s: nat, pos: Position, t: int, k: nat)
  {
    && i < NTREEBINS && Bracket(s, i) && s < WORD64 && ComputeTreeIndex(s) == i && x > 0 && x !in size
    && BinOk(node, link, size, p, t0, i)
    && HasPath(t0, pos.path) && SubAt(t0, pos.path).Node?
    && t == PointerAt(node, p, pos.path) && t in node && t in size && t in link
    && SubAt(t0, pos.path).size == size[t]
    && pos.w + |pos.path| == BinWidth(i) && pos.lo == RangeLo(BinLo(i), BinWidth(i), pos.path)
    && KeyFor(k, s, pos.lo, pos.w)
    && WithChunk(t0, BinLo(i), BinWidth(i), x, s) == Plug(t0, pos.path, WithChunk(SubAt(t0, pos.path), pos.lo, pos.w, x, s))
  }

  lemma {:induction false} RootOfSub(node: Nodes, link: Links, size: Sizes, p: int, t: Trie, i: nat, path: Path)
    requires BinOk(node, link, size, p, t, i) && HasPath(t, path) && SubAt(t, path).Node?
    ensures Rep(node, link, PointerAt(node, p, path), ParentAt(node, p, BinPointer(i), path), SubAt(t, path))
    ensures |path| <= BinWidth(i)
    ensures Ordered(SubAt(t, path), size, RangeLo(BinLo(i), BinWidth(i), path), BinWidth(i) - |path|)
    ensures forall q :: In(SubAt(t, path), q) ==> In(t, q)
    ensures PointerAt(node, p, path) == SubAt(t, path).chain[0]
    ensures PointerAt(node, p, path) in node && PointerAt(node, p, path) in link && PointerAt(node, p, path) > 0
    ensures PointerAt(node, p, path) in size && size[PointerAt(node, p, path)] == SubAt(t, path).size
  {
    RepAt(node, link, p, BinPointer(i), t, path);
    OrderedAt(t, size, BinLo(i), BinWidth(i), path);
    var q := PointerAt(node, p, path);
    assert In(SubAt(t, path), q);
    RepMember(node, link, q, ParentAt(node, p, BinPointer(i), path), SubAt(t, path), q);
  }

  lemma {:induction false} WalkStart(node: Nodes, link: Links, size: Sizes, p: int, t0: Trie, i: nat, s: nat, x: int)
    requires i < NTREEBINS && i == ComputeTreeIndex(s) && MIN_LARGE_SIZE <= s < TREE_INDEX_LIMIT && x > 0 && x !in size
    requires BinOk(node, link, size, p, t0, i) && t0.Node?
    ensures OnPath(node, link, size, p, t0, i, x, s, Position([], BinLo(i), BinWidth(i)), p, FirstKey(s, i))
  {
    TreeIndexBracket(s);
    KeyStart(s, i);
    RootOfSub(node, link, size, p, t0, i, []);
  }

  lemma {:induction false} DownPlug(t0: Trie, lo0: nat, w0: nat, path: Path, right: bool, lo: nat, w: nat, lo': nat, w': nat, x: int, s: nat)
    requires HasPath(t0, path) && SubAt(t0, path).Node?
    requires WithChunk(t0, lo0, w0, x, s) == Plug(t0, path, WithChunk(SubAt(t0, path), lo, w, x, s))
    requires WithChunk(SubAt(t0, path), lo, w, x, s) == WithChild(SubAt(t0, path), right, WithChunk(Child(SubAt(t0, path), right), lo', w', x, s))
    ensures HasPath(t0, path + [right]) && SubAt(t0, path + [right]) == Child(SubAt(t0, path), right)
    ensures WithChunk(t0, lo0, w0, x, s) == Plug(t0, path + [right], WithChunk(SubAt(t0, path + [right]), lo', w', x, s))
  {
    PathExtend(t0, path, right);
  }

  lemma {:induction false} DownPointer(node: Nodes, link: Links, size: Sizes, p: int, t0: Trie, i: nat, path: Path, right: bool)
    requires BinOk(node, link, size, p, t0, i) && HasPath(t0, path) && SubAt(t0, path).Node?
    requires PointerAt(node, p, path) in node && ChildPointer(node[PointerAt(node, p, path)], right) != 0
    ensures |path| < BinWidth(i)
    ensures var c := ChildPointer(node[PointerAt(node, p, path)], right);
      && HasPath(t0, path + [right]) && SubAt(t0, path + [right]).Node?
      && c == PointerAt(node, p, path + [right]) && c in node && c in size && c in link
      && SubAt(t0, path + [right]).size == size[c]
  {
    RootOfSub(node, link, size, p, t0, i, path);
    PathExtend(t0, path, right);
    PointerExtend(node, link, p, BinPointer(i), t0, path, right);
    EmptyChild(node, link, PointerAt(node, p, path), ParentAt(node, p, BinPointer(i), path), SubAt(t0, path), right);
    RootOfSub(node, link, size, p, t0, i, path + [right]);
  }

  /** The insertion search at a node of another size goes down where there is a child. */
  lemma {:induction false} WalkDown(node: Nodes, link: Links, size: Sizes, p: int, t0: Trie, i: nat, x: int, s: nat, pos: Position, t: int, k: nat)
    requires OnPath(node, link, size, p, t0, i, x, s, pos, t, k) && size[t] != s
    requires ChildPointer(node[t], TopBit(k)) != 0
    ensures pos.w > 0
    ensures OnPath(node, link, size, p, t0, i, x, s, Descend(pos, TopBit(k)), ChildPointer(node[t], TopBit(k)), NextKey(k))
  {
    var right := TopBit(k);
    WalkPlug(node, link, size, p, t0, i, x, s, pos, t, k);
    RangeExtend(BinLo(i), BinWidth(i), pos.path, right);
    DownPointer(node, link, size, p, t0, i, pos.path, right);
  }

  /** What inserting means one node further down. */
  lemma {:induction false} WalkPlug(node: Nodes, link: Links, size: Sizes, p: int, t0: Trie, i: nat, x: int, s: nat, pos: Position, t: int, k: nat)
    requires OnPath(node, link, size, p, t0, i, x, s, pos, t, k) && size[t] != s
    ensures pos.w > 0
    ensures var pos' := Descend(pos, TopBit(k));
            && HasPath(t0, pos'.path) && KeyFor(NextKey(k), s, pos'.lo, pos'.w)
            && WithChunk(t0, BinLo(i), BinWidth(i), x, s) == Plug(t0, pos'.path, WithChunk(SubAt(t0, pos'.path), pos'.lo, pos'.w, x, s))
  {
    RootOfSub(node, link, size, p, t0, i, pos.path);
    PlugDown(size, t0, BinLo(i), BinWidth(i), x, s, pos, k);
  }

  lemma {:induction false} PlugDown(size: Sizes, t0: Trie, lo: nat, w: nat, x: int, s: nat, pos: Position, k: nat)
    requires HasPath(t0, pos.path) && SubAt(t0, pos.path).Node? && SubAt(t0, pos.path).size != s
    requires Ordered(SubAt(t0, pos.path), size, pos.lo, pos.w) && KeyFor(k, s, pos.lo, pos.w)
    requires WithChunk(t0, lo, w, x, s) == Plug(t0, pos.path, WithChunk(SubAt(t0, pos.path), pos.lo, pos.w, x, s))
    ensures pos.w > 0
    ensures var pos' := Descend(pos, TopBit(k));
            && HasPath(t0, pos'.path) && KeyFor(NextKey(k), s, pos'.lo, pos'.w)
            && WithChunk(t0, lo, w, x, s) == Plug(t0, pos'.path, WithChunk(SubAt(t0, pos'.path), pos'.lo, pos'.w, x, s))
  {
    WalkDirection(size, SubAt(t0, pos.path), x, s, pos, k);
    KeyBelow(s, pos, k);
    var pos' := Descend(pos, TopBit(k));
    DownPlug(t0, lo, w, pos.path, TopBit(k), pos.lo, pos.w, pos'.lo, pos'.w, x, s);
  }

  /** Where there is no child, the new chunk becomes that child. */
  lemma {:induction false} WalkLeaf(node: Nodes, link: Links, size: Sizes, p: int, t0: Trie, i: nat, x: int, s: nat, pos: Position, t: int, k: nat)
    requires OnPath(node, link, size, p, t0, i, x, s, pos, t, k) && size[t] != s
    requires ChildPointer(node[t], TopBit(k)) == 0
    ensures pos.w > 0
    ensures Placed(node, link, size, p, t0, i, x, s,
                   node[x := TreeNode(0, 0, t, i)][t := SetChild(node[t], TopBit(k), x)], link[x := Link(x, x)])
  {
    var path, right, u := pos.path, TopBit(k), SubAt(t0, pos.path);
    var node', link' := node[x := TreeNode(0, 0, t, i)][t := SetChild(node[t], right, x)], link[x := Link(x, x)];
    RootOfSub(node, link, size, p, t0, i, path);
    WalkDirection(size, u, x, s, pos, k);
    var par := ParentAt(node, p, BinPointer(i), path);
    EmptyChild(node, link, t, par, u, right);
    LeafInsertRep(node, link, par, u, size, pos.lo, pos.w, right, x, s, i);
    LeafLocal(node, link, t0, path, x, t, i, right);
    InsertedBin(node, link, size, node', link', p, t0, i, path, x, s, WithChild(u, right, Node([x], s, Nil, Nil)));
  }

  lemma {:induction false} LeafLocal(node: Nodes, link: Links, t0: Trie, path: Path, x: int, t: int, i: nat, right: bool)
    requires HasPath(t0, path) && t in node && In(SubAt(t0, path), t)
    ensures LocalChange(node, link, node[x := TreeNode(0, 0, t, i)][t := SetChild(node[t], right, x)], link[x := Link(x, x)], t0, path, x)
  {}

  lemma {:induction false} EmptyChild(node: Nodes, link: Links, t: int, par: int, u: Trie, right: bool)
    requires u.Node? && Rep(node, link, t, par, u)
    ensures ChildPointer(node[t], right) == 0 <==> Child(u, right).Nil?
  {
  }

  lemma {:induction false} WalkDirection(size: Sizes, u: Trie, x: int, s: nat, pos: Position, k: nat)
    requires u.Node? && Ordered(u, size, pos.lo, pos.w) && KeyFor(k, s, pos.lo, pos.w) && u.size != s
    ensures pos.w > 0
    ensures TopBit(k) <==> s >= pos.lo + Pow2(pos.w - 1)
    ensures WithChunk(u, pos.lo, pos.w, x, s)
         == WithChild(u, TopBit(k), WithChunk(Child(u, TopBit(k)), Descend(pos, TopBit(k)).lo, pos.w - 1, x, s))
  {
    RangeOfOne(size, u, s, pos.lo, pos.w);
    KeyBelow(s, pos, k);
    WithChunkBelow(u, x, s, pos, TopBit(k));
  }

  lemma {:induction false} RangeOfOne(size: Sizes, u: Trie, s: nat, lo: nat, w: nat)
    requires u.Node? && Ordered(u, size, lo, w) && lo <= s < lo + Pow2(w) && u.size != s
    ensures w > 0
  {}

  lemma {:induction false} KeyBelow(s: nat, pos: Position, k: nat)
    requires KeyFor(k, s, pos.lo, pos.w) && pos.w > 0
    ensures TopBit(k) <==> s >= pos.lo + Pow2(pos.w - 1)
    ensures KeyFor(NextKey(k), s, Descend(pos, TopBit(k)).lo, pos.w - 1)
  {
    KeyDescend(k, s, pos.lo, pos.w);
  }

  lemma {:induction false} WithChunkBelow(u: Trie, x: int, s: nat, pos: Position, right: bool)
    requires u.Node? && u.size != s && pos.w > 0 && (right <==> s >= pos.lo + Pow2(pos.w - 1))
    ensures WithChunk(u, pos.lo, pos.w, x, s) == WithChild(u, right, WithChunk(Child(u, right), Descend(pos, right).lo, pos.w - 1, x, s))
  {}

  /** The insertion search meets a node of the same size. */
  lemma {:induction false} WalkEnd(node: Nodes, link: Links, size: Sizes, p: int, t0: Trie, i: nat, x: int, s: nat, pos: Position, t: int, k: nat)
    requires OnPath(node, link, size, p, t0, i, x, s, pos, t, k) && size[t] == s
    ensures link[t].fd in link
    ensures Placed(node, link, size, p, t0, i, x, s, node[x := TreeNode(0, 0, 0, i)], InsertAfter(link, t, x))
  {
    var path, u := pos.path, SubAt(t0, pos.path);
    RootOfSub(node, link, size, p, t0, i, path);
    var par := ParentAt(node, p, BinPointer(i), path);
    ChainInsertRep(node, link, par, u, size, pos.lo, pos.w, x, i);
    RingMembers(link, u.chain, 0);
    InsertedBin(node, link, size, node[x := TreeNode(0, 0, 0, i)], InsertAfter(link, t, x),
                p, t0, i, path, x, s, u.(chain := [u.chain[0], x] + u.chain[1..]));
  }

  lemma {:induction false} EmptyInsert(node: Nodes, link: Links, size: Sizes, p: int, t: Trie, i: nat, x: int, s: nat)
    requires i < NTREEBINS && BinOk(node, link, size, p, t, i) && t.Nil?
    requires i == ComputeTreeIndex(s) && MIN_LARGE_SIZE <= s < TREE_INDEX_LIMIT && x > 0 && x !in size
    ensures Placed(node, link, size, x, t, i, x, s, node[x := TreeNode(0, 0, BinPointer(i), i)], link[x := Link(x, x)])
  {
    TreeIndexBracket(s);
    InsertedOrder(t, size, i, x, s);
    var link', node' := link[x := Link(x, x)], node[x := TreeNode(0, 0, BinPointer(i), i)];
    SingleRing(link', x);
    assert Rep(node', link', x, BinPointer(i), Node([x], s, Nil, Nil));
  }

  ghost predicate BinsOk(node: Nodes, link: Links, size: Sizes, root: seq<int>, tries: seq<Trie>, except: int)
  {
    && |root| == NTREEBINS && |tries| == NTREEBINS
    && forall i :: 0 <= i < NTREEBINS && i != except ==> BinOk(node, link, size, root[i], tries[i], i)
  }

  /** The other bins do not notice a change to the chunks of bin `i` and to chunk `x`. */
  lemma {:induction false} OtherBins(node: Nodes, link: Links, size: Sizes, root: seq<int>, tries: seq<Trie>, node': Nodes, link': Links, size': Sizes, i: nat, x: int)
    requires i < NTREEBINS && BinsOk(node, link, size, root, tries, -1)
    requires forall j :: 0 <= j < NTREEBINS && j != i ==> !In(tries[j], x)
    requires forall q :: q in node && q != x && !In(tries[i], q) ==> q in node' && node'[q] == node[q]
    requires forall q :: q in link && q != x && !In(tries[i], q) ==> q in link' && link'[q] == link[q]
    requires forall q :: q in size && q != x ==> q in size' && size'[q] == size[q]
    ensures BinsOk(node', link', size', root, tries, i)
  {
    forall j | 0 <= j < NTREEBINS && j != i
      ensures BinOk(node', link', size', root[j], tries[j], j)
    {
      assert BinOk(node, link, size, root[j], tries[j], j) && BinOk(node, link, size, root[i], tries[i], i);
      BinFrame(node, link, size, node', link', size', root[j], tries[j], j);
    }
  }
}

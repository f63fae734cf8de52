/**
 How a trie lies in memory: `child`, `parent`, `fd` and `bk` fields of the tree
 chunks. Every change made to one node of a trie is seen here as the replacement of
 the subtree rooted at that node.
 */
module TrieMemory {
  import opened Ring
  import opened Trie
  import opened Words

  /** The tree fields of a chunk; its `fd`/`bk` fields are kept as a `Link`. */
  datatype TreeNode = TreeNode(child0: int, child1: int, parent: int, index: nat)

  type Nodes = map<int, TreeNode>

  /** The address of tree bin `i`, stored as the parent of the root of its trie. */
  function BinPointer(i: nat): int { -1 - i }

  ghost predicate ChainRep(node: Nodes, link: Links, c: seq<int>)
  {
    && c != []
    && (forall p :: p in c ==> p > 0 && p in node)
    && (forall p :: p in c && p != c[0] ==> node[p].parent == 0 && node[p].child0 == 0 && node[p].child1 == 0)
    && IsRing(link, c)
  }

  /** Pointer `p`, with parent pointer `par`, is the root of `t` in memory. */
  ghost predicate Rep(node: Nodes, link: Links, p: int, par: int, t: Trie)
    decreases t
  {
    if t.Nil? then p == 0
    else
      && ChainRep(node, link, t.chain)
      && p == t.chain[0]
      && node[p].parent == par && par != 0
      && Rep(node, link, node[p].child0, p, t.left)
      && Rep(node, link, node[p].child1, p, t.right)
  }

  lemma {:induction false} RepFrame(node: Nodes, link: Links, node': Nodes, link': Links, p: int, par: int, t: Trie)
    requires Rep(node, link, p, par, t)
    requires forall q :: In(t, q) && q in node ==> q in node' && node'[q] == node[q]
    requires forall q :: In(t, q) && q in link ==> q in link' && link'[q] == link[q]
    ensures Rep(node', link', p, par, t)
    decreases t
  {
    if t.Node? {
      assert forall q :: q in t.chain ==> In(t, q);
      RingFrame(link, link', t.chain, set q | q in t.chain);
      RepFrame(node, link, node', link', node[p].child0, p, t.left);
      RepFrame(node, link, node', link', node[p].child1, p, t.right);
    }
  }

  lemma {:induction false} RepMember(node: Nodes, link: Links, p: int, par: int, t: Trie, q: int)
    requires Rep(node, link, p, par, t) && In(t, q)
    ensures q > 0 && q in node && q in link
    decreases t
  {
    if q in t.chain {
      var k := Index(t.chain, q);
      RingMembers(link, t.chain, k);
    } else if In(t.left, q) {
      RepMember(node, link, node[p].child0, p, t.left, q);
    } else {
      RepMember(node, link, node[p].child1, p, t.right, q);
    }
  }

  // Positions inside a trie

  type Path = seq<bool>

  function Child(t: Trie, right: bool): Trie
    requires t.Node?
  {
    if right then t.right else t.left
  }

  function WithChild(t: Trie, right: bool, u: Trie): Trie
    requires t.Node?
  {
    if right then t.(right := u) else t.(left := u)
  }

  predicate HasPath(t: Trie, path: Path)
  {
    path == [] || (t.Node? && HasPath(Child(t, path[0]), path[1..]))
  }

  function SubAt(t: Trie, path: Path): Trie
    requires HasPath(t, path)
  {
    if path == [] then t else SubAt(Child(t, path[0]), path[1..])
  }

  function Plug(t: Trie, path: Path, u: Trie): Trie
    requires HasPath(t, path)
  {
    if path == [] then u else WithChild(t, path[0], Plug(Child(t, path[0]), path[1..], u))
  }

  function ChildPointer(n: TreeNode, right: bool): int { if right then n.child1 else n.child0 }

  /** The pointer and the parent pointer met at the end of `path`. */
  ghost function PointerAt(node: Nodes, p: int, path: Path): int
    decreases path
  {
    if path == [] then p
    else if p !in node then 0
    else PointerAt(node, ChildPointer(node[p], path[0]), path[1..])
  }

  ghost function ParentAt(node: Nodes, p: int, par: int, path: Path): int
    decreases path
  {
    if path == [] then par
    else if p !in node then 0
    else ParentAt(node, ChildPointer(node[p], path[0]), p, path[1..])
  }

  function RangeLo(lo: nat, w: nat, path: Path): nat
    decreases path
  {
    if path == [] || w == 0 then lo
    else RangeLo(if path[0] then lo + Pow2(w - 1) else lo, w - 1, path[1..])
  }

  lemma {:induction false} RepAt(node: Nodes, link: Links, p: int, par: int, t: Trie, path: Path)
    requires Rep(node, link, p, par, t) && HasPath(t, path)
    ensures Rep(node, link, PointerAt(node, p, path), ParentAt(node, p, par, path), SubAt(t, path))
    decreases path
  {
    if path != [] {
      RepAt(node, link, ChildPointer(node[p], path[0]), p, Child(t, path[0]), path[1..]);
    }
  }

  lemma {:induction false} OrderedAt(t: Trie, sz: Sizes, lo: nat, w: nat, path: Path)
    requires Ordered(t, sz, lo, w) && HasPath(t, path) && SubAt(t, path).Node?
    ensures |path| <= w && Ordered(SubAt(t, path), sz, RangeLo(lo, w, path), w - |path|)
    ensures forall q :: In(SubAt(t, path), q) ==> In(t, q)
    decreases path
  {
    if path != [] {
      OrderedAt(Child(t, path[0]), sz, if path[0] then lo + Pow2(w - 1) else lo, w - 1, path[1..]);
    }
  }

  /**
   Replacing a subtree: if memory changes only inside the subtree at `path` (and on
   nodes outside the trie) and the new subtree hangs off the same pointer, the whole
   trie is the old one with that subtree replaced.
   */
  lemma {:induction false} RepPlug(node: Nodes, link: Links, node': Nodes, link': Links,
                                   p: int, par: int, t: Trie, sz: Sizes, lo: nat, w: nat, path: Path, u: Trie)
    requires Rep(node, link, p, par, t) && Ordered(t, sz, lo, w) && HasPath(t, path)
    requires forall q :: In(t, q) && !In(SubAt(t, path), q) && q in node ==> q in node' && node'[q] == node[q]
    requires forall q :: In(t, q) && !In(SubAt(t, path), q) && q in link ==> q in link' && link'[q] == link[q]
    requires Rep(node', link', PointerAt(node, p, path), ParentAt(node, p, par, path), u)
    requires SubAt(t, path).Node?
    ensures Rep(node', link', p, par, Plug(t, path, u))
    decreases path
  {
    if path != [] {
      var b := path[0];
      var c, d := Child(t, b), Child(t, !b);
      var clo := if b then lo + Pow2(w - 1) else lo;
      OrderedAt(c, sz, clo, w - 1, path[1..]);
      forall q | In(t, q) && In(SubAt(t, path), q)
        ensures q !in t.chain && !In(d, q)
      {
        Halves(t, sz, lo, w, q);
      }
      forall q | In(c, q) ensures In(t, q) { }
      RepPlug(node, link, node', link', ChildPointer(node[p], b), p, c, sz, clo, w - 1, path[1..], u);
      assert forall q :: In(d, q) ==> In(t, q);
      RepFrame(node, link, node', link', ChildPointer(node[p], !b), p, d);
      assert forall q :: q in t.chain ==> In(t, q);
      RingFrame(link, link', t.chain, set q | q in t.chain);
    }
  }

  lemma {:induction false} PathExtend(t: Trie, path: Path, b: bool)
    requires HasPath(t, path) && SubAt(t, path).Node?
    ensures HasPath(t, path + [b]) && SubAt(t, path + [b]) == Child(SubAt(t, path), b)
    ensures forall u :: Plug(t, path + [b], u) == Plug(t, path, WithChild(SubAt(t, path), b, u))
    decreases path
  {
    if path == [] {
      assert path + [b] == [b];
      assert [b][1..] == [];
    } else {
      assert (path + [b])[1..] == path[1..] + [b];
      PathExtend(Child(t, path[0]), path[1..], b);
    }
  }

  lemma {:induction false} PointerExtend(node: Nodes, link: Links, p: int, par: int, t: Trie, path: Path, b: bool)
    requires Rep(node, link, p, par, t) && HasPath(t, path) && SubAt(t, path).Node?
    ensures PointerAt(node, p, path) in node
    ensures PointerAt(node, p, path + [b]) == ChildPointer(node[PointerAt(node, p, path)], b)
    ensures ParentAt(node, p, par, path + [b]) == PointerAt(node, p, path)
    decreases path
  {
    if path == [] {
      assert path + [b] == [b];
      assert [b][1..] == [];
    } else {
      assert (path + [b])[1..] == path[1..] + [b];
      PointerExtend(node, link, ChildPointer(node[p], path[0]), p, Child(t, path[0]), path[1..], b);
    }
  }

  lemma {:induction false} RangeExtend(lo: nat, w: nat, path: Path, b: bool)
    requires |path| < w
    ensures RangeLo(lo, w, path + [b]) == RangeLo(lo, w, path) + if b then Pow2(w - |path| - 1) else 0
    decreases path
  {
    if path == [] {
      assert path + [b] == [b];
      assert [b][1..] == [];
    } else {
      assert (path + [b])[1..] == path[1..] + [b];
      RangeExtend(if path[0] then lo + Pow2(w - 1) else lo, w - 1, path[1..], b);
    }
  }

  lemma {:induction false} PlugSelf(t: Trie, path: Path)
    requires HasPath(t, path)
    ensures Plug(t, path, SubAt(t, path)) == t
  {
    if path != [] { PlugSelf(Child(t, path[0]), path[1..]); }
  }
}

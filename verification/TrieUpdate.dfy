/** The pointer updates of insertion and removal, each at one node of a trie. */
module TrieUpdate {
  import opened Ring
  import opened Trie
  import opened TrieMemory
  import opened Words

  function SetChild(n: TreeNode, right: bool, q: int): TreeNode
  {
    if right then n.(child1 := q) else n.(child0 := q)
  }

  /** `x` joins the chain of node `t`. */
  lemma {:induction false} ChainInsertRep(node: Nodes, link: Links, par: int, u: Trie, sz: Sizes, lo: nat, w: nat, x: int, i: nat)
    requires u.Node? && Ordered(u, sz, lo, w) && Rep(node, link, u.chain[0], par, u)
    requires !In(u, x) && x > 0
    ensures u.chain[0] in link && link[u.chain[0]].fd in link
    ensures Rep(node[x := TreeNode(0, 0, 0, i)], InsertAfter(link, u.chain[0], x), u.chain[0], par,
                u.(chain := [u.chain[0], x] + u.chain[1..]))
  {
    var c, t := u.chain, u.chain[0];
    InsertAfterHead(link, c, x);
    var link' := InsertAfter(link, t, x);
    var node' := node[x := TreeNode(0, 0, 0, i)];
    ChainMembers(c, x);
    assert ChainRep(node', link', [t, x] + c[1..]);
    assert forall q :: q in link && q !in c && q != x ==> q in link' && link'[q] == link[q];
    ChildrenKept(node, link, node', link', u, sz, lo, w, x);
  }

  /** The subtrees do not notice a change to the chain and to x. */
  lemma {:induction false} ChildrenKept(node: Nodes, link: Links, node': Nodes, link': Links, u: Trie, sz: Sizes, lo: nat, w: nat, x: int)
    requires u.Node? && Ordered(u, sz, lo, w) && u.chain != [] && !In(u, x) && u.chain[0] in node
    requires Rep(node, link, node[u.chain[0]].child0, u.chain[0], u.left) && Rep(node, link, node[u.chain[0]].child1, u.chain[0], u.right)
    requires forall q | q in node && q != x :: q in node' && node'[q] == node[q]
    requires forall q | q in link && q !in u.chain && q != x :: q in link' && link'[q] == link[q]
    ensures Rep(node', link', node[u.chain[0]].child0, u.chain[0], u.left) && Rep(node', link', node[u.chain[0]].child1, u.chain[0], u.right)
  {
    forall q | In(u.left, q) || In(u.right, q) ensures q !in u.chain && q != x { Halves(u, sz, lo, w, q); }
    RepFrame(node, link, node', link', node[u.chain[0]].child0, u.chain[0], u.left);
    RepFrame(node, link, node', link', node[u.chain[0]].child1, u.chain[0], u.right);
  }

  lemma {:induction false} ChainMembers(c: seq<int>, x: int)
    requires c != []
    ensures forall q :: q in [c[0], x] + c[1..] <==> q == x || q in c
  {
    assert c == [c[0]] + c[1..];
  }

  lemma {:induction false} SingleRing(link: Links, x: int)
    requires x in link && link[x] == Link(x, x)
    ensures IsRing(link, [x])
  {
  }

  /** `x` becomes a new leaf under the node `t` at an empty child slot. */
  lemma {:induction false} LeafInsertRep(node: Nodes, link: Links, par: int, u: Trie, sz: Sizes, lo: nat, w: nat, right: bool, x: int, s: nat, i: nat)
    requires u.Node? && Ordered(u, sz, lo, w) && Rep(node, link, u.chain[0], par, u)
    requires Child(u, right).Nil? && !In(u, x) && x > 0
    ensures u.chain[0] in node
    ensures Rep(node[x := TreeNode(0, 0, u.chain[0], i)][u.chain[0] := SetChild(node[u.chain[0]], right, x)],
                link[x := Link(x, x)], u.chain[0], par, WithChild(u, right, Node([x], s, Nil, Nil)))
  {
    var c, t := u.chain, u.chain[0];
    var node' := node[x := TreeNode(0, 0, t, i)][t := SetChild(node[t], right, x)];
    var link' := link[x := Link(x, x)];
    forall q | In(u.left, q) || In(u.right, q)
      ensures q !in c && q != x
    {
      Halves(u, sz, lo, w, q);
    }
    RingFrame(link, link', c, set q | q in c);
    SingleRing(link', x);
    var d := Child(u, !right);
    RepFrame(node, link, node', link', ChildPointer(node[t], !right), t, d);
  }

  /** A chunk that is not the head of its chain only leaves the ring. */
  lemma {:induction false} ChainMemberUnlinkRep(node: Nodes, link: Links, par: int, u: Trie, sz: Sizes, lo: nat, w: nat, x: int)
    requires u.Node? && Ordered(u, sz, lo, w) && Rep(node, link, u.chain[0], par, u)
    requires x in u.chain && x != u.chain[0]
    ensures x in link && link[x].fd in link && link[x].bk in link
    ensures Rep(node, Remove(link, x), u.chain[0], par, UnlinkHere(u, x))
  {
    var c, t := u.chain, u.chain[0];
    var k := Index(c, x);
    RemoveFromRing(link, c, k);
    var link' := Remove(link, x);
    var c' := c[..k] + c[k + 1..];
    ChainRemoveMembers(c, x);
    assert c' == ChainRemove(c, x) && c'[0] == t;
    forall q | In(u.left, q) || In(u.right, q)
      ensures q !in c
    {
      Halves(u, sz, lo, w, q);
    }
    RepFrame(node, link, node, link', node[t].child0, t, u.left);
    RepFrame(node, link, node, link', node[t].child1, t, u.right);
  }

  lemma {:induction false} TailRotation(c: seq<int>)
    requires |c| >= 2
    ensures c[..0] + c[1..] == c[1..]
    ensures [c[1..][|c| - 2]] + c[1..][..|c| - 2] == [c[|c| - 1]] + c[1..|c| - 1]
  {
    assert c[1..][..|c| - 2] == c[1..|c| - 1];
  }

  /** The ring left when the head of a longer chain goes, read from the old last chunk. */
  lemma {:induction false} HeadUnlinkRing(link: Links, c: seq<int>)
    requires IsRing(link, c) && |c| >= 2
    ensures c[0] in link && link[c[0]].fd in link && link[c[0]].bk in link
    ensures link[c[0]].bk == c[|c| - 1] && link[c[0]].fd in c
    ensures IsRing(Remove(link, c[0]), ChainRemove(c, c[0]))
  {
    RingMembers(link, c, 0);
    RemoveFromRing(link, c, 0);
    TailRotation(c);
    RotateRing(Remove(link, c[0]), c[1..]);
  }

  predicate CanAdopt(node: Nodes, x: int, r: int)
  {
    && x in node && r in node && x != r
    && (node[x].child0 != 0 ==> node[x].child0 in node && node[x].child0 != r)
    && (node[x].child1 != 0 ==> node[x].child1 in node && node[x].child1 != r)
  }

  /** R->parent = X->parent, and the children of `x` move to `r`. */
  function Adopt(node: Nodes, x: int, r: int): Nodes
    requires CanAdopt(node, x, r)
  {
    var c0, c1 := node[x].child0, node[x].child1;
    var n1 := node[r := node[r].(parent := node[x].parent)];
    var n2 := if c0 != 0 then n1[r := n1[r].(child0 := c0)][c0 := n1[c0].(parent := r)] else n1;
    if c1 != 0 then n2[r := n2[r].(child1 := c1)][c1 := n2[c1].(parent := r)] else n2
  }

  /** A subtree keeps its shape when only its root's parent pointer changes. */
  lemma {:induction false} Reparent(node: Nodes, link: Links, node': Nodes, link': Links, p: int, par: int, par': int, t: Trie, sz: Sizes, lo: nat, w: nat)
    requires Rep(node, link, p, par, t) && Ordered(t, sz, lo, w) && par' != 0
    requires forall q :: In(t, q) && q != p && q in node ==> q in node' && node'[q] == node[q]
    requires p != 0 && p in node ==> p in node' && node'[p] == node[p].(parent := par')
    requires forall q :: In(t, q) && q in link ==> q in link' && link'[q] == link[q]
    ensures Rep(node', link', p, par', t)
  {
    if t.Node? {
      assert forall q :: q in t.chain ==> In(t, q);
      RingFrame(link, link', t.chain, set q | q in t.chain);
      forall q | In(t.left, q) || In(t.right, q)
        ensures q !in t.chain
      {
        Halves(t, sz, lo, w, q);
      }
      RepFrame(node, link, node', link', node[p].child0, p, t.left);
      RepFrame(node, link, node', link', node[p].child1, p, t.right);
    }
  }

  /** What `Adopt` changes, field by field. */
  ghost predicate Adopted(node: Nodes, node': Nodes, x: int, r: int)
    requires x in node && r in node
  {
    var c0, c1 := node[x].child0, node[x].child1;
    && r in node' && node'[r] == node[r].(parent := node[x].parent, child0 := c0, child1 := c1)
    && (c0 != 0 && c0 in node ==> c0 in node' && node'[c0] == node[c0].(parent := r))
    && (c1 != 0 && c1 in node ==> c1 in node' && node'[c1] == node[c1].(parent := r))
    && (forall q :: q in node && q != r && q != c0 && q != c1 ==> q in node' && node'[q] == node[q])
  }

  lemma {:induction false} AdoptFields(node: Nodes, x: int, r: int)
    requires CanAdopt(node, x, r) && 0 !in node
    requires node[r].child0 == 0 && node[r].child1 == 0
    requires node[x].child0 != node[x].child1 || node[x].child0 == 0
    ensures Adopted(node, Adopt(node, x, r), x, r)
  {
  }

  lemma {:induction false} AdoptedRep(node: Nodes, node': Nodes, link: Links, link': Links, par: int, u: Trie, sz: Sizes, lo: nat, w: nat, x: int, c: seq<int>, s: nat)
    requires u.Node? && Ordered(u, sz, lo, w) && Rep(node, link, x, par, u) && 0 !in node
    requires ChainRep(node, link', c) && Adopted(node, node', x, c[0])
    requires x !in c && forall q :: q in c ==> !In(u.left, q) && !In(u.right, q)
    requires forall q :: (In(u.left, q) || In(u.right, q)) && q in link ==> q in link' && link'[q] == link[q]
    ensures Rep(node', link', c[0], par, Node(c, s, u.left, u.right))
  {
    var r, c0, c1 := c[0], node[x].child0, node[x].child1;
    ChildOf(node, link, x, u);
    forall q | In(u.left, q) ensures !In(u.right, q) && q != c1 && q != r {
      Halves(u, sz, lo, w, q);
      RepMember(node, link, c0, x, u.left, q);
    }
    forall q | In(u.right, q) ensures q != c0 && q != r {
      RepMember(node, link, c1, x, u.right, q);
    }
    if w > 0 {
      Reparent(node, link, node', link', c0, x, r, u.left, sz, lo, w - 1);
      Reparent(node, link, node', link', c1, x, r, u.right, sz, lo + Pow2(w - 1), w - 1);
    }
  }

  /** `r`, a childless chunk, takes over the place of the root `x`. */
  lemma {:induction false} AdoptRep(node: Nodes, link: Links, link': Links, par: int, u: Trie, sz: Sizes, lo: nat, w: nat, x: int, c: seq<int>, s: nat)
    requires u.Node? && Ordered(u, sz, lo, w) && Rep(node, link, x, par, u) && 0 !in node
    requires ChainRep(node, link', c) && node[c[0]].child0 == 0 && node[c[0]].child1 == 0
    requires x !in c && forall q :: q in c ==> !In(u.left, q) && !In(u.right, q)
    requires forall q :: (In(u.left, q) || In(u.right, q)) && q in link ==> q in link' && link'[q] == link[q]
    ensures CanAdopt(node, x, c[0])
    ensures Adopted(node, Adopt(node, x, c[0]), x, c[0])
    ensures Rep(Adopt(node, x, c[0]), link', c[0], par, Node(c, s, u.left, u.right))
  {
    ChildOf(node, link, x, u);
    if node[x].child0 != 0 && In(u.left, node[x].child0) { Halves(u, sz, lo, w, node[x].child0); }
    AdoptFields(node, x, c[0]);
    AdoptedRep(node, Adopt(node, x, c[0]), link, link', par, u, sz, lo, w, x, c, s);
  }

  lemma {:induction false} ChildOf(node: Nodes, link: Links, x: int, u: Trie)
    requires u.Node? && Rep(node, link, x, if x in node then node[x].parent else 0, u)
    ensures x in node
    ensures node[x].child0 != 0 <==> u.left.Node?
    ensures node[x].child1 != 0 <==> u.right.Node?
    ensures u.left.Node? ==> node[x].child0 in node && In(u.left, node[x].child0)
    ensures u.right.Node? ==> node[x].child1 in node && In(u.right, node[x].child1)
  {
  }

  // The leaf chosen by the removal of an interior node

  function LeafPath(t: Trie): Path
    requires t.Node?
  {
    if t.right.Node? then [true] + LeafPath(t.right)
    else if t.left.Node? then [false] + LeafPath(t.left)
    else []
  }

  lemma {:induction false} LeafPathIs(t: Trie)
    requires t.Node?
    ensures HasPath(t, LeafPath(t)) && SubAt(t, LeafPath(t)) == Leaf(t)
    ensures Plug(t, LeafPath(t), Nil) == DropLeaf(t)
  {
    if t.right.Node? {
      LeafPathIs(t.right);
    } else if t.left.Node? {
      LeafPathIs(t.left);
    }
  }

  /** Walking to the leaf one step further. */
  lemma {:induction false} LeafPathStep(t: Trie, path: Path, b: bool)
    requires t.Node? && HasPath(t, path) && SubAt(t, path).Node?
    requires LeafPath(t) == path + LeafPath(SubAt(t, path))
    requires if b then SubAt(t, path).right.Node? else SubAt(t, path).right.Nil? && SubAt(t, path).left.Node?
    ensures HasPath(t, path + [b]) && SubAt(t, path + [b]) == Child(SubAt(t, path), b)
    ensures LeafPath(t) == path + [b] + LeafPath(SubAt(t, path + [b]))
  {
    PathExtend(t, path, b);
    var l := LeafPath(Child(SubAt(t, path), b));
    assert path + ([b] + l) == path + [b] + l;
  }
}

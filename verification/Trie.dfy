/**
 The bitwise tries of one tree bin, as values. A node holds the chain of all chunks
 of one size, its head first. Subtrees split the range [lo, lo + 2^w) in halves; the
 node at the root of a range may hold any size of the range.
 */
module Trie {
  import opened Words
  import opened Ring

  datatype Trie = Nil | Node(chain: seq<int>, size: nat, left: Trie, right: Trie)

  type Sizes = map<int, nat>

  /** Chunk `p` is stored in `t`. */
  predicate In(t: Trie, p: int)
  {
    t.Node? && (p in t.chain || In(t.left, p) || In(t.right, p))
  }

  predicate HasSize(t: Trie, s: nat)
  {
    t.Node? && (t.size == s || HasSize(t.left, s) || HasSize(t.right, s))
  }

  ghost predicate ChainOf(chain: seq<int>, sz: Sizes, s: nat)
  {
    chain != [] && NoDup(chain) && forall p :: p in chain ==> p in sz && sz[p] == s
  }

  /** Sizes sit in their range, one chain per size. */
  ghost predicate Ordered(t: Trie, sz: Sizes, lo: nat, w: nat)
    decreases t
  {
    t.Node? ==>
      && ChainOf(t.chain, sz, t.size)
      && lo <= t.size < lo + Pow2(w)
      && (w == 0 ==> t.left.Nil? && t.right.Nil?)
      && (w > 0 ==> Ordered(t.left, sz, lo, w - 1) && Ordered(t.right, sz, lo + Pow2(w - 1), w - 1))
      && !HasSize(t.left, t.size) && !HasSize(t.right, t.size)
  }

  lemma {:induction false} MemberSize(t: Trie, sz: Sizes, lo: nat, w: nat, p: int)
    requires Ordered(t, sz, lo, w) && In(t, p)
    ensures p in sz && HasSize(t, sz[p])
  {
    if p !in t.chain {
      if In(t.left, p) { MemberSize(t.left, sz, lo, w - 1, p); }
      else { MemberSize(t.right, sz, lo + Pow2(w - 1), w - 1, p); }
    }
  }

  lemma {:induction false} SizeInRange(t: Trie, sz: Sizes, lo: nat, w: nat, s: nat)
    requires Ordered(t, sz, lo, w) && HasSize(t, s)
    ensures lo <= s < lo + Pow2(w)
  {
    if s != t.size {
      if HasSize(t.left, s) { SizeInRange(t.left, sz, lo, w - 1, s); }
      else { SizeInRange(t.right, sz, lo + Pow2(w - 1), w - 1, s); }
    }
  }

  /** A member off the root chain lies in exactly one half, told by its size. */
  lemma {:induction false} Halves(t: Trie, sz: Sizes, lo: nat, w: nat, p: int)
    requires t.Node? && Ordered(t, sz, lo, w) && In(t, p)
    ensures p in sz
    ensures p in t.chain <==> sz[p] == t.size
    ensures p !in t.chain ==> w > 0
    ensures In(t.left, p) <==> sz[p] != t.size && w > 0 && sz[p] < lo + Pow2(w - 1)
    ensures In(t.right, p) <==> sz[p] != t.size && w > 0 && sz[p] >= lo + Pow2(w - 1)
  {
    if In(t.left, p) {
      MemberSize(t.left, sz, lo, w - 1, p);
      SizeInRange(t.left, sz, lo, w - 1, sz[p]);
    }
    if In(t.right, p) {
      MemberSize(t.right, sz, lo + Pow2(w - 1), w - 1, p);
      SizeInRange(t.right, sz, lo + Pow2(w - 1), w - 1, sz[p]);
    }
  }

  /** Order does not depend on the sizes of chunks stored elsewhere. */
  lemma {:induction false} OrderedFrame(t: Trie, sz: Sizes, sz': Sizes, lo: nat, w: nat)
    requires Ordered(t, sz, lo, w)
    requires forall p :: In(t, p) ==> p in sz && p in sz' && sz'[p] == sz[p]
    ensures Ordered(t, sz', lo, w)
    decreases t
  {
    if t.Node? {
      assert forall p :: p in t.chain ==> In(t, p);
      if w > 0 {
        OrderedFrame(t.left, sz, sz', lo, w - 1);
        OrderedFrame(t.right, sz, sz', lo + Pow2(w - 1), w - 1);
      }
    }
  }

  // Insertion

  /** Add chunk `x` of size `s`: to the chain of its size, or as a new leaf on its path. */
  function WithChunk(t: Trie, lo: nat, w: nat, x: int, s: nat): Trie
    decreases t
  {
    if t.Nil? then Node([x], s, Nil, Nil)
    else if t.size == s && t.chain != [] then t.(chain := [t.chain[0], x] + t.chain[1..])
    else if w == 0 then t
    else if s < lo + Pow2(w - 1) then t.(left := WithChunk(t.left, lo, w - 1, x, s))
    else t.(right := WithChunk(t.right, lo + Pow2(w - 1), w - 1, x, s))
  }

  lemma {:induction false} ChainInsert(c: seq<int>, x: int, sz: Sizes, s: nat)
    requires ChainOf(c, sz, s) && x !in c && x in sz && sz[x] == s
    ensures ChainOf([c[0], x] + c[1..], sz, s)
    ensures forall p :: p in [c[0], x] + c[1..] <==> p == x || p in c
  {
    var c' := [c[0], x] + c[1..];
    assert c == [c[0]] + c[1..];
    forall i, j | 0 <= i < j < |c'| ensures c'[i] != c'[j] {
      InsertedAt(c, x, c', i);
      InsertedAt(c, x, c', j);
    }
  }

  lemma {:induction false} InsertStores(t: Trie, sz: Sizes, lo: nat, w: nat, x: int, s: nat)
    requires Ordered(t, sz, lo, w) && !In(t, x)
    requires lo <= s < lo + Pow2(w) && x in sz && sz[x] == s
    ensures Ordered(WithChunk(t, lo, w, x, s), sz, lo, w)
    ensures forall p :: In(WithChunk(t, lo, w, x, s), p) <==> p == x || In(t, p)
    ensures forall r :: HasSize(WithChunk(t, lo, w, x, s), r) <==> r == s || HasSize(t, r)
    decreases t
  {
    if t.Node? {
      if t.size == s {
        ChainInsert(t.chain, x, sz, s);
      } else if w > 0 && s < lo + Pow2(w - 1) {
        InsertStores(t.left, sz, lo, w - 1, x, s);
      } else if w > 0 {
        InsertStores(t.right, sz, lo + Pow2(w - 1), w - 1, x, s);
      }
    }
  }

  // Removal

  /** The leaf the unlink step picks: follow right children where possible, else left. */
  function Leaf(t: Trie): (r: Trie)
    requires t.Node?
    ensures r.Node? && r.left.Nil? && r.right.Nil?
  {
    if t.right.Node? then Leaf(t.right) else if t.left.Node? then Leaf(t.left) else t
  }

  function DropLeaf(t: Trie): Trie
    requires t.Node?
  {
    if t.right.Node? then t.(right := DropLeaf(t.right))
    else if t.left.Node? then t.(left := DropLeaf(t.left))
    else Nil
  }

  lemma {:induction false} DropLeafStores(t: Trie, sz: Sizes, lo: nat, w: nat)
    requires t.Node? && Ordered(t, sz, lo, w)
    ensures Ordered(DropLeaf(t), sz, lo, w)
    ensures ChainOf(Leaf(t).chain, sz, Leaf(t).size)
    ensures HasSize(t, Leaf(t).size) && !HasSize(DropLeaf(t), Leaf(t).size)
    ensures forall s :: HasSize(t, s) <==> s == Leaf(t).size || HasSize(DropLeaf(t), s)
    ensures forall p :: In(t, p) <==> p in Leaf(t).chain || In(DropLeaf(t), p)
    decreases t
  {
    DropLeafMembers(t);
    if t.right.Node? {
      DropLeafStores(t.right, sz, lo + Pow2(w - 1), w - 1);
      SizeInRange(t.right, sz, lo + Pow2(w - 1), w - 1, Leaf(t).size);
      if HasSize(t.left, Leaf(t).size) { SizeInRange(t.left, sz, lo, w - 1, Leaf(t).size); }
    } else if t.left.Node? {
      DropLeafStores(t.left, sz, lo, w - 1);
    }
  }

  lemma {:induction false} DropLeafMembers(t: Trie)
    requires t.Node?
    ensures HasSize(t, Leaf(t).size)
    ensures forall s :: HasSize(t, s) <==> s == Leaf(t).size || HasSize(DropLeaf(t), s)
    ensures forall p :: In(t, p) <==> p in Leaf(t).chain || In(DropLeaf(t), p)
    decreases t
  {
    if t.right.Node? {
      DropLeafMembers(t.right);
    } else if t.left.Node? {
      DropLeafMembers(t.left);
    }
  }

  /** The chain without `x`; when the head goes, the last chunk takes its place. */
  function ChainRemove(c: seq<int>, x: int): seq<int>
    requires |c| >= 2 && x in c
  {
    if x == c[0] then [c[|c| - 1]] + c[1..|c| - 1]
    else
      var k := Index(c, x);
      c[..k] + c[k + 1..]
  }

  function Index(c: seq<int>, x: int): (k: nat)
    requires x in c
    ensures k < |c| && c[k] == x
  {
    if c[0] == x then 0 else 1 + Index(c[1..], x)
  }

  /** What is left once the only chunk of the root's size is gone. */
  function Replaced(t: Trie): Trie
    requires t.Node?
  {
    if t.right.Node? then Node(Leaf(t.right).chain, Leaf(t.right).size, t.left, DropLeaf(t.right))
    else if t.left.Node? then Node(Leaf(t.left).chain, Leaf(t.left).size, DropLeaf(t.left), Nil)
    else Nil
  }

  function UnlinkHere(t: Trie, x: int): Trie
    requires t.Node? && x in t.chain
  {
    if |t.chain| > 1 then t.(chain := ChainRemove(t.chain, x)) else Replaced(t)
  }

  function WithoutChunk(t: Trie, x: int): Trie
    requires In(t, x)
    decreases t
  {
    if x in t.chain then UnlinkHere(t, x)
    else if In(t.left, x) then t.(left := WithoutChunk(t.left, x))
    else t.(right := WithoutChunk(t.right, x))
  }

  lemma {:induction false} ChainRemoveMembers(c: seq<int>, x: int)
    requires NoDup(c) && |c| >= 2 && x in c
    ensures NoDup(ChainRemove(c, x)) && ChainRemove(c, x) != []
    ensures forall p :: p in ChainRemove(c, x) <==> p != x && p in c
  {
    var n := |c|;
    var c' := ChainRemove(c, x);
    if x == c[0] {
      assert c == [c[0]] + c[1..n - 1] + [c[n - 1]];
    } else {
      var k := Index(c, x);
      assert c == c[..k] + [c[k]] + c[k + 1..];
    }
  }

  lemma {:induction false} ReplacedStores(t: Trie, sz: Sizes, lo: nat, w: nat)
    requires t.Node? && Ordered(t, sz, lo, w)
    ensures Ordered(Replaced(t), sz, lo, w)
    ensures forall p :: In(Replaced(t), p) <==> In(t, p) && p !in t.chain
    ensures forall s :: HasSize(Replaced(t), s) <==> HasSize(t, s) && s != t.size
  {
    forall p | In(t, p) ensures p in t.chain <==> !In(t.left, p) && !In(t.right, p) {
      Halves(t, sz, lo, w, p);
    }
    if t.right.Node? {
      var s := Leaf(t.right).size;
      DropLeafStores(t.right, sz, lo + Pow2(w - 1), w - 1);
      SizeInRange(t.right, sz, lo + Pow2(w - 1), w - 1, s);
      if HasSize(t.left, s) { SizeInRange(t.left, sz, lo, w - 1, s); }
    } else if t.left.Node? {
      DropLeafStores(t.left, sz, lo, w - 1);
      SizeInRange(t.left, sz, lo, w - 1, Leaf(t.left).size);
    }
  }

  /** Unlinking removes exactly `x` and keeps the order. */
  lemma {:induction false} UnlinkStores(t: Trie, sz: Sizes, lo: nat, w: nat, x: int)
    requires Ordered(t, sz, lo, w) && In(t, x)
    ensures Ordered(WithoutChunk(t, x), sz, lo, w)
    ensures forall p :: In(WithoutChunk(t, x), p) <==> In(t, p) && p != x
    ensures forall s :: HasSize(WithoutChunk(t, x), s) ==> HasSize(t, s)
    decreases t
  {
    Halves(t, sz, lo, w, x);
    if x in t.chain {
      if |t.chain| > 1 {
        ChainRemoveMembers(t.chain, x);
      } else {
        assert t.chain == [x];
        ReplacedStores(t, sz, lo, w);
      }
    } else if In(t.left, x) {
      UnlinkStores(t.left, sz, lo, w - 1, x);
    } else {
      UnlinkStores(t.right, sz, lo + Pow2(w - 1), w - 1, x);
    }
  }
}

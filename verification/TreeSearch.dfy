/** Why the searches of `tmalloc_large` and `tmalloc_small` find a least fitting chunk. */
module TreeSearch {
  import opened BinIndex
  import opened Ring
  import opened TreeBin
  import opened TreeKey
  import opened TreeUnlink
  import opened Trie
  import opened TrieMemory
  import opened Words

  /** The chosen chunk `v`, if any, is no larger than `p`. */
  predicate Best(size: Sizes, v: int, p: int)
  {
    v != 0 && v in size && p in size && size[v] <= size[p]
  }

  /** `p` is stored in `u`, or everything stored there is at most as large. */
  ghost predicate BelowTrie(size: Sizes, u: Trie, p: int)
  {
    u.Node? && p in size && (In(u, p) || forall q :: In(u, q) ==> q in size && size[q] <= size[p])
  }

  /** `v` is nothing yet, or a chunk that fits with remainder `rsize`. */
  ghost predicate Candidate(size: Sizes, nb: nat, v: int, rsize: nat)
  {
    if v == 0 then rsize == WORD64 - nb
    else v in size && size[v] >= nb && rsize == size[v] - nb
  }

  /** `size_t` subtraction. */
  function Sub64(a: nat, b: nat): (r: nat)
    requires a < WORD64 && b < WORD64
    ensures r < WORD64
    ensures a >= b ==> r == a - b
    ensures a < b ==> r == WORD64 + a - b
  {
    if a >= b then a - b else WORD64 + a - b
  }

  /** Looking at one chunk keeps the better candidate. */
  lemma {:induction false} Consider(size: Sizes, nb: nat, v: int, rsize: nat, t: int)
    requires 0 < nb < WORD64 && t != 0 && t in size && size[t] < WORD64 && Candidate(size, nb, v, rsize)
    requires v != 0 ==> size[v] < WORD64
    ensures var trem := Sub64(size[t], nb);
      var v', rsize' := if trem < rsize then t else v, if trem < rsize then trem else rsize;
      && Candidate(size, nb, v', rsize')
      && (size[t] >= nb ==> Best(size, v', t))
      && (forall p :: Best(size, v, p) ==> Best(size, v', p))
  {
  }

  /** Every chunk of `t` that fits is accounted for by the candidate or by the two subtrees. */
  ghost predicate Covered(size: Sizes, nb: nat, t: Trie, v: int, u: Trie, rt: Trie)
  {
    forall p :: In(t, p) && p in size && size[p] >= nb ==> Best(size, v, p) || In(u, p) || BelowTrie(size, rt, p)
  }

  /** One level of the descent along the bits of `nb`. */
  lemma {:induction false} DescendStep(size: Sizes, nb: nat, t: Trie, v: int, v': int, u: Trie, rt: Trie, lo: nat, w: nat, b: bool)
    requires Covered(size, nb, t, v, u, rt)
    requires u.Node? && Ordered(u, size, lo, w) && u.chain[0] in size
    requires lo <= nb < lo + Pow2(w) && w > 0 && (b <==> nb >= lo + Pow2(w - 1))
    requires rt.Node? ==> rt.chain != []
    requires forall q :: In(rt, q) ==> q in size && size[q] >= lo + Pow2(w)
    requires forall p :: Best(size, v, p) ==> Best(size, v', p)
    requires size[u.chain[0]] >= nb ==> Best(size, v', u.chain[0])
    ensures var rt' := if !b && u.right.Node? then u.right else rt;
      var lo' := ChildLo(lo, w, b);
      && Covered(size, nb, t, v', Child(u, b), rt')
      && (rt'.Node? ==> rt'.chain != [])
      && (forall q :: In(rt', q) ==> q in size && size[q] >= lo' + Pow2(w - 1))
  {
    var rt' := if !b && u.right.Node? then u.right else rt;
    forall q | In(u.right, q) ensures In(u, q) && q in size && lo + Pow2(w - 1) <= size[q] < lo + Pow2(w) {
      Halves(u, size, lo, w, q);
      MemberSize(u, size, lo, w, q);
      SizeInRange(u, size, lo, w, size[q]);
    }
    forall p | In(t, p) && p in size && size[p] >= nb
      ensures Best(size, v', p) || In(Child(u, b), p) || BelowTrie(size, rt', p)
    {
      if In(u, p) {
        Halves(u, size, lo, w, p);
        assert u.chain[0] in u.chain;
      } else if BelowTrie(size, rt, p) && rt' != rt {
        if In(rt, p) { assert size[p] >= lo + Pow2(w); }
        else { RootIn(rt); }
      }
    }
  }

  lemma RootIn(t: Trie)
    ensures t.Node? && t.chain != [] ==> In(t, t.chain[0])
  {
  }

  /** One step of the walk to the leftmost leaf. */
  lemma {:induction false} LeftmostStep(size: Sizes, nb: nat, v: int, v': int, u: Trie, lo: nat, w: nat, p: int)
    requires u.Node? && Ordered(u, size, lo, w) && p in size && size[p] >= nb
    requires Best(size, v, p) || BelowTrie(size, u, p)
    requires (v != 0 && v in size && size[v] == nb) || forall q :: In(u, q) ==> q in size && size[q] >= nb
    requires Best(size, v, p) ==> Best(size, v', p)
    requires u.chain[0] in size && (size[u.chain[0]] >= nb ==> Best(size, v', u.chain[0]))
    ensures Best(size, v', p) || BelowTrie(size, if u.left.Node? then u.left else u.right, p)
  {
    if !Best(size, v, p) {
      RootIn(u);
      if In(u, p) {
        Halves(u, size, lo, w, p);
        if In(u.right, p) && u.left.Node? {
          forall q | In(u.left, q) ensures q in size && size[q] <= size[p] {
            assert In(u, q);
            Halves(u, size, lo, w, q);
          }
        }
      }
    }
  }

  /** Chunks of later bins are larger than everything in bin `i`. */
  lemma {:induction false} LaterBin(size: Sizes, i: nat, q: int, p: int)
    requires q in size && p in size && MIN_LARGE_SIZE <= size[q] < TREE_INDEX_LIMIT && MIN_LARGE_SIZE <= size[p] < TREE_INDEX_LIMIT
    requires ComputeTreeIndex(size[q]) == i < ComputeTreeIndex(size[p])
    ensures size[q] < size[p]
  {
    if size[p] <= size[q] { TreeIndexMonotone(size[p], size[q]); }
  }

  /** A request that fits no chunk of its own bin can only be met from later bins, and those always fit. */
  lemma {:induction false} OtherBinFit(size: Sizes, nb: nat, p: int)
    requires p in size && MIN_LARGE_SIZE <= size[p] < TREE_INDEX_LIMIT && MIN_LARGE_SIZE <= nb < TREE_INDEX_LIMIT
    ensures ComputeTreeIndex(size[p]) > ComputeTreeIndex(nb) ==> size[p] >= nb
    ensures ComputeTreeIndex(size[p]) < ComputeTreeIndex(nb) ==> size[p] < nb
  {
    if size[p] <= nb { TreeIndexMonotone(size[p], nb); } else { TreeIndexMonotone(nb, size[p]); }
  }

  /** The walk cannot go wrong below `u`: the fit is exact, or all of `u` fits, or nothing does. */
  ghost predicate Safe(size: Sizes, nb: nat, v: int, u: Trie)
  {
    || (v != 0 && v in size && size[v] == nb)
    || (forall q :: In(u, q) ==> q in size && size[q] >= nb)
    || (forall p :: p in size ==> size[p] < nb)
  }

  /** Whatever `v0` or `u0` accounted for, `v` or `u` still does. */
  ghost predicate Narrowed(size: Sizes, nb: nat, v0: int, u0: Trie, v: int, u: Trie)
  {
    forall p :: p in size && size[p] >= nb && (Best(size, v0, p) || BelowTrie(size, u0, p)) ==> Best(size, v, p) || BelowTrie(size, u, p)
  }

  lemma {:induction false} NarrowStep(size: Sizes, nb: nat, v0: int, u0: Trie, v: int, v': int, u: Trie, lo: nat, w: nat)
    requires Narrowed(size, nb, v0, u0, v, u) && u.Node? && Ordered(u, size, lo, w)
    requires Safe(size, nb, v, u)
    requires forall p :: Best(size, v, p) ==> Best(size, v', p)
    requires u.chain[0] in size && (size[u.chain[0]] >= nb ==> Best(size, v', u.chain[0]))
    ensures Narrowed(size, nb, v0, u0, v', if u.left.Node? then u.left else u.right)
  {
    forall p | p in size && size[p] >= nb && (Best(size, v, p) || BelowTrie(size, u, p))
      ensures Best(size, v', p) || BelowTrie(size, if u.left.Node? then u.left else u.right, p)
    {
      LeftmostStep(size, nb, v, v', u, lo, w, p);
    }
  }

  /** What the descent through bin `t` leaves for the walk: candidate `v` and subtree `u`. */
  ghost predicate Accounted(size: Sizes, nb: nat, t: Trie, v: int, u: Trie)
  {
    forall p :: In(t, p) && p in size && size[p] >= nb ==> Best(size, v, p) || BelowTrie(size, u, p)
  }

  lemma {:induction false} ExactFit(size: Sizes, nb: nat, t: Trie, v: int, u: Trie)
    requires v != 0 && v in size && size[v] == nb
    ensures Accounted(size, nb, t, v, u) && Safe(size, nb, v, u)
  {
  }

  /** The descent has run out of children: what is left is the deepest untaken right subtree. */
  lemma {:induction false} DescentEnds(size: Sizes, nb: nat, t: Trie, v: int, rt: Trie, lo: nat, w: nat)
    requires nb < TREE_INDEX_LIMIT ==>
      && Covered(size, nb, t, v, Nil, rt) && nb < lo + Pow2(w)
      && forall q :: In(rt, q) ==> q in size && size[q] >= lo + Pow2(w)
    requires forall p :: p in size ==> size[p] < TREE_INDEX_LIMIT
    ensures Accounted(size, nb, t, v, rt) && Safe(size, nb, v, rt)
  {
  }

  /** The descent on the bits of `nb`: current subtree `u`, deepest untaken right subtree `rt`. */
  ghost predicate Descending(size: Sizes, nb: nat, t: Trie, v: int, u: Trie, rt: Trie, lo: nat, w: nat, k: nat)
  {
    && KeyFor(k, nb, lo, w) && Covered(size, nb, t, v, u, rt)
    && (rt.Node? ==> rt.chain != [])
    && (forall q :: In(rt, q) ==> q in size && size[q] >= lo + Pow2(w))
  }

  lemma {:induction false} Descent(size: Sizes, nb: nat, t: Trie, v: int, v': int, u: Trie, rt: Trie, lo: nat, w: nat, k: nat)
    requires Descending(size, nb, t, v, u, rt, lo, w, k)
    requires u.Node? && Ordered(u, size, lo, w) && u.chain[0] in size && u.size != nb
    requires forall p :: Best(size, v, p) ==> Best(size, v', p)
    requires size[u.chain[0]] >= nb ==> Best(size, v', u.chain[0])
    ensures w > 0
    ensures Descending(size, nb, t, v', Child(u, TopBit(k)), if !TopBit(k) && u.right.Node? then u.right else rt,
                       ChildLo(lo, w, TopBit(k)), w - 1, NextKey(k))
  {
    assert w > 0;
    KeyDescend(k, nb, lo, w);
    DescendStep(size, nb, t, v, v', u, rt, lo, w, TopBit(k));
  }
}

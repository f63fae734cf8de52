/**
 Circular doubly linked lists threaded through `fd`/`bk` links. A ring is the
 sequence of nodes met by following `fd` once around.
 */
module Ring {

  datatype Link = Link(fd: int, bk: int)

  type Links = map<int, Link>

  ghost predicate NoDup(s: seq<int>) { forall i, j :: 0 <= i < j < |s| ==> s[i] != s[j] }

  /** `q` follows `p`, seen from both ends. */
  ghost predicate Linked(m: Links, p: int, q: int)
  {
    p in m && q in m && m[p].fd == q && m[q].bk == p
  }

  ghost predicate IsRing(m: Links, s: seq<int>)
  {
    && NoDup(s)
    && (forall i, j :: 0 <= i && j == i + 1 && j < |s| ==> Linked(m, s[i], s[j]))
    && (s != [] ==> Linked(m, s[|s| - 1], s[0]))
  }

  lemma {:induction false} RingMembers(m: Links, s: seq<int>, k: nat)
    requires IsRing(m, s) && k < |s|
    ensures s[k] in m
    ensures m[s[k]].fd == s[if k + 1 == |s| then 0 else k + 1]
    ensures m[s[k]].bk == s[if k == 0 then |s| - 1 else k - 1]
  {
    if k + 1 < |s| { assert Linked(m, s[k], s[k + 1]); }
    if k > 0 { assert Linked(m, s[k - 1], s[k]); }
  }

  function SetFd(m: Links, p: int, q: int): (r: Links)
    requires p in m
  {
    m[p := m[p].(fd := q)]
  }

  function SetBk(m: Links, p: int, q: int): (r: Links)
    requires p in m
  {
    m[p := m[p].(bk := q)]
  }

  /** The two maps hold the same links for every node of `a`. */
  ghost predicate SameOn(m: Links, m': Links, a: set<int>)
  {
    forall p :: p in a && p in m ==> p in m' && m'[p] == m[p]
  }

  lemma {:induction false} RingFrame(m: Links, m': Links, s: seq<int>, a: set<int>)
    requires IsRing(m, s) && SameOn(m, m', a) && forall p :: p in s ==> p in a
    ensures IsRing(m', s)
  {
    forall i, j | 0 <= i && j == i + 1 && j < |s|
      ensures Linked(m', s[i], s[j])
    {
      assert Linked(m, s[i], s[j]) && s[i] in s && s[j] in s;
    }
    if s != [] {
      assert Linked(m, s[|s| - 1], s[0]) && s[|s| - 1] in s && s[0] in s;
    }
  }

  /** Splice `x` in just after `t`: T->fd = F->bk = X; X->fd = F; X->bk = T. */
  function InsertAfter(m: Links, t: int, x: int): Links
    requires t in m && m[t].fd in m
  {
    var f := m[t].fd;
    SetFd(SetBk(m, f, x), t, x)[x := Link(f, t)]
  }

  /** Unlink `x`: F->bk = R; R->fd = F. */
  function Remove(m: Links, x: int): Links
    requires x in m && m[x].fd in m && m[x].bk in m
  {
    SetFd(SetBk(m, m[x].fd, m[x].bk), m[x].bk, m[x].fd)
  }

  lemma {:induction false} InsertedAt(s: seq<int>, x: int, s': seq<int>, i: nat)
    requires |s| > 0 && s' == [s[0], x] + s[1..] && i < |s'|
    ensures |s'| == |s| + 1
    ensures s'[i] == if i == 0 then s[0] else if i == 1 then x else s[i - 1]
  {
  }

  lemma {:induction false} InsertAfterHead(m: Links, s: seq<int>, x: int)
    requires IsRing(m, s) && |s| > 0 && x !in s
    ensures s[0] in m && m[s[0]].fd in m && m[s[0]].fd in s
    ensures IsRing(InsertAfter(m, s[0], x), [s[0], x] + s[1..])
  {
    RingMembers(m, s, 0);
    var f := m[s[0]].fd;
    var m' := InsertAfter(m, s[0], x);
    var s' := [s[0], x] + s[1..];
    assert f in m by { RingMembers(m, s, if |s| == 1 then 0 else 1); }
    forall i, j | 0 <= i < j < |s'| ensures s'[i] != s'[j] {
      InsertedAt(s, x, s', i);
      InsertedAt(s, x, s', j);
    }
    forall i, j | 0 <= i && j == i + 1 && j < |s'| ensures Linked(m', s'[i], s'[j]) {
      InsertedAt(s, x, s', i);
      InsertedAt(s, x, s', j);
      if i >= 2 { assert Linked(m, s[i - 1], s[i]); }
    }
    InsertedAt(s, x, s', |s|);
  }

  lemma {:induction false} RemovedAt(s: seq<int>, k: nat, s': seq<int>, i: nat)
    requires k < |s| && s' == s[..k] + s[k + 1..] && i < |s'|
    ensures |s'| == |s| - 1
    ensures s'[i] == if i < k then s[i] else s[i + 1]
  {
  }

  lemma {:induction false} RemoveFromRing(m: Links, s: seq<int>, k: nat)
    requires IsRing(m, s) && k < |s| && |s| >= 2
    ensures s[k] in m && m[s[k]].fd in m && m[s[k]].bk in m
    ensures m[s[k]].fd in s && m[s[k]].bk in s
    ensures IsRing(Remove(m, s[k]), s[..k] + s[k + 1..])
  {
    var n := |s|;
    RingMembers(m, s, k);
    RingMembers(m, s, if k + 1 == n then 0 else k + 1);
    RingMembers(m, s, if k == 0 then n - 1 else k - 1);
    var m' := Remove(m, s[k]);
    var s' := s[..k] + s[k + 1..];
    forall i, j | 0 <= i < j < |s'| ensures s'[i] != s'[j] {
      RemovedAt(s, k, s', i);
      RemovedAt(s, k, s', j);
    }
    forall i, j | 0 <= i && j == i + 1 && j < |s'| ensures Linked(m', s'[i], s'[j]) {
      RemovedAt(s, k, s', i);
      RemovedAt(s, k, s', j);
      if i + 1 != k { assert i < k - 1 ==> Linked(m, s[i], s[i + 1]); assert i >= k ==> Linked(m, s[i + 1], s[i + 2]); }
    }
    RemovedAt(s, k, s', 0);
    RemovedAt(s, k, s', n - 2);
  }

  /** A ring may be read starting from its last node. */
  lemma {:induction false} RotateRing(m: Links, s: seq<int>)
    requires IsRing(m, s) && s != []
    ensures IsRing(m, [s[|s| - 1]] + s[..|s| - 1])
  {
    var n := |s|;
    var s' := [s[n - 1]] + s[..n - 1];
    assert forall i :: 1 <= i < n ==> s'[i] == s[i - 1];
    forall i, j | 0 <= i && j == i + 1 && j < n ensures Linked(m, s'[i], s'[j]) {
      if i > 0 { assert Linked(m, s[i - 1], s[i]); }
    }
    if n > 1 { assert Linked(m, s[n - 2], s[n - 1]); }
  }
}

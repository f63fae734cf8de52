/** Circular queues: elements linked both ways, with the head standing at both ends. */
module CircleQueue {

  datatype Head = Head(first: int, last: int)

  datatype Entry = Entry(next: int, prev: int)

  /** The elements of each queue, from its head on. */
  type Queues = map<int, seq<int>>

  /** The element at i, or the head beyond either end. */
  function Nth(s: seq<int>, h: int, i: int): int { if 0 <= i < |s| then s[i] else h }

  /** The links hold s: next and prev are inverse to each other and meet at the head. */
  ghost predicate Holds(head: Head, links: map<int, Entry>, h: int, s: seq<int>) {
    && head == Head(Nth(s, h, 0), Nth(s, h, |s| - 1))
    && (forall i | 0 <= i < |s| :: LinkedAt(links, h, s, i))
  }

  ghost predicate LinkedAt(links: map<int, Entry>, h: int, s: seq<int>, i: int) {
    0 <= i < |s| && s[i] in links && links[s[i]] == Entry(Nth(s, h, i + 1), Nth(s, h, i - 1))
  }

  /** No element is a head, twice in a queue, or in two queues. */
  ghost predicate Separate(q: Queues) {
    && (forall h, e | h in q && e in q[h] :: e !in q)
    && (forall h | h in q :: Distinct(q[h]))
    && (forall g, h, e | g in q && h in q && e in q[g] && e in q[h] :: g == h)
  }

  ghost predicate Unused(q: Queues, e: int) { e !in q && forall h | h in q :: e !in q[h] }

  ghost predicate Distinct(s: seq<int>) { forall i, j | 0 <= i < j < |s| :: s[i] != s[j] }

  // Changing the links of one queue.

  function SetNext(m: map<int, Entry>, e: int, x: int): map<int, Entry>
    requires e in m
  { m[e := m[e].(next := x)] }

  function SetPrev(m: map<int, Entry>, e: int, x: int): map<int, Entry>
    requires e in m
  { m[e := m[e].(prev := x)] }

  /** Only elements of s have changed. */
  ghost predicate OnlyOf(s: seq<int>, links: map<int, Entry>, links': map<int, Entry>) {
    links.Keys <= links'.Keys && forall e | e in links && e !in s :: links'[e] == links[e]
  }

  /** Going round from the head meets s forward through next and backward through prev, and each undoes the other. */
  lemma {:induction false} Inverse(head: Head, links: map<int, Entry>, h: int, s: seq<int>, i: nat)
    requires Holds(head, links, h, s) && h !in s && i < |s|
    ensures s[i] in links
    ensures var next := links[s[i]].next; if next == h then head.last == s[i] else next in links && links[next].prev == s[i]
    ensures var prev := links[s[i]].prev; if prev == h then head.first == s[i] else prev in links && links[prev].next == s[i]
  {
    assert LinkedAt(links, h, s, i);
    assert i + 1 < |s| ==> LinkedAt(links, h, s, i + 1);
    assert i > 0 ==> LinkedAt(links, h, s, i - 1);
  }

  lemma {:induction false} Ends(head: Head, links: map<int, Entry>, h: int, s: seq<int>)
    requires Holds(head, links, h, s) && h !in s
    ensures head.first == h <==> s == []
    ensures head.last == h <==> s == []
    ensures s != [] ==> head.first == s[0] && head.last == s[|s| - 1] && s[0] in s && s[|s| - 1] in s
    ensures s != [] ==> s[0] in links && s[|s| - 1] in links
  {
    if s != [] { assert LinkedAt(links, h, s, 0) && LinkedAt(links, h, s, |s| - 1); }
  }

  lemma {:induction false} Appended(head: Head, links: map<int, Entry>, links': map<int, Entry>, h: int, s: seq<int>, e: int)
    requires Holds(head, links, h, s) && Distinct(s) && e !in s && h !in s && e != h && (s != [] ==> head.last in links)
    requires var m := links[e := Entry(h, head.last)];
             links' == if s == [] then m else SetNext(m, head.last, e)
    ensures Holds(Head(if s == [] then e else head.first, e), links', h, s + [e]) && OnlyOf(s + [e], links, links')
  {
    var t := s + [e];
    forall i | 0 <= i < |t| ensures LinkedAt(links', h, t, i) {
      if i < |s| { assert t[i] == s[i] && LinkedAt(links, h, s, i); }
    }
    if s != [] { assert head.last == t[|s| - 1]; }
  }

  lemma {:induction false} Prepended(head: Head, links: map<int, Entry>, links': map<int, Entry>, h: int, s: seq<int>, e: int)
    requires Holds(head, links, h, s) && Distinct(s) && e !in s && h !in s && e != h && (s != [] ==> head.first in links)
    requires var m := links[e := Entry(head.first, h)];
             links' == if s == [] then m else SetPrev(m, head.first, e)
    ensures Holds(Head(e, if s == [] then e else head.last), links', h, [e] + s) && OnlyOf([e] + s, links, links')
  {
    var t := [e] + s;
    forall i | 0 <= i < |t| ensures LinkedAt(links', h, t, i) {
      if i > 0 { assert t[i] == s[i - 1] && LinkedAt(links, h, s, i - 1); }
    }
    if s != [] { assert head.first == t[1]; }
  }

  /** Where the i-th element stood before the k-th was taken out. */
  function Skip(k: int, i: int): int { if i < k then i else i + 1 }

  lemma {:induction false} DropNth(s: seq<int>, h: int, k: nat, i: int)
    requires k < |s| && -1 <= i < |s|
    ensures Nth(s[..k] + s[k + 1..], h, i) == Nth(s, h, Skip(k, i))
  {}

  /** The neighbours of an element are met from both sides, or are the head. */
  lemma {:induction false} Neighbours(head: Head, links: map<int, Entry>, h: int, s: seq<int>, k: nat)
    requires Holds(head, links, h, s) && h !in s && k < |s|
    ensures s[k] in links && links[s[k]].next == Nth(s, h, k + 1) && links[s[k]].prev == Nth(s, h, k - 1)
    ensures links[s[k]].next == h <==> k == |s| - 1
    ensures links[s[k]].prev == h <==> k == 0
    ensures k + 1 < |s| ==> s[k + 1] in links && s[k + 1] in s
    ensures k > 0 ==> s[k - 1] in links && s[k - 1] in s
  {
    assert LinkedAt(links, h, s, k);
    assert k + 1 < |s| ==> LinkedAt(links, h, s, k + 1);
    assert k > 0 ==> LinkedAt(links, h, s, k - 1);
  }

  /** The links after s[k] is taken out. */
  function Bypass(links: map<int, Entry>, h: int, s: seq<int>, k: nat): map<int, Entry>
    requires k < |s| && (k + 1 < |s| ==> s[k + 1] in links) && (k > 0 ==> s[k - 1] in links)
  {
    var m := if k + 1 < |s| then SetPrev(links, s[k + 1], Nth(s, h, k - 1)) else links;
    if k > 0 then SetNext(m, s[k - 1], Nth(s, h, k + 1)) else m
  }

  lemma {:induction false} BypassAt(links: map<int, Entry>, h: int, s: seq<int>, k: nat, i: nat)
    requires Distinct(s) && k < |s| && i < |s| - 1 && (k + 1 < |s| ==> s[k + 1] in links) && (k > 0 ==> s[k - 1] in links)
    requires LinkedAt(links, h, s, Skip(k, i))
    ensures Bypass(links, h, s, k)[s[Skip(k, i)]] == Entry(Nth(s, h, Skip(k, i + 1)), Nth(s, h, Skip(k, i - 1)))
  {}

  /** The head once s[k] is taken out. */
  function EndsWithout(head: Head, h: int, s: seq<int>, k: nat): Head {
    Head(if k == 0 then Nth(s, h, 1) else head.first, if k == |s| - 1 then Nth(s, h, k - 1) else head.last)
  }

  lemma {:induction false} TakenOut(head: Head, links: map<int, Entry>, h: int, s: seq<int>, k: nat)
    requires Holds(head, links, h, s) && Distinct(s) && h !in s && k < |s|
    requires (k + 1 < |s| ==> s[k + 1] in links) && (k > 0 ==> s[k - 1] in links)
    ensures Holds(EndsWithout(head, h, s, k), Bypass(links, h, s, k), h, s[..k] + s[k + 1..])
    ensures OnlyOf(s, links, Bypass(links, h, s, k))
  {
    var t := s[..k] + s[k + 1..];
    var links' := Bypass(links, h, s, k);
    forall i | 0 <= i < |t| ensures LinkedAt(links', h, t, i) {
      DropNth(s, h, k, i);
      DropNth(s, h, k, i + 1);
      DropNth(s, h, k, i - 1);
      assert LinkedAt(links, h, s, Skip(k, i));
      BypassAt(links, h, s, k, i);
      assert t[i] == s[Skip(k, i)];
    }
    DropNth(s, h, k, 0);
    DropNth(s, h, k, |t| - 1);
  }

  lemma {:induction false} Joined(src: Head, dst: Head, links: map<int, Entry>, links': map<int, Entry>, g: int, h: int, s: seq<int>, t: seq<int>)
    requires Holds(src, links, g, s) && Holds(dst, links, h, t) && s != [] && h !in t && g !in s && h !in s
    requires Distinct(s) && Distinct(t) && forall e | e in s :: e !in t
    requires src.first in links && src.last in links && (t != [] ==> dst.last in links)
    requires (dst.first == h <==> t == []) && links' == JoinedLinks(links, src, dst, h)
    ensures Holds(Head(if t == [] then src.first else dst.first, src.last), links', h, t + s)
    ensures OnlyOf(t + s, links, links')
  {
    var u := t + s;
    assert s[0] in s && s[|s| - 1] in s && (t != [] ==> t[|t| - 1] in t);
    forall i | 0 <= i < |u| ensures LinkedAt(links', h, u, i) {
      if i < |t| {
        assert u[i] == t[i] && t[i] in t && LinkedAt(links, h, t, i);
      } else {
        assert u[i] == s[i - |t|] && s[i - |t|] in s && LinkedAt(links, g, s, i - |t|);
      }
    }
  }

  function JoinedLinks(links: map<int, Entry>, src: Head, dst: Head, h: int): map<int, Entry>
    requires src.first in links && src.last in links && (dst.first != h ==> dst.last in links)
  {
    var m := SetNext(SetPrev(links, src.first, dst.last), src.last, h);
    if dst.first == h then m else SetNext(m, dst.last, src.first)
  }

  // Every queue at once.

  ghost predicate AllHold(heads: map<int, Head>, links: map<int, Entry>, q: Queues) {
    heads.Keys == q.Keys && Separate(q) && forall h | h in q :: Holds(heads[h], links, h, q[h])
  }

  /** Queues other than the ones changed still hold what they did. */
  lemma {:induction false} OthersHold(heads: map<int, Head>, links: map<int, Entry>, q: Queues,
                                      heads': map<int, Head>, links': map<int, Entry>, q': Queues, changed: set<int>, s: seq<int>)
    requires AllHold(heads, links, q) && Separate(q') && heads'.Keys == q'.Keys == q.Keys
    requires forall h | h in q && h in changed :: Holds(heads'[h], links', h, q'[h])
    requires forall h | h in q && h !in changed :: heads'[h] == heads[h] && q'[h] == q[h]
    requires OnlyOf(s, links, links')
    requires forall h, e | h in q && h !in changed && e in q[h] :: e !in s
    ensures AllHold(heads', links', q')
  {
    forall h | h in q && h !in changed ensures Holds(heads'[h], links', h, q'[h]) {
      assert Holds(heads[h], links, h, q[h]);
      forall i | 0 <= i < |q[h]| ensures LinkedAt(links', h, q[h], i) {
        assert q[h][i] in q[h] && LinkedAt(links, h, q[h], i);
      }
    }
  }

  lemma {:induction false} SeparateWith(q: Queues, h: int, e: int)
    requires Separate(q) && h in q && Unused(q, e)
    ensures Separate(q[h := [e] + q[h]]) && Separate(q[h := q[h] + [e]])
  {}

  /** Where an element stands in its queue. */
  function Place(s: seq<int>, e: int): (k: nat)
    requires e in s
    ensures k < |s| && s[k] == e
  { if s[0] == e then 0 else 1 + Place(s[1..], e) }

  function Dropped(s: seq<int>, e: int): seq<int>
    requires e in s
  { s[..Place(s, e)] + s[Place(s, e) + 1..] }

  lemma {:induction false} SeparateWithout(q: Queues, h: int, e: int)
    requires Separate(q) && h in q && e in q[h]
    ensures Separate(q[h := Dropped(q[h], e)]) && Unused(q[h := Dropped(q[h], e)], e)
  {}

  function Spliced(q: Queues, src: int, dst: int): Queues
    requires src in q && dst in q
  { q[dst := q[dst] + q[src]][src := []] }

  lemma {:induction false} SeparateSpliced(q: Queues, src: int, dst: int)
    requires Separate(q) && src in q && dst in q && src != dst
    ensures Separate(Spliced(q, src, dst))
  {
    assert Distinct(q[dst] + q[src]) by {
      var s := q[dst] + q[src];
      forall i, j | 0 <= i < j < |s| ensures s[i] != s[j] {
        assert i < |q[dst]| ==> s[i] == q[dst][i] && s[i] in q[dst];
        assert j >= |q[dst]| ==> s[j] == q[src][j - |q[dst]|] && s[j] in q[src];
      }
    }
  }

  lemma {:induction false} SpliceHolds(heads: map<int, Head>, links: map<int, Entry>, q: Queues, src: int, dst: int)
    requires AllHold(heads, links, q) && src in q && dst in q && src != dst && q[src] != []
    requires heads[src].first in links && heads[src].last in links && (heads[dst].first != dst ==> heads[dst].last in links)
    ensures var from, to := heads[src], heads[dst];
            var joined := Head(if to.first == dst then from.first else to.first, from.last);
            AllHold(heads[dst := joined][src := Head(src, src)], JoinedLinks(links, from, to, dst), Spliced(q, src, dst))
  {
    var from, to := heads[src], heads[dst];
    Ends(to, links, dst, q[dst]);
    SeparateSpliced(q, src, dst);
    var links' := JoinedLinks(links, from, to, dst);
    Joined(from, to, links, links', src, dst, q[src], q[dst]);
    var joined := Head(if to.first == dst then from.first else to.first, from.last);
    OthersHold(heads, links, q, heads[dst := joined][src := Head(src, src)], links', Spliced(q, src, dst), {src, dst}, q[dst] + q[src]);
  }

  lemma {:induction false} RemoveHolds(heads: map<int, Head>, links: map<int, Entry>, q: Queues, h: int, e: int)
    requires AllHold(heads, links, q) && h in q && e in q[h]
    requires var k: int := Place(q[h], e);
             (k + 1 < |q[h]| ==> q[h][k + 1] in links) && (k > 0 ==> q[h][k - 1] in links)
    ensures var s, k := q[h], Place(q[h], e);
            AllHold(heads[h := EndsWithout(heads[h], h, s, k)], Bypass(links, h, s, k), q[h := Dropped(s, e)])
  {
    var s, k := q[h], Place(q[h], e);
    var head := EndsWithout(heads[h], h, s, k);
    assert Holds(heads[h], links, h, s);
    TakenOut(heads[h], links, h, s, k);
    SeparateWithout(q, h, e);
    OthersHold(heads, links, q, heads[h := head], Bypass(links, h, s, k), q[h := Dropped(s, e)], {h}, s);
  }

  class Lists {
    var heads: map<int, Head>
    var links: map<int, Entry>
    ghost var q: Queues

    ghost predicate Valid()
      reads this
    {
      AllHold(heads, links, q)
    }

    constructor (hs: set<int>)
      ensures Valid() && q == map h | h in hs :: []
    {
      heads := map h | h in hs :: Head(h, h);
      links := map[];
      q := map h | h in hs :: [];
    }

    method InsertHead(h: int, e: int)
      requires Valid() && h in q && Unused(q, e)
      modifies this
      ensures Valid() && q == old(q)[h := [e] + old(q[h])]
    {
      ghost var before, headsBefore := links, heads;
      Ends(heads[h], links, h, q[h]);
      links := links[e := Entry(heads[h].first, h)];
      if heads[h].last == h {
        heads := heads[h := heads[h].(last := e)];
      } else {
        links := SetPrev(links, heads[h].first, e);
      }
      heads := heads[h := heads[h].(first := e)];
      Prepended(headsBefore[h], before, links, h, q[h], e);
      SeparateWith(q, h, e);
      OthersHold(headsBefore, before, q, heads, links, q[h := [e] + q[h]], {h}, [e] + q[h]);
      q := q[h := [e] + q[h]];
    }

    method InsertTail(h: int, e: int)
      requires Valid() && h in q && Unused(q, e)
      modifies this
      ensures Valid() && q == old(q)[h := old(q[h]) + [e]]
    {
      ghost var before, headsBefore := links, heads;
      Ends(heads[h], links, h, q[h]);
      links := links[e := Entry(h, heads[h].last)];
      if heads[h].first == h {
        heads := heads[h := heads[h].(first := e)];
      } else {
        links := SetNext(links, heads[h].last, e);
      }
      heads := heads[h := heads[h].(last := e)];
      Appended(headsBefore[h], before, links, h, q[h], e);
      SeparateWith(q, h, e);
      OthersHold(headsBefore, before, q, heads, links, q[h := q[h] + [e]], {h}, q[h] + [e]);
      q := q[h := q[h] + [e]];
    }

    method Remove(h: int, e: int)
      requires Valid() && h in q && e in q[h]
      modifies this
      ensures Valid() && q == old(q)[h := Dropped(old(q[h]), e)] && Unused(q, e)
    {
      ghost var k := Place(q[h], e);
      Neighbours(heads[h], links, h, q[h], k);
      SeparateWithout(q, h, e);
      RemoveHolds(heads, links, q, h, e);
      ghost var after, head := Bypass(links, h, q[h], k), EndsWithout(heads[h], h, q[h], k);
      ghost var headsAfter := heads[h := head];
      var next, prev := links[e].next, links[e].prev;
      if next == h {
        heads := heads[h := heads[h].(last := prev)];
      } else {
        links := SetPrev(links, next, prev);
      }
      if prev == h {
        heads := heads[h := heads[h].(first := next)];
      } else {
        links := SetNext(links, prev, next);
      }
      assert links == after;
      assert heads == headsAfter by { assert heads[h] == head; }
      q := q[h := Dropped(q[h], e)];
    }

    /** Moves every element of one queue to the end of another. */
    method SpliceTail(src: int, dst: int)
      requires Valid() && src in q && dst in q && src != dst
      modifies this
      ensures Valid() && q == Spliced(old(q), src, dst)
    {
      Ends(heads[src], links, src, q[src]);
      Ends(heads[dst], links, dst, q[dst]);
      if heads[src].first == src {
        assert q[dst] + q[src] == q[dst] && q == Spliced(q, src, dst);
        return;
      }
      SpliceHolds(heads, links, q, src, dst);
      ghost var after := JoinedLinks(links, heads[src], heads[dst], dst);
      links := SetPrev(links, heads[src].first, heads[dst].last);
      links := SetNext(links, heads[src].last, dst);
      if heads[dst].first == dst {
        heads := heads[dst := heads[dst].(first := heads[src].first)];
      } else {
        links := SetNext(links, heads[dst].last, heads[src].first);
      }
      heads := heads[dst := heads[dst].(last := heads[src].last)];
      heads := heads[src := Head(src, src)];
      assert links == after;
      q := Spliced(q, src, dst);
    }

    /** The elements met going forward. */
    method Forward(h: int) returns (s: seq<int>)
      requires Valid() && h in q
      ensures s == q[h]
    {
      s := [];
      var e := heads[h].first;
      while e != h
        invariant s <= q[h] && e == Nth(q[h], h, |s|)
        decreases |q[h]| - |s|
      {
        assert LinkedAt(links, h, q[h], |s|);
        s := s + [e];
        e := links[e].next;
      }
    }

    /** The elements met going backward. */
    method Backward(h: int) returns (s: seq<int>)
      requires Valid() && h in q
      ensures |s| == |q[h]| && forall i | 0 <= i < |s| :: s[i] == q[h][|s| - 1 - i]
    {
      s := [];
      var e := heads[h].last;
      while e != h
        invariant |s| <= |q[h]| && forall i | 0 <= i < |s| :: s[i] == q[h][|q[h]| - 1 - i]
        invariant e == Nth(q[h], h, |q[h]| - 1 - |s|)
        decreases |q[h]| - |s|
      {
        assert LinkedAt(links, h, q[h], |q[h]| - 1 - |s|);
        s := s + [e];
        e := links[e].prev;
      }
    }
  }
}

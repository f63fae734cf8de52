/** Singly linked tail queues: a head with the first element and the address of the last link. */
module TailQueue {

  const NULL: int := 0

  /** The address of a link: the first pointer of a head, or the next pointer of an element. */
  datatype Cell = First(head: int) | Next(elem: int)

  type Queues = map<int, seq<int>>

  /** The address of the link that leads to the i-th element. */
  function CellAt(s: seq<int>, h: int, i: int): Cell
    requires 0 <= i <= |s|
  { if i == 0 then First(h) else Next(s[i - 1]) }

  ghost predicate LinkedAt(cells: map<Cell, int>, h: int, s: seq<int>, i: int) {
    && 0 <= i <= |s| && CellAt(s, h, i) in cells
    && cells[CellAt(s, h, i)] == if i < |s| then s[i] else NULL
  }

  /** The links hold s, and the tail pointer is the address of the last link. */
  ghost predicate Holds(cells: map<Cell, int>, last: Cell, h: int, s: seq<int>) {
    && last == CellAt(s, h, |s|)
    && forall i | 0 <= i <= |s| :: LinkedAt(cells, h, s, i)
  }

  ghost predicate Distinct(s: seq<int>) { forall i, j | 0 <= i < j < |s| :: s[i] != s[j] }

  /** No element is null, twice in a queue, or in two queues. */
  ghost predicate Separate(q: Queues) {
    && (forall h | h in q :: Distinct(q[h]) && NULL !in q[h])
    && (forall g, h, e | g in q && h in q && e in q[g] && e in q[h] :: g == h)
  }

  ghost predicate Unused(q: Queues, e: int) { e != NULL && forall h | h in q :: e !in q[h] }

  ghost predicate AllHold(cells: map<Cell, int>, last: map<int, Cell>, q: Queues) {
    last.Keys == q.Keys && Separate(q) && forall h | h in q :: Holds(cells, last[h], h, q[h])
  }

  /** A cell of the queue s at h. */
  ghost predicate CellOf(h: int, s: seq<int>, c: Cell) { c == First(h) || exists e | e in s :: c == Next(e) }

  lemma {:induction false} CellsOf(h: int, s: seq<int>, i: nat)
    requires i <= |s|
    ensures CellOf(h, s, CellAt(s, h, i))
  {
    if i > 0 { assert s[i - 1] in s; }
  }

  /** The queues whose cells were left alone still hold what they did. */
  lemma {:induction false} OthersHold(cells: map<Cell, int>, last: map<int, Cell>, q: Queues,
                                      cells': map<Cell, int>, last': map<int, Cell>, q': Queues, changed: set<int>)
    requires AllHold(cells, last, q) && Separate(q') && last'.Keys == q'.Keys == q.Keys && cells.Keys <= cells'.Keys
    requires forall h | h in q && h in changed :: Holds(cells', last'[h], h, q'[h])
    requires forall h | h in q && h !in changed :: last'[h] == last[h] && q'[h] == q[h]
    requires forall h, c | h in q && h !in changed && CellOf(h, q[h], c) && c in cells :: cells'[c] == cells[c]
    ensures AllHold(cells', last', q')
  {
    forall h | h in q && h !in changed ensures Holds(cells', last'[h], h, q'[h]) {
      assert Holds(cells, last[h], h, q[h]);
      forall i | 0 <= i <= |q[h]| ensures LinkedAt(cells', h, q[h], i) {
        assert LinkedAt(cells, h, q[h], i);
        CellsOf(h, q[h], i);
      }
    }
  }

  // Changing the links of one queue.

  lemma {:induction false} Appended(cells: map<Cell, int>, last: Cell, h: int, s: seq<int>, e: int)
    requires Holds(cells, last, h, s) && Distinct(s) && e !in s
    ensures Holds(cells[Next(e) := NULL][last := e], Next(e), h, s + [e])
  {
    var t, cells' := s + [e], cells[Next(e) := NULL][last := e];
    forall i | 0 <= i <= |t| ensures LinkedAt(cells', h, t, i) {
      if i <= |s| {
        assert LinkedAt(cells, h, s, i) && CellAt(t, h, i) == CellAt(s, h, i);
      }
    }
  }

  lemma {:induction false} Prepended(cells: map<Cell, int>, last: Cell, h: int, s: seq<int>, e: int)
    requires Holds(cells, last, h, s) && Distinct(s) && e !in s && NULL !in s && First(h) in cells
    ensures cells[First(h)] == NULL <==> s == []
    ensures Holds(cells[Next(e) := cells[First(h)]][First(h) := e], if s == [] then Next(e) else last, h, [e] + s)
  {
    var t, cells' := [e] + s, cells[Next(e) := cells[First(h)]][First(h) := e];
    assert LinkedAt(cells, h, s, 0);
    forall i | 0 <= i <= |t| ensures LinkedAt(cells', h, t, i) {
      if i > 0 { assert LinkedAt(cells, h, s, i - 1); }
    }
  }

  lemma {:induction false} Shifted(cells: map<Cell, int>, last: Cell, h: int, s: seq<int>)
    requires Holds(cells, last, h, s) && Distinct(s) && s != [] && NULL !in s
    ensures First(h) in cells && cells[First(h)] == s[0] && Next(s[0]) in cells
    ensures cells[Next(s[0])] == NULL <==> |s| == 1
    ensures Holds(cells[First(h) := cells[Next(s[0])]], if |s| == 1 then First(h) else last, h, s[1..])
  {
    assert LinkedAt(cells, h, s, 0) && LinkedAt(cells, h, s, 1);
    var t, cells' := s[1..], cells[First(h) := cells[Next(s[0])]];
    forall i | 0 <= i <= |t| ensures LinkedAt(cells', h, t, i) { assert LinkedAt(cells, h, s, i + 1); }
  }

  /** One queue after another, the first cell of the second left behind. */
  lemma {:induction false} Joined(cells: map<Cell, int>, last1: Cell, last2: Cell, g: int, h: int, s: seq<int>, t: seq<int>)
    requires Holds(cells, last1, g, s) && Holds(cells, last2, h, t) && t != [] && g != h
    requires Distinct(s) && Distinct(t) && forall e | e in s :: e !in t
    ensures First(h) in cells && Holds(cells[last1 := cells[First(h)]][First(h) := NULL], last2, g, s + t)
    ensures Holds(cells[last1 := cells[First(h)]][First(h) := NULL], First(h), h, [])
  {
    assert LinkedAt(cells, h, t, 0);
    var u, cells' := s + t, cells[last1 := cells[First(h)]][First(h) := NULL];
    forall i | 0 <= i <= |u| ensures LinkedAt(cells', g, u, i) {
      if i <= |s| {
        assert LinkedAt(cells, g, s, i) && CellAt(u, g, i) == CellAt(s, g, i);
      } else {
        assert LinkedAt(cells, h, t, i - |s|) && u[i - 1] == t[i - |s| - 1] && u[i - 1] in t;
      }
    }
    assert LinkedAt(cells', h, [], 0);
  }

  /** The whole queue moved to the head of an empty one. */
  lemma {:induction false} Moved(cells: map<Cell, int>, last: Cell, g: int, h: int, s: seq<int>)
    requires Holds(cells, last, h, s) && s != [] && g != h && Distinct(s)
    ensures First(h) in cells && Holds(cells[First(g) := cells[First(h)]][First(h) := NULL], last, g, s)
    ensures Holds(cells[First(g) := cells[First(h)]][First(h) := NULL], First(h), h, [])
  {
    assert LinkedAt(cells, h, s, 0);
    var cells' := cells[First(g) := cells[First(h)]][First(h) := NULL];
    forall i | 0 <= i <= |s| ensures LinkedAt(cells', g, s, i) { assert LinkedAt(cells, h, s, i); }
    assert LinkedAt(cells', h, [], 0);
  }

  function Concatenated(q: Queues, src: int, dst: int, s: seq<int>): Queues { q[dst := s][src := []] }

  lemma {:induction false} SeparateJoined(q: Queues, src: int, dst: int)
    requires Separate(q) && src in q && dst in q && src != dst
    ensures Separate(Concatenated(q, src, dst, q[dst] + q[src])) && Separate(Concatenated(q, src, dst, q[src] + q[dst]))
  {
    DistinctJoined(q[dst], q[src]);
    DistinctJoined(q[src], q[dst]);
  }

  lemma {:induction false} DistinctJoined(s: seq<int>, t: seq<int>)
    requires Distinct(s) && Distinct(t) && forall e | e in s :: e !in t
    ensures Distinct(s + t)
  {
    var u := s + t;
    forall i, j | 0 <= i < j < |u| ensures u[i] != u[j] {
      assert i < |s| ==> u[i] == s[i] && s[i] in s;
      assert j >= |s| ==> u[j] == t[j - |s|] && t[j - |s|] in t;
    }
  }

  lemma {:induction false} SeparateWith(q: Queues, h: int, e: int)
    requires Separate(q) && h in q && Unused(q, e)
    ensures Separate(q[h := [e] + q[h]]) && Separate(q[h := q[h] + [e]])
  {}

  lemma {:induction false} SeparateTail(q: Queues, h: int)
    requires Separate(q) && h in q && q[h] != []
    ensures Separate(q[h := q[h][1..]]) && Unused(q[h := q[h][1..]], q[h][0])
  {}

  class Lists {
    var cells: map<Cell, int>
    var last: map<int, Cell>
    ghost var q: Queues

    ghost predicate Valid()
      reads this
    {
      AllHold(cells, last, q)
    }

    constructor (hs: set<int>)
      ensures Valid() && q == map h | h in hs :: []
    {
      cells := map h | h in hs :: First(h) := NULL;
      last := map h | h in hs :: First(h);
      q := map h | h in hs :: [];
      new;
      forall h | h in q ensures Holds(cells, last[h], h, q[h]) { assert First(h) in cells && LinkedAt(cells, h, q[h], 0); }
    }

    method InsertTail(h: int, e: int)
      requires Valid() && h in q && Unused(q, e)
      modifies this
      ensures Valid() && q == old(q)[h := old(q[h]) + [e]]
    {
      SeparateWith(q, h, e);
      Appended(cells, last[h], h, q[h], e);
      CellsOf(h, q[h], |q[h]|);
      ghost var before, lastBefore := cells, last;
      cells := cells[Next(e) := NULL];
      cells := cells[last[h] := e];
      last := last[h := Next(e)];
      OthersHold(before, lastBefore, q, cells, last, q[h := q[h] + [e]], {h});
      q := q[h := q[h] + [e]];
    }

    method InsertHead(h: int, e: int)
      requires Valid() && h in q && Unused(q, e)
      modifies this
      ensures Valid() && q == old(q)[h := [e] + old(q[h])]
    {
      SeparateWith(q, h, e);
      assert LinkedAt(cells, h, q[h], 0);
      Prepended(cells, last[h], h, q[h], e);
      ghost var before, lastBefore := cells, last;
      cells := cells[Next(e) := cells[First(h)]];
      if cells[Next(e)] == NULL { last := last[h := Next(e)]; }
      cells := cells[First(h) := e];
      OthersHold(before, lastBefore, q, cells, last, q[h := [e] + q[h]], {h});
      q := q[h := [e] + q[h]];
    }

    /** Takes the first element; the source asks for a queue that is not empty. */
    method RemoveHead(h: int)
      requires Valid() && h in q && q[h] != []
      modifies this
      ensures Valid() && q == old(q)[h := old(q[h])[1..]] && Unused(q, old(q[h][0]))
    {
      SeparateTail(q, h);
      Shifted(cells, last[h], h, q[h]);
      ghost var before, lastBefore := cells, last;
      cells := cells[First(h) := cells[Next(cells[First(h)])]];
      if cells[First(h)] == NULL { last := last[h := First(h)]; }
      OthersHold(before, lastBefore, q, cells, last, q[h := q[h][1..]], {h});
      q := q[h := q[h][1..]];
    }

    /** Puts the elements of one queue at the end of another. */
    method Concat(dst: int, src: int)
      requires Valid() && src in q && dst in q && src != dst
      modifies this
      ensures Valid() && q == Concatenated(old(q), src, dst, old(q[dst]) + old(q[src]))
    {
      Firsts(cells, last, q, src);
      Firsts(cells, last, q, dst);
      if cells[First(src)] == NULL {
        assert q[dst] + q[src] == q[dst] && q == Concatenated(q, src, dst, q[dst]);
        return;
      }
      ConcatHolds(cells, last, q, src, dst);
      q := Concatenated(q, src, dst, q[dst] + q[src]);
      cells := cells[last[dst] := cells[First(src)]];
      last := last[dst := last[src]];
      cells := cells[First(src) := NULL];
      last := last[src := First(src)];
    }

    /** Puts the elements of one queue before those of another. */
    method ConcatToHead(src: int, dst: int)
      requires Valid() && src in q && dst in q && src != dst
      modifies this
      ensures Valid() && q == Concatenated(old(q), src, dst, old(q[src]) + old(q[dst]))
    {
      Firsts(cells, last, q, src);
      Firsts(cells, last, q, dst);
      if cells[First(src)] == NULL {
        assert q[src] + q[dst] == q[dst] && q == Concatenated(q, src, dst, q[dst]);
        return;
      }
      LeadHolds(cells, last, q, src, dst);
      q := Concatenated(q, src, dst, q[src] + q[dst]);
      if cells[First(dst)] == NULL {
        cells := cells[First(dst) := cells[First(src)]];
        last := last[dst := last[src]];
      } else {
        cells := cells[last[src] := cells[First(dst)]];
        cells := cells[First(dst) := cells[First(src)]];
      }
      cells := cells[First(src) := NULL];
      last := last[src := First(src)];
    }

    /** The elements met from the first on. */
    method Forward(h: int) returns (s: seq<int>)
      requires Valid() && h in q
      ensures s == q[h]
    {
      s := [];
      Firsts(cells, last, q, h);
      var e := cells[First(h)];
      while e != NULL
        invariant s <= q[h] && (e == NULL <==> |s| == |q[h]|) && e == if |s| < |q[h]| then q[h][|s|] else NULL
        decreases |q[h]| - |s|
      {
        s := s + [e];
        assert LinkedAt(cells, h, q[h], |s|) && (|s| < |q[h]| ==> q[h][|s|] in q[h]);
        e := cells[Next(e)];
      }
    }
  }

  lemma {:induction false} Firsts(cells: map<Cell, int>, last: map<int, Cell>, q: Queues, h: int)
    requires AllHold(cells, last, q) && h in q
    ensures First(h) in cells && last[h] in cells && (cells[First(h)] == NULL <==> q[h] == [])
    ensures q[h] != [] ==> cells[First(h)] == q[h][0]
  {
    assert LinkedAt(cells, h, q[h], 0) && LinkedAt(cells, h, q[h], |q[h]|);
    if q[h] != [] { assert q[h][0] in q[h]; }
  }

  /** s led in before t, when neither is empty. */
  lemma {:induction false} Led(cells: map<Cell, int>, last1: Cell, last2: Cell, g: int, h: int, s: seq<int>, t: seq<int>)
    requires Holds(cells, last1, g, s) && Holds(cells, last2, h, t) && s != [] && t != [] && g != h
    requires Distinct(s) && Distinct(t) && forall e | e in s :: e !in t
    ensures First(g) in cells && First(h) in cells
    ensures var m := cells[last1 := cells[First(h)]][First(h) := cells[First(g)]][First(g) := NULL];
            Holds(m, last2, h, s + t) && Holds(m, First(g), g, [])
  {
    assert LinkedAt(cells, g, s, 0) && LinkedAt(cells, h, t, 0);
    var u, m := s + t, cells[last1 := cells[First(h)]][First(h) := cells[First(g)]][First(g) := NULL];
    forall i | 0 <= i <= |u| ensures LinkedAt(m, h, u, i) {
      if i <= |s| {
        assert LinkedAt(cells, g, s, i) && (i > 0 ==> u[i - 1] == s[i - 1]);
      } else {
        assert LinkedAt(cells, h, t, i - |s|) && u[i - 1] == t[i - |s| - 1] && u[i - 1] in t;
      }
    }
    assert LinkedAt(m, g, [], 0);
  }

  lemma {:induction false} ConcatHolds(cells: map<Cell, int>, last: map<int, Cell>, q: Queues, src: int, dst: int)
    requires AllHold(cells, last, q) && src in q && dst in q && src != dst && q[src] != []
    requires First(src) in cells && last[dst] in cells
    ensures AllHold(cells[last[dst] := cells[First(src)]][First(src) := NULL], last[dst := last[src]][src := First(src)],
                    Concatenated(q, src, dst, q[dst] + q[src]))
  {
    SeparateJoined(q, src, dst);
    Joined(cells, last[dst], last[src], dst, src, q[dst], q[src]);
    CellsOf(dst, q[dst], |q[dst]|);
    OthersHold(cells, last, q, cells[last[dst] := cells[First(src)]][First(src) := NULL],
               last[dst := last[src]][src := First(src)], Concatenated(q, src, dst, q[dst] + q[src]), {src, dst});
  }

  lemma {:induction false} LeadHolds(cells: map<Cell, int>, last: map<int, Cell>, q: Queues, src: int, dst: int)
    requires AllHold(cells, last, q) && src in q && dst in q && src != dst && q[src] != []
    requires First(src) in cells && First(dst) in cells && last[src] in cells
    ensures cells[First(dst)] == NULL ==>
              AllHold(cells[First(dst) := cells[First(src)]][First(src) := NULL], last[dst := last[src]][src := First(src)],
                      Concatenated(q, src, dst, q[src] + q[dst]))
    ensures cells[First(dst)] != NULL ==>
              AllHold(cells[last[src] := cells[First(dst)]][First(dst) := cells[First(src)]][First(src) := NULL],
                      last[src := First(src)], Concatenated(q, src, dst, q[src] + q[dst]))
  {
    Firsts(cells, last, q, dst);
    if cells[First(dst)] == NULL {
      LeadIntoEmpty(cells, last, q, src, dst);
    } else {
      LeadBefore(cells, last, q, src, dst);
    }
  }

  lemma {:induction false} LeadIntoEmpty(cells: map<Cell, int>, last: map<int, Cell>, q: Queues, src: int, dst: int)
    requires AllHold(cells, last, q) && src in q && dst in q && src != dst && q[src] != [] && q[dst] == []
    requires First(src) in cells && First(dst) in cells && last[src] in cells
    ensures AllHold(cells[First(dst) := cells[First(src)]][First(src) := NULL], last[dst := last[src]][src := First(src)],
                    Concatenated(q, src, dst, q[src] + q[dst]))
  {
    SeparateJoined(q, src, dst);
    Moved(cells, last[src], dst, src, q[src]);
    assert q[src] + q[dst] == q[src];
    OthersHold(cells, last, q, cells[First(dst) := cells[First(src)]][First(src) := NULL],
               last[dst := last[src]][src := First(src)], Concatenated(q, src, dst, q[src] + q[dst]), {src, dst});
  }

  lemma {:induction false} LeadBefore(cells: map<Cell, int>, last: map<int, Cell>, q: Queues, src: int, dst: int)
    requires AllHold(cells, last, q) && src in q && dst in q && src != dst && q[src] != [] && q[dst] != []
    requires First(src) in cells && First(dst) in cells && last[src] in cells
    ensures AllHold(cells[last[src] := cells[First(dst)]][First(dst) := cells[First(src)]][First(src) := NULL],
                    last[src := First(src)], Concatenated(q, src, dst, q[src] + q[dst]))
  {
    SeparateJoined(q, src, dst);
    Led(cells, last[src], last[dst], src, dst, q[src], q[dst]);
    CellsOf(src, q[src], |q[src]|);
    OthersHold(cells, last, q, cells[last[src] := cells[First(dst)]][First(dst) := cells[First(src)]][First(src) := NULL],
               last[src := First(src)], Concatenated(q, src, dst, q[src] + q[dst]), {src, dst});
  }
}

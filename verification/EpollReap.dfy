/** The reap loop of the manager thread, run without other threads inserting. */
module EpollReap {
  import opened Common
  import opened EpollState
  import opened EpollSteps
  import opened EpollCounts
  import opened EpollHandles
  import opened EpollManager
  import opened EpollRuns

  /** The handles of q whose callback is queued, in order. */
  function Pending(handles: seq<Handle>, q: seq<nat>): (p: seq<nat>)
    requires forall i | 0 <= i < |q| :: q[i] < |handles|
  {
    if q == [] then [] else
      var h := q[|q| - 1];
      Pending(handles, q[..|q| - 1]) + if handles[h].ctxCb then [h] else []
  }

  function Backwards(q: seq<nat>): seq<nat> { if q == [] then [] else [q[|q| - 1]] + Backwards(q[..|q| - 1]) }

  /** A handle that has been reaped: out of the epoll set, its reference returned. */
  function Reaped(x: Handle): Handle { Put(Removed(x)) }

  lemma {:induction false} ListedOnce(q: seq<nat>, n: nat)
    requires n < |q| && In(q[n], q) <= 1
    ensures q[n] !in q[..n]
  {
    var h := q[n];
    assert q == q[..n] + ([h] + q[n + 1..]);
    InBoth(h, q[..n], [h] + q[n + 1..]);
    InFront(h, h, q[n + 1..]);
    InMember(h, q[..n]);
  }

  lemma {:induction false} DestroyedOnce(s: State, h: nat)
    requires h < |s.handles| && HandleOk(s, h)
    ensures In(h, s.destroy) <= 1
  {
    ViewSane(s, h);
  }

  /** What the loop does not touch. */
  predicate Elsewhere(s: State, r: State) {
    && r.ops == s.ops && r.active == s.active && r.ctxList == s.ctxList && r.ctxNum == s.ctxNum
    && r.ready == s.ready && r.started == s.started && r.activity == s.activity
  }

  /** After n handles of the list. */
  ghost predicate Progress(s: State, r: State, n: nat)
    requires Known(s, s.destroy)
  {
    && n <= |s.destroy| && r.stage.Reap? && r.destroy == s.destroy[n..] && Elsewhere(s, r)
    && r.stage.delay == Backwards(Pending(s.handles, s.destroy[..n]))
    && ReapedIn(s.handles, r.handles, s.destroy[..n])
  }

  /** The handles of q without a queued callback have been reaped. */
  ghost predicate ReapedIn(before: seq<Handle>, after: seq<Handle>, q: seq<nat>) {
    && |after| == |before|
    && forall h | 0 <= h < |before| :: after[h] == if h in q && !before[h].ctxCb then Reaped(before[h]) else before[h]
  }

  lemma {:induction false} ReapedMore(before: seq<Handle>, m: seq<Handle>, r: seq<Handle>, q: seq<nat>, h: nat)
    requires ReapedIn(before, m, q) && h < |before| && h !in q
    requires r == if m[h].ctxCb then m else m[h := Reaped(m[h])]
    ensures m[h] == before[h] && ReapedIn(before, r, q + [h])
  {
    forall x | 0 <= x < |before|
      ensures r[x] == if x in q + [h] && !before[x].ctxCb then Reaped(before[x]) else before[x]
    {
      assert x in q + [h] <==> x in q || x == h;
    }
  }

  /** The first handle of the list is parked, or taken out of the epoll set and released. */
  method ReapOne(s: State) returns (r: State)
    requires Inv(s) && s.stage.Reap? && ManagerFree(s) && s.ready && s.destroy != []
    ensures Inv(r) && r.stage.Reap? && Elsewhere(s, r) && r.destroy == s.destroy[1..]
    ensures var h := s.destroy[0];
            if s.handles[h].ctxCb then r.handles == s.handles && r.stage.delay == [h] + s.stage.delay
            else r.handles == s.handles[h := Reaped(s.handles[h])] && r.stage.delay == s.stage.delay
  {
    var h := s.destroy[0];
    r := ReapedNext(s);
    ReapInv(s, ReapNext);
    if r.stage.Reaping? {
      assert HandleOk(r, h);
      ReapOnlyReady(r);
      var checked := ReapChecked(r);
      ReapInv(r, ReapCheck);
      var removed := ReapRemoved(checked);
      ReapInv(checked, ReapRemove);
      r := ReapDropped(removed);
      ReapInv(removed, ReapDrop);
    }
  }

  /** The loop ends, keeps exactly the handles whose callback is queued and reaps every other. */
  method ReapDestroyList(s: State) returns (r: State)
    requires Inv(s) && s.stage == Reap([]) && ManagerFree(s) && s.ready
    ensures Inv(r) && r.stage == Outside && Elsewhere(s, r)
    ensures r.destroy == Backwards(Pending(s.handles, s.destroy))
    ensures |r.handles| == |s.handles|
    ensures forall h | 0 <= h < |s.handles| ::
              r.handles[h] == if h in s.destroy && !s.handles[h].ctxCb then Reaped(s.handles[h]) else s.handles[h]
  {
    r := s;
    ghost var n := 0;
    while r.destroy != []
      invariant Inv(r) && Progress(s, r, n)
      decreases |r.destroy|
    {
      ghost var before := r;
      r := ReapOne(r);
      ProgressOn(s, before, r, n);
      n := n + 1;
    }
    assert n == |s.destroy| && s.destroy[..n] == s.destroy;
    r := ReapEnd(r);
  }

  /** The list is empty: what has been parked goes back to it. */
  method ReapEnd(s: State) returns (r: State)
    requires Inv(s) && s.stage.Reap? && ManagerFree(s) && s.destroy == []
    ensures Inv(r) && r.stage == Outside && r.handles == s.handles && r.destroy == s.stage.delay && Elsewhere(s, r)
  {
    r := ReapedNext(s);
    ReapInv(s, ReapNext);
    if r.stage.Splicing? {
      ReapInv(r, Splice);
      r := Spliced(r);
      assert [] + s.stage.delay == s.stage.delay;
    }
  }

  lemma {:induction false} ProgressOn(s: State, m: State, r: State, n: nat)
    requires Inv(s) && Progress(s, m, n) && n < |s.destroy|
    requires r.stage.Reap? && Elsewhere(m, r) && r.destroy == m.destroy[1..]
    requires var h := s.destroy[n];
             if m.handles[h].ctxCb then r.handles == m.handles && r.stage.delay == [h] + m.stage.delay
             else r.handles == m.handles[h := Reaped(m.handles[h])] && r.stage.delay == m.stage.delay
    ensures Progress(s, r, n + 1)
  {
    var h := s.destroy[n];
    assert HandleOk(s, h);
    DestroyedOnce(s, h);
    ListedOnce(s.destroy, n);
    assert h in s.destroy && h < |s.handles|;
    ProgressStep(s, m, r, n, h);
  }

  lemma {:induction false} ProgressStep(s: State, m: State, r: State, n: nat, h: nat)
    requires Known(s, s.destroy) && Progress(s, m, n) && n < |s.destroy| && h == s.destroy[n] && h !in s.destroy[..n] && h < |s.handles|
    requires r.stage.Reap? && Elsewhere(m, r) && r.destroy == m.destroy[1..]
    requires if m.handles[h].ctxCb then r.handles == m.handles && r.stage.delay == [h] + m.stage.delay
             else r.handles == m.handles[h := Reaped(m.handles[h])] && r.stage.delay == m.stage.delay
    ensures Progress(s, r, n + 1)
  {
    PendingNext(s.handles, s.destroy, n);
    ReapedMore(s.handles, m.handles, r.handles, s.destroy[..n], h);
    assert s.destroy[..n + 1] == s.destroy[..n] + [h];
    assert [] + m.stage.delay == m.stage.delay;
  }

  lemma {:induction false} PendingNext(handles: seq<Handle>, q: seq<nat>, n: nat)
    requires n < |q| && forall i | 0 <= i < |q| :: q[i] < |handles|
    ensures Backwards(Pending(handles, q[..n + 1]))
         == (if handles[q[n]].ctxCb then [q[n]] else []) + Backwards(Pending(handles, q[..n]))
  {
    var h, listed, p := q[n], q[..n + 1], Pending(handles, q[..n]);
    assert listed[..n] == q[..n] && listed[n] == h;
    assert (p + [h])[..|p|] == p;
    assert p + [] == p;
  }
}

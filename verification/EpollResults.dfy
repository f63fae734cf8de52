/** What the invariant of the epoll manager says about every run. */
module EpollResults {
  import opened Common
  import opened EpollState
  import opened EpollSteps
  import opened EpollCounts
  import opened EpollHandles
  import opened EpollManager
  import opened EpollRuns

  /** A manager that has been set up, threads that are idle, handles not in use. */
  ghost predicate Initial(s: State) {
    && 0 < |s.ops| && (forall i | 0 <= i < |s.ops| :: s.ops[i] == Idle)
    && s.stage == Outside && s.active == s.destroy == s.ctxList == []
    && s.numHandles == 0 && s.ctxNum == 0 && s.ready && !s.started
    && forall h | 0 <= h < |s.handles| :: Fresh(s.handles[h])
  }

  predicate Fresh(x: Handle) {
    !x.installed && !x.installing && !x.destroying && !x.ctxCb && x.refs == 0 && x.accepted == x.ran
  }

  /** The steps lead from s to r. */
  ghost predicate Leads(s: State, steps: seq<Step>, r: State)
    decreases |steps|
  {
    if steps == [] then r == s
    else Shaped(s) && Enabled(s, steps[0]) && Leads(Apply(s, steps[0]), steps[1..], r)
  }

  lemma {:induction false} InitialInv(s: State)
    requires Initial(s)
    ensures Inv(s)
  {
    NoneInstalled(s.handles);
    forall h | 0 <= h < |s.handles| ensures HandleOk(s, h) {
      assert Fresh(s.handles[h]);
      NoneMentioned(s.ops, h);
    }
  }

  lemma {:induction false} NoneInstalled(handles: seq<Handle>)
    requires forall h | 0 <= h < |handles| :: Fresh(handles[h])
    ensures Installed(handles) == 0
  {
    if handles != [] { NoneInstalled(handles[..|handles| - 1]); }
  }

  /** The invariant holds in every state of every run. */
  lemma {:induction false} RunInv(s: State, steps: seq<Step>, r: State)
    requires Initial(s) && Leads(s, steps, r)
    ensures Inv(r)
  {
    InitialInv(s);
    LeadsInv(s, steps, r);
  }

  lemma {:induction false} LeadsInv(s: State, steps: seq<Step>, r: State)
    requires Inv(s) && Leads(s, steps, r)
    ensures Inv(r)
    decreases |steps|
  {
    if steps != [] {
      StepKeeps(s, steps[0]);
      LeadsInv(Apply(s, steps[0]), steps[1..], r);
    }
  }

  // Context callbacks.

  /** How many handles have a context callback set. */
  function WithCallback(handles: seq<Handle>): nat {
    if handles == [] then 0 else WithCallback(handles[..|handles| - 1]) + One(handles[|handles| - 1].ctxCb)
  }

  /** How many elements of q are below n. */
  function Below(q: seq<nat>, n: nat): nat {
    if q == [] then 0 else One(q[0] < n) + Below(q[1..], n)
  }

  lemma {:induction false} BelowNext(q: seq<nat>, n: nat)
    ensures Below(q, n + 1) == Below(q, n) + In(n, q)
  {
    if q != [] { BelowNext(q[1..], n); }
  }

  lemma {:induction false} BelowAll(q: seq<nat>, n: nat)
    requires forall i | 0 <= i < |q| :: q[i] < n
    ensures Below(q, n) == |q|
  {
    if q != [] { BelowAll(q[1..], n); }
  }

  lemma {:induction false} BelowNone(q: seq<nat>)
    ensures Below(q, 0) == 0
  {
    if q != [] { BelowNone(q[1..]); }
  }

  lemma {:induction false} QueueCount(s: State, h: nat)
    ensures In(h, Queue(s)) == In(h, s.ctxList) + In(h, Rest(s.stage)) + In(h, RunningOf(s.stage))
  {
    InBoth(h, s.ctxList + Rest(s.stage), RunningOf(s.stage));
    InBoth(h, s.ctxList, Rest(s.stage));
  }

  lemma {:induction false} QueueBelow(s: State, n: nat)
    requires Inv(s) && n <= |s.handles|
    ensures Below(Queue(s), n) == WithCallback(s.handles[..n])
  {
    if n == 0 {
      BelowNone(Queue(s));
    } else {
      QueueBelow(s, n - 1);
      BelowNext(Queue(s), n - 1);
      QueueCount(s, n - 1);
      assert HandleOk(s, n - 1);
      assert s.handles[..n][..n - 1] == s.handles[..n - 1];
    }
  }

  /** A callback is set exactly while it is on the list, drained or running, and then it is there
      once; the counter is the number of such handles; each callback accepted has been started
      once or is still waiting. */
  lemma {:induction false} CallbacksCounted(s: State)
    requires Inv(s)
    ensures s.ctxNum == WithCallback(s.handles)
    ensures forall h: nat | h < |s.handles| :: In(h, Queue(s)) == One(s.handles[h].ctxCb)
    ensures forall h: nat | h < |s.handles| ::
              s.handles[h].accepted == s.handles[h].ran + In(h, s.ctxList) + In(h, Rest(s.stage))
  {
    assert s.handles[..|s.handles|] == s.handles;
    QueueBelow(s, |s.handles|);
    BelowAll(Queue(s), |s.handles|);
    forall h: nat | h < |s.handles|
      ensures In(h, Queue(s)) == One(s.handles[h].ctxCb)
      ensures s.handles[h].accepted == s.handles[h].ran + In(h, s.ctxList) + In(h, Rest(s.stage))
    {
      QueueCount(s, h);
      assert HandleOk(s, h);
    }
  }

  // Deleting.

  /** The step decides that h is taken out of the epoll set. */
  predicate Decides(s: State, step: Step, h: nat)
    requires h < |s.handles|
  {
    || (step.ByDel? && step.del.DelDecide? && DelEnabled(s, step.del) && s.ops[step.del.t] == DelChecked(h)
        && h in s.active && !Deferred(s, step.del.t, h))
    || (step.ByReap? && step.reap.ReapNext? && ReapEnabled(s, step.reap) && s.destroy != [] && s.destroy[0] == h
        && !s.handles[h].ctxCb)
  }

  /** No handle is chosen to be taken out of the epoll set while its callback is queued; its own
      callback may be running. */
  lemma {:induction false} QueuedIsKept(s: State, step: Step, h: nat)
    requires Inv(s) && h < |s.handles| && Decides(s, step, h)
    ensures h !in s.ctxList && h !in Rest(s.stage)
  {
    assert HandleOk(s, h);
    InMember(h, s.ctxList);
    InMember(h, Rest(s.stage));
    if s.handles[h].ctxCb {
      assert RunningOf(s.stage) == [h];
      assert In(h, [h]) == 1;
    }
  }

  /** Nothing is under way with the handle. */
  predicate AtRest(s: State, h: nat)
    requires h < |s.handles|
  { Unused(s, h) }

  /** References: one for each use under way; so a handle that is installed or has a callback is
      held, and one at rest has got every reference back. */
  lemma {:induction false} ReferencesBalance(s: State, h: nat)
    requires Inv(s) && h < |s.handles|
    ensures s.handles[h].refCb ==> s.handles[h].refs == InstallUses(ViewOf(s, h)) + CtxUses(ViewOf(s, h))
    ensures s.handles[h].refCb && (s.handles[h].installed || s.handles[h].ctxCb) ==> s.handles[h].refs > 0
    ensures AtRest(s, h) ==> s.handles[h].refs == 0
  {
    assert HandleOk(s, h);
    ViewSane(s, h);
    if AtRest(s, h) { UnusedCounts(s, h); }
  }

  /** The counter of handles is the number installed, and while the manager is open each of them is
      in one place: active, waiting to be destroyed, parked, or with whoever completes it. */
  lemma {:induction false} HandlesCounted(s: State, h: nat)
    requires Inv(s) && h < |s.handles|
    ensures s.numHandles == Installed(s.handles)
    ensures s.ready && s.handles[h].installed ==> In(h, s.active) + Leaving(ViewOf(s, h)) == 1
  {
    assert HandleOk(s, h);
  }

  // Closing.

  /** Thread t, in a close, has found everything empty and nothing has been added since it began. */
  ghost predicate CleanClose(s: State, t: nat) {
    t < |s.ops| && s.ops[t].Tallied? && s.ops[t].quiet && s.ops[t].stamp == s.activity
  }

  /** A close that nothing was added to leaves no callback, and leaves installed exactly the handles
      whose deletion another thread is in the middle of. */
  lemma {:induction false} CloseLeaves(s: State, t: nat, h: nat)
    requires Inv(s) && CleanClose(s, t) && h < |s.handles|
    ensures var r := Apply(s, ByClose(CloseFinish(t)));
            && !r.ready && Queue(r) == [] && !r.handles[h].ctxCb
            && (r.handles[h].installed <==> exists i :: 0 <= i < |r.ops| && r.ops[i] in {Completing(h), Removing(h)})
  {
    assert CloseOk(s, t) && HandleOk(s, h);
    ViewSane(s, h);
    assert In(h, s.active) == 0 && In(h, s.destroy) == 0 && In(h, Delay(s.stage)) == 0 && In(h, ReapedOf(s.stage)) == 0;
    assert s.handles[h].installed <==> CountsOf(s.ops, h).completing + CountsOf(s.ops, h).removing > 0;
    QueueCount(s, h);
    LeavingOps(s.ops, h);
    SameLeaving(s.ops, s.ops[t := Idle], t, h);
  }

  lemma {:induction false} SameLeaving(ops: seq<Op>, after: seq<Op>, t: nat, h: nat)
    requires t < |ops| && ops[t].Tallied? && after == ops[t := Idle]
    ensures (exists i :: 0 <= i < |ops| && ops[i] in {Completing(h), Removing(h)})
       <==> (exists i :: 0 <= i < |after| && after[i] in {Completing(h), Removing(h)})
  {
    if i :| 0 <= i < |ops| && ops[i] in {Completing(h), Removing(h)} { assert after[i] in {Completing(h), Removing(h)}; }
    if i :| 0 <= i < |ops| && after[i] in {Completing(h), Removing(h)} { assert ops[i] in {Completing(h), Removing(h)}; }
  }

  lemma {:induction false} LeavingOps(ops: seq<Op>, h: nat)
    ensures CountsOf(ops, h).completing + CountsOf(ops, h).removing > 0
       <==> exists i :: 0 <= i < |ops| && ops[i] in {Completing(h), Removing(h)}
  {
    CountsNonnegative(ops, h);
    if ops != [] {
      var n := |ops| - 1;
      var fewer := ops[..n];
      LeavingOps(fewer, h);
      CountsNonnegative(fewer, h);
      if i :| 0 <= i < |fewer| && fewer[i] in {Completing(h), Removing(h)} {
        assert ops[i] == fewer[i];
      }
      if i :| 0 <= i < |ops| && ops[i] in {Completing(h), Removing(h)} {
        assert i < n ==> fewer[i] == ops[i];
      }
    }
  }
}

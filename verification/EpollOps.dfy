/** Each operation of the epoll manager from its call to its return, while no other thread takes a
    step: the error code, and all that it changes. */
module EpollOps {
  import opened Common
  import opened EpollState
  import opened EpollSteps
  import opened EpollCounts
  import opened EpollHandles
  import opened EpollManager
  import opened EpollRuns
  import opened EpollReap

  // What the steps of an operation come to.

  lemma {:induction false} AddIs(s: State, t: nat, h: nat)
    requires t < |s.ops| && s.ops[t].Idle? && h < |s.handles| && !s.handles[h].installing
    ensures AddedOrNot(AddListed(Begun(s, t, AddListing(h)), t), t, true) ==
              s.(handles := s.handles[h := Get(s.handles[h]).(installed := true)], active := [h] + s.active,
                 numHandles := s.numHandles + 1, activity := s.activity + 1)
  {
    var x, r := s.handles[h], AddedOrNot(AddListed(Begun(s, t, AddListing(h)), t), t, true);
    assert r.ops == s.ops;
    assert r.handles[h] == Get(x).(installed := true);
  }

  lemma {:induction false} AddUndone(s: State, t: nat, h: nat)
    requires t < |s.ops| && s.ops[t].Idle? && h < |s.handles| && !s.handles[h].installing
    ensures AddedOrNot(AddListed(Begun(s, t, AddListing(h)), t), t, false) ==
              s.(ops := s.ops[t := AddFailed(h)], handles := s.handles[h := Get(s.handles[h])], activity := s.activity + 1)
  {
    var r := AddedOrNot(AddListed(Begun(s, t, AddListing(h)), t), t, false);
    assert ([h] + s.active)[1..] == s.active && r.active == s.active;
    assert r.handles[h] == Get(s.handles[h]);
  }

  lemma {:induction false} GotAndPut(s: State, t: nat, h: nat, op: Op)
    requires t < |s.ops| && s.ops[t].Idle? && h < |s.handles| && (op == AddFailed(h) || op == Refused(h))
    ensures Returned(s.(ops := s.ops[t := op], handles := s.handles[h := Get(s.handles[h])], activity := s.activity + 1), t)
         == s.(activity := s.activity + 1)
  {
    assert Put(Get(s.handles[h])) == s.handles[h];
    assert s.handles[h := Get(s.handles[h])][h := s.handles[h]] == s.handles;
    assert s.ops[t := op][t := Idle] == s.ops;
  }

  lemma {:induction false} DecidedIs(s: State, t: nat, h: nat)
    requires t < |s.ops| && s.ops[t].Idle? && h < |s.handles|
    ensures var x, r := s.handles[h], DelDecided(SetOp(s, t, DelChecked(h)), t);
            if h !in s.active then r == s
            else if (x.refCb && !(s.started && t == 0)) || (x.ctxCb && RunningOf(s.stage) != [h]) then
              r == s.(handles := s.handles[h := x.(destroying := true)], active := Without(s.active, h), destroy := [h] + s.destroy)
            else
              r == s.(ops := s.ops[t := Completing(h)], handles := s.handles[h := x.(destroying := true)], active := Without(s.active, h))
  {
    var c := SetOp(s, t, DelChecked(h));
    assert c.ops[t := Idle] == s.ops && c.ops[t := Completing(h)] == s.ops[t := Completing(h)];
  }

  lemma {:induction false} QueuedIs(s: State, t: nat, h: nat)
    requires t < |s.ops| && s.ops[t].Idle? && h < |s.handles|
    ensures var x, r := s.handles[h], CtxAdded(Begun(s, t, Queueing(h)), t);
            if !s.ready || x.ctxCb then
              r == s.(ops := s.ops[t := Refused(h)], handles := s.handles[h := Get(x)], activity := s.activity + 1)
            else
              r == s.(handles := s.handles[h := Get(x).(ctxCb := true, accepted := x.accepted + 1)], ctxList := [h] + s.ctxList,
                      ctxNum := s.ctxNum + 1, activity := s.activity + 1)
  {
    var x, b := s.handles[h], Begun(s, t, Queueing(h));
    assert b.ops[t := Idle] == s.ops;
  }

  lemma {:induction false} MovedBack(s: State, t: nat, op: Op)
    requires t < |s.ops| && s.ops[t].Idle?
    ensures s.ops[t := op][t := Idle] == s.ops
  {}

  // The operations.

  /** `epoll_handle_init` of a handle with nothing under way, and then `epoll_handle_add`: it is refused without a file
      descriptor, and installed otherwise. */
  method InitAndAdd(s: State, t: nat, h: nat, open: bool, refCb: bool) returns (rc: int, r: State)
    requires Inv(s) && Free(s, t) && h < |s.handles| && Unused(s, h) && s.ready
    ensures Inv(r) && |r.handles| == |s.handles| && rc == (if open then 0 else EBADF)
    ensures var x := r.handles[h];
            x.refCb == refCb && x.fdOpen == open && x.installed == open && !x.installing && !x.destroying && !x.ctxCb
    ensures r.active == (if open then [h] + s.active else s.active) && forall g | 0 <= g < |s.handles| && g != h :: r.handles[g] == s.handles[g]
  {
    StepKeeps(s, Init(h, open, refCb));
    UnusedCounts(s, h);
    var blank := Initialised(s, h, open, refCb);
    rc, r := Add(blank, t, h, 0);
  }

  /** `epoll_handle_add`; `rc0` is what EPOLL_CTL_ADD reports. */
  method Add(s: State, t: nat, h: nat, rc0: int) returns (rc: int, r: State)
    requires Inv(s) && Free(s, t) && h < |s.handles| && CountsOf(s.ops, h).adding == 0 && rc0 <= 0
    ensures Inv(r)
    ensures var x := s.handles[h];
            if !s.ready then rc == EINVAL && r == s
            else if !x.fdOpen then rc == EBADF && r == s
            else if x.installed || x.installing then rc == EALREADY && r == s
            else
              && rc == rc0
              && r == if rc0 == 0
                      then s.(handles := s.handles[h := Get(x).(installed := true)], active := [h] + s.active,
                              numHandles := s.numHandles + 1, activity := s.activity + 1)
                      else s.(activity := s.activity + 1)
  {
    var x := s.handles[h];
    if !s.ready { return EINVAL, s; }
    if !x.fdOpen { return EBADF, s; }
    if x.installed || x.installing { return EALREADY, s; }
    r := AddSteps(s, t, h, rc0 == 0);
    if rc0 == 0 { AddIs(s, t, h); } else { AddUndone(s, t, h); GotAndPut(s, t, h, AddFailed(h)); }
    rc := rc0;
  }

  method AddSteps(s: State, t: nat, h: nat, ok: bool) returns (r: State)
    requires Inv(s) && AddEnabled(s, AddStart(t, h))
    ensures Inv(r)
    ensures var a := AddedOrNot(AddListed(Begun(s, t, AddListing(h)), t), t, ok); r == if ok then a else Returned(a, t)
  {
    AddInv(s, AddStart(t, h));
    r := Begun(s, t, AddListing(h));
    AddInv(r, AddList(t));
    r := AddListed(r, t);
    AddInv(r, AddDone(t, ok));
    r := AddedOrNot(r, t, ok);
    if !ok {
      AddInv(r, AddPut(t));
      r := Returned(r, t);
    }
  }

  /** `epoll_handle_del`. */
  method Delete(s: State, t: nat, h: nat) returns (rc: int, r: State)
    requires Inv(s) && Free(s, t) && h < |s.handles|
    ensures Inv(r)
    ensures var x := s.handles[h];
            if !s.ready then rc == EINVAL && r == s
            else if !x.fdOpen then rc == EBADF && r == s
            else if !x.installed then rc == EAGAIN && r == s
            else if h !in s.active then rc == ENOENT && r == s
            else
              && rc == 0
              && r == if (x.refCb && !(s.started && t == 0)) || (x.ctxCb && RunningOf(s.stage) != [h])
                      then s.(handles := s.handles[h := x.(destroying := true)], active := Without(s.active, h), destroy := [h] + s.destroy)
                      else s.(handles := s.handles[h := Put(Removed(x))], active := Without(s.active, h), numHandles := s.numHandles - 1)
  {
    var x := s.handles[h];
    if !s.ready { return EINVAL, s; }
    if !x.fdOpen { return EBADF, s; }
    if !x.installed { return EAGAIN, s; }
    r := Decide(s, t, h);
    DecidedIs(s, t, h);
    rc := if h in s.active then 0 else ENOENT;
    if r.ops[t].Completing? {
      r := Complete(r, t);
      MovedBack(s, t, Completing(h));
    }
  }

  method Decide(s: State, t: nat, h: nat) returns (r: State)
    requires Inv(s) && DelEnabled(s, DelStart(t, h))
    ensures Inv(r) && r == DelDecided(SetOp(s, t, DelChecked(h)), t)
  {
    DelInv(s, DelStart(t, h));
    r := SetOp(s, t, DelChecked(h));
    DelInv(r, DelDecide(t));
    r := DelDecided(r, t);
  }

  /** `epoll_handle_del_complete` by the thread itself. */
  method Complete(s: State, t: nat) returns (r: State)
    requires Inv(s) && t < |s.ops| && s.ops[t].Completing? && s.ops[t].h < |s.handles| && s.ready
    ensures Inv(r)
    ensures var h := s.ops[t].h;
            r == s.(ops := s.ops[t := Idle], handles := s.handles[h := Put(Removed(s.handles[h]))], numHandles := s.numHandles - 1)
  {
    var h := s.ops[t].h;
    CompletingReady(s, t);
    DelInv(s, CompleteCheck(t));
    r := CompleteChecked(s, t);
    DelInv(r, CompleteRemove(t));
    r := CompleteRemoved(r, t);
    DelInv(r, CompletePut(t));
    r := Returned(r, t);
  }

  /** What is being completed is in the epoll set and marked. */
  lemma {:induction false} CompletingReady(s: State, t: nat)
    requires Inv(s) && t < |s.ops| && s.ops[t].Completing? && s.ops[t].h < |s.handles| && s.ready
    ensures MayRemove(s, s.handles[s.ops[t].h])
  {
    var h := s.ops[t].h;
    assert HandleOk(s, h);
    OwnCounts(s, t, h);
  }

  /** `epoll_mgr_ctx_cb_add`. In the manager's own thread the callback runs at once, and nothing is queued. */
  method AddCallback(s: State, t: nat, h: nat) returns (rc: int, r: State)
    requires Inv(s) && Free(s, t) && h < |s.handles|
    ensures Inv(r)
    ensures var x := s.handles[h];
            if !x.refCb then rc == EINVAL && r == s
            else if s.started && t == 0 then rc == 0 && r == s
            else if !s.ready then rc == EBUSY && r == s.(activity := s.activity + 1)
            else if x.ctxCb then rc == EAGAIN && r == s.(activity := s.activity + 1)
            else
              && rc == 0
              && r == s.(handles := s.handles[h := Get(x).(ctxCb := true, accepted := x.accepted + 1)], ctxList := [h] + s.ctxList,
                         ctxNum := s.ctxNum + 1, activity := s.activity + 1)
  {
    var x := s.handles[h];
    if !x.refCb { return EINVAL, s; }
    if s.started && t == 0 { return 0, s; }
    rc := if !s.ready then EBUSY else if x.ctxCb then EAGAIN else 0;
    QueuedIs(s, t, h);
    GotAndPut(s, t, h, Refused(h));
    r := QueueSteps(s, t, h);
  }

  method QueueSteps(s: State, t: nat, h: nat) returns (r: State)
    requires Inv(s) && CtxEnabled(s, CtxStart(t, h))
    ensures Inv(r)
    ensures var a := CtxAdded(Begun(s, t, Queueing(h)), t); r == if a.ops[t].Refused? then Returned(a, t) else a
  {
    CtxInv(s, CtxStart(t, h));
    r := Begun(s, t, Queueing(h));
    CtxInv(r, CtxAdd(t));
    r := CtxAdded(r, t);
    if r.ops[t].Refused? {
      CtxInv(r, CtxPutBack(t));
      r := Returned(r, t);
    }
  }

  /** `epoll_mgr_close`. */
  method Close(s: State, t: nat) returns (rc: int, r: State)
    requires Inv(s) && Free(s, t) && forall i | 0 <= i < |s.ops| :: !Closing(s.ops[i])
    ensures Inv(r)
    ensures if !s.ready then rc == EALREADY && r == s
            else if s.ctxNum != 0 || s.active != [] || s.destroy != [] then rc == EBUSY && r == s
            else rc == 0 && r == s.(ready := false)
  {
    if !s.ready { return EALREADY, s; }
    if s.ctxNum != 0 { return EBUSY, s; }
    CloseInv(s, CloseStart(t));
    var counted := SetOp(s, t, Counted(s.activity, Quiet(s)));
    MovedBack(s, t, counted.ops[t]);
    rc, r := CloseCounted(counted, t);
  }

  /** No callback was counted; the lists are looked at. */
  method CloseCounted(s: State, t: nat) returns (rc: int, r: State)
    requires Inv(s) && t < |s.ops| && s.ops[t].Counted?
    ensures Inv(r)
    ensures if s.active != [] || s.destroy != [] then rc == EBUSY && r == s.(ops := s.ops[t := Idle])
            else rc == 0 && r == s.(ops := s.ops[t := Idle], ready := false)
  {
    CloseInv(s, CloseTally(t));
    r := Tally(s, t);
    if |s.active| + |s.destroy| != 0 { return EBUSY, r; }
    CloseInv(r, CloseFinish(t));
    r := SetOp(r, t, Idle).(ready := false);
    rc := 0;
  }

  // The loop.

  /** A handle whose callback has run: its reference is returned. */
  function Called(x: Handle): Handle { Put(x.(ran := x.ran + 1, ctxCb := false)) }

  /** The callbacks of the handles of q have run. */
  ghost predicate CalledIn(before: seq<Handle>, after: seq<Handle>, q: seq<nat>) {
    && |after| == |before|
    && forall h | 0 <= h < |before| :: after[h] == if h in q then Called(before[h]) else before[h]
  }

  lemma {:induction false} CalledMore(before: seq<Handle>, m: seq<Handle>, q: seq<nat>, n: nat)
    requires n < |q| && CalledIn(before, m, q[..n]) && q[n] < |before| && q[n] !in q[..n]
    ensures CalledIn(before, m[q[n] := Called(m[q[n]])], q[..n + 1])
  {
    assert q[..n + 1] == q[..n] + [q[n]];
  }

  /** `epoll_mgr_ctx_cb_run` of the first handle that has been drained. */
  method RunOne(s: State) returns (r: State)
    requires Inv(s) && s.stage.CtxLoop? && s.stage.rest != [] && ManagerFree(s)
    ensures Inv(r) && s.stage.rest[0] < |s.handles|
    ensures var h := s.stage.rest[0];
            r == s.(handles := s.handles[h := Called(s.handles[h])], stage := CtxLoop(s.stage.rest[1..]), ctxNum := s.ctxNum - 1)
  {
    LoopInv(s, CtxNext);
    r := CtxStarted(s);
    LoopInv(r, CtxFinish);
    r := CtxFinished(r);
    LoopInv(r, CtxDrop);
    r := CtxDropped(r);
    RanIs(s);
  }

  lemma {:induction false} RanIs(s: State)
    requires s.stage.CtxLoop? && s.stage.rest != [] && Known(s, s.stage.rest)
    ensures var h := s.stage.rest[0];
            CtxDropped(CtxFinished(CtxStarted(s))) ==
              s.(handles := s.handles[h := Called(s.handles[h])], stage := CtxLoop(s.stage.rest[1..]), ctxNum := s.ctxNum - 1)
  {}

  lemma {:induction false} QueuedOnce(s: State, h: nat)
    requires h < |s.handles| && HandleOk(s, h)
    ensures In(h, s.ctxList) <= 1 && (h in s.ctxList ==> s.handles[h].ctxCb && s.handles[h].refCb)
  {
    ViewSane(s, h);
    InMember(h, s.ctxList);
  }

  /** `epoll_mgr_reap_ctx_list`: every queued callback runs once, in order, and nothing stays queued. */
  method RunCallbacks(s: State) returns (r: State)
    requires Inv(s) && s.stage.Events? && ManagerFree(s) && forall i | 0 <= i < |s.ops| :: !Closing(s.ops[i])
    ensures Inv(r)
    ensures !s.ready ==> r == s.(stage := Reap([]))
    ensures s.ready ==> r == s.(stage := Reap([]), handles := r.handles, ctxList := [], ctxNum := s.ctxNum - |s.ctxList|)
    ensures s.ready ==> CalledIn(s.handles, r.handles, s.ctxList)
    ensures forall h | h in s.ctxList :: h < |s.handles| && Called(s.handles[h]).refs == s.handles[h].refs - 1
  {
    forall h | h in s.ctxList ensures h < |s.handles| && s.handles[h].refCb {
      assert HandleOk(s, h);
      QueuedOnce(s, h);
    }
    LoopInv(s, Drain);
    r := Drained(s);
    if s.ready { r := RunDrained(s, r); }
  }

  /** The loop over what has been drained from `s`. */
  method RunDrained(s: State, drained: State) returns (r: State)
    requires Inv(s) && Inv(drained) && drained == s.(stage := CtxLoop(s.ctxList), ctxList := []) && ManagerFree(s)
    ensures Inv(r) && r == s.(stage := Reap([]), handles := r.handles, ctxList := [], ctxNum := s.ctxNum - |s.ctxList|)
    ensures CalledIn(s.handles, r.handles, s.ctxList)
  {
    r := drained;
    ghost var n := 0;
    while r.stage.rest != []
      invariant Inv(r) && RunTo(s, r, n)
      decreases |r.stage.rest|
    {
      r := RunNext(s, r, n);
      n := n + 1;
    }
    assert s.ctxList[..n] == s.ctxList;
    r := EndDrained(r);
  }

  method EndDrained(s: State) returns (r: State)
    requires Inv(s) && s.stage == CtxLoop([]) && ManagerFree(s)
    ensures Inv(r) && r == s.(stage := Reap([]))
  {
    LoopInv(s, CtxNext);
    r := CtxStarted(s);
  }

  method RunNext(ghost s: State, m: State, ghost n: nat) returns (r: State)
    requires Inv(s) && Inv(m) && RunTo(s, m, n) && m.stage.rest != [] && ManagerFree(m)
    ensures Inv(r) && RunTo(s, r, n + 1)
  {
    FirstTime(s, n);
    RunOn(s, m, n);
    r := RunOne(m);
  }

  /** The first n callbacks have run. */
  ghost predicate RunTo(s: State, r: State, n: nat) {
    && n <= |s.ctxList| && r == s.(stage := CtxLoop(s.ctxList[n..]), handles := r.handles, ctxList := [], ctxNum := s.ctxNum - n)
    && CalledIn(s.handles, r.handles, s.ctxList[..n])
  }

  lemma {:induction false} RunOn(s: State, m: State, n: nat)
    requires RunTo(s, m, n) && n < |s.ctxList| && s.ctxList[n] < |s.handles| && s.ctxList[n] !in s.ctxList[..n]
    ensures var h := s.ctxList[n];
            h == m.stage.rest[0] &&
            RunTo(s, m.(handles := m.handles[h := Called(m.handles[h])], stage := CtxLoop(m.stage.rest[1..]), ctxNum := m.ctxNum - 1), n + 1)
  {
    CalledMore(s.handles, m.handles, s.ctxList, n);
  }

  lemma {:induction false} FirstTime(s: State, n: nat)
    requires Inv(s) && n < |s.ctxList|
    ensures s.ctxList[n] < |s.handles| && s.ctxList[n] !in s.ctxList[..n]
  {
    var h := s.ctxList[n];
    assert HandleOk(s, h);
    QueuedOnce(s, h);
    ListedOnce(s.ctxList, n);
  }

  /** Once the callbacks have run, no handle has one. */
  lemma {:induction false} NonePending(s: State, q: seq<nat>)
    requires Inv(s) && s.stage == Reap([]) && s.ctxList == [] && forall i | 0 <= i < |q| :: q[i] < |s.handles|
    ensures Pending(s.handles, q) == []
  {
    if q != [] {
      NotPending(s, q[|q| - 1]);
      NonePending(s, q[..|q| - 1]);
    }
  }

  lemma {:induction false} NotPending(s: State, h: nat)
    requires Inv(s) && s.stage == Reap([]) && s.ctxList == [] && h < |s.handles|
    ensures !s.handles[h].ctxCb
  {
    assert HandleOk(s, h);
  }

  /** `epoll_mgr_wait_and_process_events`, apart from the event callbacks: all that was queued runs, and every deletion
      that was left to the loop is completed. */
  method Pass(s: State) returns (rc: int, r: State)
    requires Inv(s) && s.stage.Outside? && ManagerFree(s) && forall i | 0 <= i < |s.ops| :: !Closing(s.ops[i])
    ensures Inv(r) && r.stage.Outside?
    ensures !s.ready ==> rc == EINVAL && r == s
    ensures s.ready ==> rc == 0 && r.ctxList == [] && r.ctxNum == 0 && r.destroy == [] && r.active == s.active && |r.handles| == |s.handles|
    ensures s.ready ==> forall h | 0 <= h < |s.handles| :: r.handles[h] == Settled(s, h)
  {
    if !s.ready { return EINVAL, s; }
    LoopInv(s, Enter);
    r := FromEvents(Entered(s));
    rc := 0;
  }

  method FromEvents(s: State) returns (r: State)
    requires Inv(s) && s.stage.Events? && s.ready && ManagerFree(s) && forall i | 0 <= i < |s.ops| :: !Closing(s.ops[i])
    ensures Inv(r) && r.stage.Outside? && r.ctxList == [] && r.destroy == [] && r.active == s.active
    ensures |r.handles| == |s.handles| && forall h | 0 <= h < |s.handles| :: r.handles[h] == Settled(s, h)
  {
    r := RunCallbacks(s);
    NonePending(r, r.destroy);
    ghost var called := r;
    r := ReapDestroyList(r);
    forall h | 0 <= h < |s.handles| ensures r.handles[h] == Settled(s, h) { NotPending(called, h); }
  }

  /** What a pass of the loop makes of a handle. */
  function Settled(s: State, h: nat): Handle
    requires h < |s.handles|
  {
    var x := if h in s.ctxList then Called(s.handles[h]) else s.handles[h];
    if h in s.destroy then Reaped(x) else x
  }
}

/** Every step keeps what is true of every handle: how the step changes the view of a handle, and
    that the view stays as it should be. */
module EpollHandles {
  import opened Common
  import opened EpollState
  import opened EpollSteps
  import opened EpollCounts

  // Steps of a thread. The handle that its operation is about is the only one they touch.

  /** The thread moves from one place of its operation to the next, and changes the handle. */
  function Moved(v: View, h: nat, from: Op, next: Op, x: Handle, active: int, destroy: int, ctxList: int): View {
    v.(x := x, c := Move(v.c, from, next, h), active := v.active + active, destroy := v.destroy + destroy,
       ctxList := v.ctxList + ctxList)
  }

  /** A thread at op has taken a step and is at next; a handle the operation is not about looks as before. */
  lemma {:induction false} OtherView(s: State, t: nat, next: Op, g: nat, x: Handle, h: nat)
    requires t < |s.ops| && h < |s.handles| && g < |s.handles| && g != h
    requires !Mentions(s.ops[t], h) && !Mentions(next, h)
    ensures ViewOf(SetOp(SetHandle(s, g, x), t, next), h) == ViewOf(s, h)
    ensures ViewOf(SetOp(s, t, next), h) == ViewOf(s, h)
  {
    OpsMove(s.ops, t, next, h);
    MoveElsewhere(CountsOf(s.ops, h), s.ops[t], next, h);
  }

  lemma {:induction false} OwnView(s: State, t: nat, next: Op, x: Handle, h: nat)
    requires t < |s.ops| && h < |s.handles|
    ensures var v := ViewOf(s, h);
            ViewOf(SetOp(SetHandle(s, h, x), t, next), h) == Moved(v, h, s.ops[t], next, x, 0, 0, 0)
            && Sane(v) && Nonnegative(Bump(v.c, s.ops[t], h, -1))
  {
    OpsMove(s.ops, t, next, h);
  }

  /** The step also changes lists, at most for the handle it is about. */
  lemma {:induction false} ListedView(s: State, t: nat, next: Op, g: nat, x: Handle, h: nat,
                                      active: seq<nat>, destroy: seq<nat>, ctxList: seq<nat>, ctxNum: int)
    requires t < |s.ops| && h < |s.handles| && g < |s.handles|
    requires h != g ==> !Mentions(s.ops[t], h) && !Mentions(next, h)
    requires h != g ==> In(h, active) == In(h, s.active) && In(h, destroy) == In(h, s.destroy) && In(h, ctxList) == In(h, s.ctxList)
    ensures var v := ViewOf(s, h);
            ViewOf(SetOp(SetHandle(s, g, x), t, next).(active := active, destroy := destroy, ctxList := ctxList, ctxNum := ctxNum), h) ==
              if h == g then Moved(v, h, s.ops[t], next, x, In(h, active) - In(h, s.active), In(h, destroy) - In(h, s.destroy),
                                   In(h, ctxList) - In(h, s.ctxList))
              else v
  {
    if h == g {
      OwnView(s, t, next, x, h);
    } else {
      OtherView(s, t, next, g, x, h);
    }
  }

  lemma {:induction false} AddStartOk(v: View, h: nat)
    requires ViewOk(v) && Sane(v) && Nonnegative(Bump(v.c, Idle, h, -1))
    requires v.x.fdOpen && !v.x.installed && !v.x.installing && v.c.adding == 0
    ensures ViewOk(Moved(v, h, Idle, AddListing(h), Get(v.x), 0, 0, 0))
  {}

  lemma {:induction false} AddStartKeeps(s: State, t: nat, g: nat, h: nat)
    requires t < |s.ops| && s.ops[t].Idle? && g < |s.handles| && s.handles[g].fdOpen
    requires !s.handles[g].installed && !s.handles[g].installing && CountsOf(s.ops, g).adding == 0
    requires h < |s.handles| && HandleOk(s, h)
    ensures HandleOk(Begun(s, t, AddListing(g)), h)
  {
    if h == g {
      OwnView(s, t, AddListing(g), Get(s.handles[g]), h);
      AddStartOk(ViewOf(s, h), h);
    } else {
      OtherView(s, t, AddListing(g), g, Get(s.handles[g]), h);
    }
  }

  lemma {:induction false} AddListOk(v: View, h: nat)
    requires ViewOk(v) && Sane(v) && Nonnegative(Bump(v.c, AddListing(h), h, -1))
    ensures ViewOk(Moved(v, h, AddListing(h), AddInstalling(h), v.x.(installing := true), 1, 0, 0))
  {}

  lemma {:induction false} OwnCounts(s: State, t: nat, h: nat)
    requires t < |s.ops| && h < |s.handles|
    ensures Sane(ViewOf(s, h)) && Nonnegative(Bump(CountsOf(s.ops, h), s.ops[t], h, -1))
  {
    OpsMove(s.ops, t, Idle, h);
  }

  lemma {:induction false} AddListKeepsView(s: State, t: nat, h: nat)
    requires t < |s.ops| && s.ops[t].AddListing? && Targets(s.ops[t], |s.handles|) && h < |s.handles|
    ensures var v := ViewOf(s, h);
            ViewOf(AddListed(s, t), h) ==
              if s.ops[t].h == h then Moved(v, h, s.ops[t], AddInstalling(h), v.x.(installing := true), 1, 0, 0) else v
  {
    var g := s.ops[t].h;
    var x := s.handles[g].(installing := true);
    InFront(h, g, s.active);
    ListedView(s, t, AddInstalling(g), g, x, h, [g] + s.active, s.destroy, s.ctxList, s.ctxNum);
  }

  lemma {:induction false} AddListKeeps(s: State, t: nat, h: nat)
    requires t < |s.ops| && s.ops[t].AddListing? && Targets(s.ops[t], |s.handles|)
    requires h < |s.handles| && HandleOk(s, h)
    ensures HandleOk(AddListed(s, t), h)
  {
    AddListKeepsView(s, t, h);
    if s.ops[t].h == h {
      OwnCounts(s, t, h);
      AddListOk(ViewOf(s, h), h);
    }
  }

  lemma {:induction false} AddOk(v: View, h: nat)
    requires ViewOk(v) && Sane(v) && Nonnegative(Bump(v.c, AddInstalling(h), h, -1))
    ensures ViewOk(Moved(v, h, AddInstalling(h), Idle, v.x.(installing := false, installed := true), 0, 0, 0))
  {}

  lemma {:induction false} AddFailOk(v: View, h: nat)
    requires ViewOk(v) && Sane(v) && Nonnegative(Bump(v.c, AddInstalling(h), h, -1))
    ensures ViewOk(Moved(v, h, AddInstalling(h), AddFailed(h), v.x.(installing := false), -1, 0, 0))
  {}

  lemma {:induction false} AddDoneKeeps(s: State, t: nat, ok: bool, h: nat)
    requires t < |s.ops| && s.ops[t].AddInstalling? && Targets(s.ops[t], |s.handles|)
    requires h < |s.handles| && HandleOk(s, h) && HandleOk(s, s.ops[t].h)
    ensures HandleOk(AddedOrNot(s, t, ok), h)
  {
    if ok {
      AddSucceeds(s, t, h);
    } else {
      ListedWhileInstalling(s, t);
      AddFails(s, t, h);
    }
  }

  lemma {:induction false} AddSucceeds(s: State, t: nat, h: nat)
    requires t < |s.ops| && s.ops[t].AddInstalling? && Targets(s.ops[t], |s.handles|)
    requires h < |s.handles| && HandleOk(s, h)
    ensures HandleOk(AddedOrNot(s, t, true), h)
  {
    var g := s.ops[t].h;
    var x := s.handles[g].(installing := false, installed := true);
    var r := SetOp(SetHandle(s, g, x), t, Idle);
    assert AddedOrNot(s, t, true) == r.(numHandles := s.numHandles + 1);
    assert ViewOf(AddedOrNot(s, t, true), h) == ViewOf(r, h);
    if h == g {
      OwnView(s, t, Idle, x, h);
      AddOk(ViewOf(s, h), h);
    } else {
      OtherView(s, t, Idle, g, x, h);
    }
  }

  lemma {:induction false} AddFailsView(s: State, t: nat, h: nat)
    requires t < |s.ops| && s.ops[t].AddInstalling? && Targets(s.ops[t], |s.handles|) && h < |s.handles| && s.ops[t].h in s.active
    ensures var v := ViewOf(s, h);
            ViewOf(AddedOrNot(s, t, false), h) ==
              if s.ops[t].h == h then Moved(v, h, s.ops[t], AddFailed(h), v.x.(installing := false), -1, 0, 0) else v
  {
    var g := s.ops[t].h;
    var x := s.handles[g].(installing := false);
    InWithout(h, s.active, g);
    ListedView(s, t, AddFailed(g), g, x, h, Without(s.active, g), s.destroy, s.ctxList, s.ctxNum);
  }

  lemma {:induction false} AddFails(s: State, t: nat, h: nat)
    requires t < |s.ops| && s.ops[t].AddInstalling? && Targets(s.ops[t], |s.handles|)
    requires h < |s.handles| && HandleOk(s, h) && s.ops[t].h in s.active
    ensures HandleOk(AddedOrNot(s, t, false), h)
  {
    AddFailsView(s, t, h);
    if s.ops[t].h == h {
      OwnCounts(s, t, h);
      AddFailOk(ViewOf(s, h), h);
    }
  }

  lemma {:induction false} ListedWhileInstalling(s: State, t: nat)
    requires t < |s.ops| && s.ops[t].AddInstalling? && Targets(s.ops[t], |s.handles|)
    requires HandleOk(s, s.ops[t].h)
    ensures s.ops[t].h in s.active && s.handles[s.ops[t].h].installing && !s.handles[s.ops[t].h].installed
  {
    OwnCounts(s, t, s.ops[t].h);
    InMember(s.ops[t].h, s.active);
  }

  lemma {:induction false} ReturnOk(v: View, h: nat, op: Op)
    requires ViewOk(v) && Sane(v) && Nonnegative(Bump(v.c, op, h, -1))
    requires op == AddFailed(h) || op == Completed(h) || op == Refused(h)
    ensures ViewOk(Moved(v, h, op, Idle, Put(v.x), 0, 0, 0))
  {}

  lemma {:induction false} ReturnKeeps(s: State, t: nat, h: nat)
    requires t < |s.ops| && Targets(s.ops[t], |s.handles|) && h < |s.handles| && HandleOk(s, h)
    requires s.ops[t].AddFailed? || s.ops[t].Completed? || s.ops[t].Refused?
    ensures HandleOk(Returned(s, t), h)
  {
    var g := s.ops[t].h;
    if h == g {
      OwnView(s, t, Idle, Put(s.handles[g]), h);
      ReturnOk(ViewOf(s, h), h, s.ops[t]);
    } else {
      OtherView(s, t, Idle, g, Put(s.handles[g]), h);
    }
  }

  lemma {:induction false} DelStartOk(v: View, h: nat)
    requires ViewOk(v) && Sane(v) && Nonnegative(Bump(v.c, Idle, h, -1))
    requires v.x.installed
    ensures ViewOk(Moved(v, h, Idle, DelChecked(h), v.x, 0, 0, 0))
  {}

  lemma {:induction false} DelStartKeeps(s: State, t: nat, g: nat, h: nat)
    requires t < |s.ops| && s.ops[t].Idle? && g < |s.handles| && s.handles[g].installed
    requires h < |s.handles| && HandleOk(s, h)
    ensures HandleOk(SetOp(s, t, DelChecked(g)), h)
  {
    if h == g {
      OwnView(s, t, DelChecked(g), s.handles[g], h);
      assert SetHandle(s, g, s.handles[g]) == s;
      DelStartOk(ViewOf(s, h), h);
    } else {
      OtherView(s, t, DelChecked(g), g, s.handles[g], h);
    }
  }

  lemma {:induction false} DelMissOk(v: View, h: nat)
    requires ViewOk(v) && Sane(v) && Nonnegative(Bump(v.c, DelChecked(h), h, -1))
    ensures ViewOk(Moved(v, h, DelChecked(h), Idle, v.x, 0, 0, 0))
  {}

  lemma {:induction false} DelDeferOk(v: View, h: nat)
    requires ViewOk(v) && Sane(v) && Nonnegative(Bump(v.c, DelChecked(h), h, -1))
    requires v.active > 0
    ensures ViewOk(Moved(v, h, DelChecked(h), Idle, v.x.(destroying := true), -1, 1, 0))
  {}

  lemma {:induction false} DelTakeOk(v: View, h: nat)
    requires ViewOk(v) && Sane(v) && Nonnegative(Bump(v.c, DelChecked(h), h, -1))
    requires v.active > 0
    ensures ViewOk(Moved(v, h, DelChecked(h), Completing(h), v.x.(destroying := true), -1, 0, 0))
  {}

  lemma {:induction false} DelDecideKeeps(s: State, t: nat, h: nat)
    requires t < |s.ops| && s.ops[t].DelChecked? && Targets(s.ops[t], |s.handles|)
    requires h < |s.handles| && HandleOk(s, h)
    ensures HandleOk(DelDecided(s, t), h)
  {
    var g := s.ops[t].h;
    if g !in s.active {
      DelMisses(s, t, h);
    } else if Deferred(s, t, g) {
      DelDefers(s, t, h);
    } else {
      DelTakes(s, t, h);
    }
  }

  lemma {:induction false} DelMisses(s: State, t: nat, h: nat)
    requires t < |s.ops| && s.ops[t].DelChecked? && Targets(s.ops[t], |s.handles|)
    requires h < |s.handles| && HandleOk(s, h)
    ensures HandleOk(SetOp(s, t, Idle), h)
  {
    var g := s.ops[t].h;
    if h == g {
      OwnView(s, t, Idle, s.handles[g], h);
      assert SetHandle(s, g, s.handles[g]) == s;
      DelMissOk(ViewOf(s, h), h);
    } else {
      OtherView(s, t, Idle, g, s.handles[g], h);
    }
  }

  lemma {:induction false} DelDefersView(s: State, t: nat, h: nat)
    requires t < |s.ops| && s.ops[t].DelChecked? && Targets(s.ops[t], |s.handles|) && h < |s.handles| && s.ops[t].h in s.active
    ensures var v := ViewOf(s, h);
            ViewOf(DelLeft(s, t), h) ==
              if s.ops[t].h == h then Moved(v, h, s.ops[t], Idle, v.x.(destroying := true), -1, 1, 0) else v
  {
    var g := s.ops[t].h;
    var x := s.handles[g].(destroying := true);
    InWithout(h, s.active, g);
    InFront(h, g, s.destroy);
    ListedView(s, t, Idle, g, x, h, Without(s.active, g), [g] + s.destroy, s.ctxList, s.ctxNum);
  }

  lemma {:induction false} DelDefers(s: State, t: nat, h: nat)
    requires t < |s.ops| && s.ops[t].DelChecked? && Targets(s.ops[t], |s.handles|)
    requires h < |s.handles| && HandleOk(s, h) && s.ops[t].h in s.active
    ensures HandleOk(DelLeft(s, t), h)
  {
    DelDefersView(s, t, h);
    if s.ops[t].h == h {
      OwnCounts(s, t, h);
      InMember(h, s.active);
      DelDeferOk(ViewOf(s, h), h);
    }
  }

  lemma {:induction false} DelTakesView(s: State, t: nat, h: nat)
    requires t < |s.ops| && s.ops[t].DelChecked? && Targets(s.ops[t], |s.handles|) && h < |s.handles| && s.ops[t].h in s.active
    ensures var v := ViewOf(s, h);
            ViewOf(DelTaken(s, t), h) ==
              if s.ops[t].h == h then Moved(v, h, s.ops[t], Completing(h), v.x.(destroying := true), -1, 0, 0) else v
  {
    var g := s.ops[t].h;
    var x := s.handles[g].(destroying := true);
    InWithout(h, s.active, g);
    ListedView(s, t, Completing(g), g, x, h, Without(s.active, g), s.destroy, s.ctxList, s.ctxNum);
  }

  lemma {:induction false} DelTakes(s: State, t: nat, h: nat)
    requires t < |s.ops| && s.ops[t].DelChecked? && Targets(s.ops[t], |s.handles|)
    requires h < |s.handles| && HandleOk(s, h) && s.ops[t].h in s.active
    ensures HandleOk(DelTaken(s, t), h)
  {
    DelTakesView(s, t, h);
    if s.ops[t].h == h {
      OwnCounts(s, t, h);
      InMember(h, s.active);
      DelTakeOk(ViewOf(s, h), h);
    }
  }

  lemma {:induction false} CheckPassOk(v: View, h: nat)
    requires ViewOk(v) && Sane(v) && Nonnegative(Bump(v.c, Completing(h), h, -1))
    ensures ViewOk(Moved(v, h, Completing(h), Removing(h), v.x, 0, 0, 0))
  {}

  lemma {:induction false} CheckFailOk(v: View, h: nat)
    requires ViewOk(v) && Sane(v) && Nonnegative(Bump(v.c, Completing(h), h, -1))
    requires !v.ready
    ensures ViewOk(Moved(v, h, Completing(h), Idle, v.x, 0, 0, 0))
  {}

  /** A handle that was taken off the lists passes the checks of the completion, unless the manager
      has been closed. */
  lemma {:induction false} CheckOnlyReady(s: State, t: nat)
    requires t < |s.ops| && s.ops[t].Completing? && Targets(s.ops[t], |s.handles|) && HandleOk(s, s.ops[t].h)
    ensures MayRemove(s, s.handles[s.ops[t].h]) == s.ready
  {
    OwnCounts(s, t, s.ops[t].h);
    ViewSane(s, s.ops[t].h);
  }

  lemma {:induction false} CompleteCheckKeeps(s: State, t: nat, h: nat)
    requires t < |s.ops| && s.ops[t].Completing? && Targets(s.ops[t], |s.handles|)
    requires h < |s.handles| && HandleOk(s, h) && HandleOk(s, s.ops[t].h)
    ensures HandleOk(CompleteChecked(s, t), h)
  {
    var g := s.ops[t].h;
    var next := if s.ready then Removing(g) else Idle;
    CheckOnlyReady(s, t);
    if h == g {
      OwnView(s, t, next, s.handles[g], h);
      assert SetHandle(s, g, s.handles[g]) == s;
      if s.ready { CheckPassOk(ViewOf(s, h), h); } else { CheckFailOk(ViewOf(s, h), h); }
    } else {
      OtherView(s, t, next, g, s.handles[g], h);
    }
  }

  lemma {:induction false} RemoveOk(v: View, h: nat)
    requires ViewOk(v) && Sane(v) && Nonnegative(Bump(v.c, Removing(h), h, -1))
    ensures ViewOk(Moved(v, h, Removing(h), Completed(h), Removed(v.x), 0, 0, 0))
  {}

  lemma {:induction false} CompleteRemoveKeeps(s: State, t: nat, h: nat)
    requires t < |s.ops| && s.ops[t].Removing? && Targets(s.ops[t], |s.handles|)
    requires h < |s.handles| && HandleOk(s, h)
    ensures HandleOk(CompleteRemoved(s, t), h)
  {
    var g := s.ops[t].h;
    if h == g {
      OwnView(s, t, Completed(g), Removed(s.handles[g]), h);
      RemoveOk(ViewOf(s, h), h);
    } else {
      OtherView(s, t, Completed(g), g, Removed(s.handles[g]), h);
    }
  }

  lemma {:induction false} CtxStartOk(v: View, h: nat)
    requires ViewOk(v) && Sane(v) && Nonnegative(Bump(v.c, Idle, h, -1))
    requires v.x.refCb
    ensures ViewOk(Moved(v, h, Idle, Queueing(h), Get(v.x), 0, 0, 0))
  {}

  lemma {:induction false} CtxStartKeeps(s: State, t: nat, g: nat, h: nat)
    requires t < |s.ops| && s.ops[t].Idle? && g < |s.handles| && s.handles[g].refCb
    requires h < |s.handles| && HandleOk(s, h)
    ensures HandleOk(Begun(s, t, Queueing(g)), h)
  {
    if h == g {
      OwnView(s, t, Queueing(g), Get(s.handles[g]), h);
      CtxStartOk(ViewOf(s, h), h);
    } else {
      OtherView(s, t, Queueing(g), g, Get(s.handles[g]), h);
    }
  }

  lemma {:induction false} CtxAddOk(v: View, h: nat)
    requires ViewOk(v) && Sane(v) && Nonnegative(Bump(v.c, Queueing(h), h, -1))
    requires !v.x.ctxCb
    ensures ViewOk(Moved(v, h, Queueing(h), Idle, v.x.(ctxCb := true, accepted := v.x.accepted + 1), 0, 0, 1))
  {}

  lemma {:induction false} CtxRefuseOk(v: View, h: nat)
    requires ViewOk(v) && Sane(v) && Nonnegative(Bump(v.c, Queueing(h), h, -1))
    ensures ViewOk(Moved(v, h, Queueing(h), Refused(h), v.x, 0, 0, 0))
  {}

  lemma {:induction false} CtxAddKeeps(s: State, t: nat, h: nat)
    requires t < |s.ops| && s.ops[t].Queueing? && Targets(s.ops[t], |s.handles|)
    requires h < |s.handles| && HandleOk(s, h)
    ensures HandleOk(CtxAdded(s, t), h)
  {
    var g := s.ops[t].h;
    if !s.ready || s.handles[g].ctxCb { CtxRefuses(s, t, h); } else { CtxAccepts(s, t, h); }
  }

  lemma {:induction false} CtxRefuses(s: State, t: nat, h: nat)
    requires t < |s.ops| && s.ops[t].Queueing? && Targets(s.ops[t], |s.handles|)
    requires h < |s.handles| && HandleOk(s, h)
    ensures HandleOk(SetOp(s, t, Refused(s.ops[t].h)), h)
  {
    var g := s.ops[t].h;
    if h == g {
      OwnView(s, t, Refused(g), s.handles[g], h);
      assert SetHandle(s, g, s.handles[g]) == s;
      CtxRefuseOk(ViewOf(s, h), h);
    } else {
      OtherView(s, t, Refused(g), g, s.handles[g], h);
    }
  }

  lemma {:induction false} CtxAcceptsView(s: State, t: nat, h: nat)
    requires t < |s.ops| && s.ops[t].Queueing? && Targets(s.ops[t], |s.handles|) && h < |s.handles| && s.ready && !s.handles[s.ops[t].h].ctxCb
    ensures var v := ViewOf(s, h);
            ViewOf(CtxAdded(s, t), h) ==
              if s.ops[t].h == h then Moved(v, h, s.ops[t], Idle, v.x.(ctxCb := true, accepted := v.x.accepted + 1), 0, 0, 1) else v
  {
    var g := s.ops[t].h;
    var x := s.handles[g].(ctxCb := true, accepted := s.handles[g].accepted + 1);
    InFront(h, g, s.ctxList);
    ListedView(s, t, Idle, g, x, h, s.active, s.destroy, [g] + s.ctxList, s.ctxNum + 1);
  }

  lemma {:induction false} CtxAccepts(s: State, t: nat, h: nat)
    requires t < |s.ops| && s.ops[t].Queueing? && Targets(s.ops[t], |s.handles|)
    requires h < |s.handles| && HandleOk(s, h) && s.ready && !s.handles[s.ops[t].h].ctxCb
    ensures HandleOk(CtxAdded(s, t), h)
  {
    CtxAcceptsView(s, t, h);
    if s.ops[t].h == h {
      OwnCounts(s, t, h);
      CtxAddOk(ViewOf(s, h), h);
    }
  }

  lemma {:induction false} CloseKeeps(s: State, t: nat, next: Op, h: nat)
    requires t < |s.ops| && h < |s.handles| && HandleOk(s, h)
    requires s.ops[t].Idle? || Closing(s.ops[t])
    requires next.Idle? || Closing(next)
    ensures HandleOk(SetOp(s, t, next), h) && HandleOk(SetOp(s, t, next).(ready := false), h)
  {
    OwnView(s, t, next, s.handles[h], h);
    assert SetHandle(s, h, s.handles[h]) == s;
    MoveElsewhere(CountsOf(s.ops, h), s.ops[t], next, h);
    assert ViewOf(SetOp(s, t, next), h) == ViewOf(s, h);
    NotReadyOk(ViewOf(s, h));
  }

  lemma {:induction false} NotReadyOk(v: View)
    requires ViewOk(v)
    ensures ViewOk(v.(ready := false))
  {}

  // Steps of the manager's loop.

  lemma {:induction false} InitKeeps(s: State, g: nat, open: bool, refCb: bool, h: nat)
    requires g < |s.handles| && Unused(s, g) && h < |s.handles| && HandleOk(s, h)
    ensures HandleOk(Initialised(s, g, open, refCb), h)
  {
    if h == g {
      UnusedCounts(s, h);
      InitOk(ViewOf(s, h), open, refCb);
    }
    assert ViewOf(Initialised(s, g, open, refCb), h)
        == ViewOf(s, h).(x := Initialised(s, g, open, refCb).handles[h]);
  }

  lemma {:induction false} InitOk(v: View, open: bool, refCb: bool)
    requires ViewOk(v) && Sane(v) && v.c == Counts(0, 0, 0, 0, 0, 0, 0, 0, 0)
    requires !v.x.installed && !v.x.installing && !v.x.ctxCb && !v.reapPut && !v.ctxPut
    ensures ViewOk(v.(x := v.x.(refCb := refCb, fdOpen := open, destroying := false)))
  {}

  lemma {:induction false} UnusedCounts(s: State, h: nat)
    requires h < |s.handles| && Unused(s, h)
    ensures CountsOf(s.ops, h) == Counts(0, 0, 0, 0, 0, 0, 0, 0, 0)
  {
    NoneMentioned(s.ops, h);
  }

  lemma {:induction false} DrainKeeps(s: State, h: nat)
    requires s.stage.Events? && h < |s.handles| && HandleOk(s, h)
    ensures HandleOk(Drained(s), h)
  {
    var v := ViewOf(s, h);
    assert ViewOf(Drained(s), h) == if s.ready then v.(ctxList := 0, rest := v.ctxList) else v;
    assert v.rest == 0;
    DrainOk(v);
  }

  lemma {:induction false} DrainOk(v: View)
    requires ViewOk(v) && v.rest == 0
    ensures ViewOk(v.(ctxList := 0, rest := v.ctxList))
  {}

  lemma {:induction false} CtxNextKeeps(s: State, h: nat)
    requires s.stage.CtxLoop? && Known(s, Rest(s.stage)) && h < |s.handles| && HandleOk(s, h)
    ensures HandleOk(CtxStarted(s), h)
  {
    CtxNextView(s, h);
    if s.stage.rest != [] && s.stage.rest[0] == h { CtxNextOk(ViewOf(s, h)); }
  }

  lemma {:induction false} CtxNextView(s: State, h: nat)
    requires s.stage.CtxLoop? && Known(s, Rest(s.stage)) && h < |s.handles|
    ensures var v := ViewOf(s, h);
            ViewOf(CtxStarted(s), h) ==
              if s.stage.rest != [] && s.stage.rest[0] == h
              then v.(x := v.x.(ran := v.x.ran + 1), rest := v.rest - 1, running := 1) else v
    ensures ViewOf(s, h).running == 0
    ensures s.stage.rest != [] && s.stage.rest[0] == h ==> ViewOf(s, h).rest > 0
  {
    if s.stage.rest != [] {
      assert In(h, [s.stage.rest[0]]) == One(s.stage.rest[0] == h);
    }
  }

  lemma {:induction false} CtxNextOk(v: View)
    requires ViewOk(v) && v.running == 0 && v.rest > 0
    ensures ViewOk(v.(x := v.x.(ran := v.x.ran + 1), rest := v.rest - 1, running := 1))
  {}

  lemma {:induction false} CtxFinishKeeps(s: State, h: nat)
    requires s.stage.CtxRunning? && StageTargets(s.stage, |s.handles|) && h < |s.handles| && HandleOk(s, h)
    ensures HandleOk(CtxFinished(s), h)
  {
    var v, w := ViewOf(s, h), ViewOf(CtxFinished(s), h);
    if s.stage.h == h {
      assert In(h, [h]) == 1;
      ViewSane(s, h);
      assert w == v.(x := v.x.(ctxCb := false), running := 0, ctxPut := true) && v.running == 1;
      CtxFinishOk(v);
    } else {
      assert In(h, [s.stage.h]) == 0;
      assert w == v;
    }
  }

  lemma {:induction false} CtxFinishOk(v: View)
    requires ViewOk(v) && Sane(v) && v.running == 1 && !v.ctxPut
    ensures ViewOk(v.(x := v.x.(ctxCb := false), running := 0, ctxPut := true))
  {}

  lemma {:induction false} CtxDropKeeps(s: State, h: nat)
    requires s.stage.CtxPut? && StageTargets(s.stage, |s.handles|) && h < |s.handles| && HandleOk(s, h)
    ensures HandleOk(CtxDropped(s), h)
  {
    var v, w := ViewOf(s, h), ViewOf(CtxDropped(s), h);
    if s.stage.h == h {
      assert w == v.(x := Put(v.x), ctxPut := false);
      CtxDropOk(v);
    } else {
      assert w == v;
    }
  }

  lemma {:induction false} CtxDropOk(v: View)
    requires ViewOk(v) && v.ctxPut
    ensures ViewOk(v.(x := Put(v.x), ctxPut := false))
  {}

  lemma {:induction false} ReapNextKeeps(s: State, h: nat)
    requires s.stage.Reap? && Known(s, s.destroy) && h < |s.handles| && HandleOk(s, h)
    ensures HandleOk(ReapedNext(s), h)
  {
    ReapNextView(s, h);
    ReapNextOk(ViewOf(s, h));
  }

  lemma {:induction false} ReapNextView(s: State, h: nat)
    requires s.stage.Reap? && Known(s, s.destroy) && h < |s.handles|
    ensures var v := ViewOf(s, h);
            ViewOf(ReapedNext(s), h) ==
              if s.destroy == [] || s.destroy[0] != h then v
              else if s.handles[h].ctxCb then v.(destroy := v.destroy - 1, delay := v.delay + 1)
              else v.(destroy := v.destroy - 1, reaped := v.reaped + 1)
  {
    if s.destroy != [] {
      var g, delay := s.destroy[0], s.stage.delay;
      if s.handles[g].ctxCb {
        InFront(h, g, delay);
        TakenView(s, Reap([g] + delay), h);
      } else {
        assert In(h, [g]) == One(g == h);
        TakenView(s, Reaping(g, delay), h);
      }
    }
  }

  /** The first handle to delete has been taken, and the stage is another. */
  lemma {:induction false} TakenView(s: State, stage: Stage, h: nat)
    requires h < |s.handles| && s.destroy != [] && (stage.Reap? || stage.Reaping?) && s.stage.Reap?
    ensures ViewOf(s.(destroy := s.destroy[1..], stage := stage), h)
         == ViewOf(s, h).(destroy := In(h, s.destroy) - One(s.destroy[0] == h), delay := In(h, Delay(stage)), reaped := In(h, ReapedOf(stage)))
  {
    StageView(s.(destroy := s.destroy[1..]), stage, h);
  }

  lemma {:induction false} StageView(s: State, stage: Stage, h: nat)
    requires h < |s.handles|
    ensures ViewOf(s.(stage := stage), h) == ViewOf(s, h).(
              delay := In(h, Delay(stage)), reaped := In(h, ReapedOf(stage)),
              rest := In(h, Rest(stage)), running := In(h, RunningOf(stage)),
              reapPut := stage.ReapPut? && stage.h == h, ctxPut := stage.CtxPut? && stage.h == h)
  {}

  lemma {:induction false} ReapNextOk(v: View)
    requires ViewOk(v)
    ensures ViewOk(v.(destroy := v.destroy - 1, delay := v.delay + 1))
    ensures ViewOk(v.(destroy := v.destroy - 1, reaped := v.reaped + 1))
  {}

  lemma {:induction false} ReapCheckKeeps(s: State, h: nat)
    requires s.stage.Reaping? && StageTargets(s.stage, |s.handles|)
    requires h < |s.handles| && HandleOk(s, h) && HandleOk(s, s.stage.h)
    ensures HandleOk(ReapChecked(s), h)
  {
    var v, w := ViewOf(s, h), ViewOf(ReapChecked(s), h);
    ReapOnlyReady(s);
    assert In(h, [s.stage.h]) == One(s.stage.h == h);
    if s.ready {
      assert w == v;
    } else if s.stage.h == h {
      assert w == v.(reaped := 0) && v.reaped == 1;
      ViewSane(s, h);
      ReapStopOk(v);
    } else {
      assert w == v;
    }
  }

  lemma {:induction false} ReapOnlyReady(s: State)
    requires s.stage.Reaping? && StageTargets(s.stage, |s.handles|) && HandleOk(s, s.stage.h)
    ensures MayRemove(s, s.handles[s.stage.h]) == s.ready
  {
    ViewSane(s, s.stage.h);
    assert In(s.stage.h, [s.stage.h]) == 1;
  }

  lemma {:induction false} ReapStopOk(v: View)
    requires ViewOk(v) && Sane(v) && !v.ready && v.reaped == 1
    ensures ViewOk(v.(reaped := 0))
  {}

  lemma {:induction false} ReapRemoveKeeps(s: State, h: nat)
    requires s.stage.ReapRemoving? && StageTargets(s.stage, |s.handles|) && h < |s.handles| && HandleOk(s, h)
    ensures HandleOk(ReapRemoved(s), h)
  {
    var v, w := ViewOf(s, h), ViewOf(ReapRemoved(s), h);
    assert In(h, [s.stage.h]) == One(s.stage.h == h);
    if s.stage.h == h {
      ViewSane(s, h);
      assert w == v.(x := Removed(v.x), reaped := 0, reapPut := true) && v.reaped == 1;
      ReapRemoveOk(v);
    } else {
      assert w == v;
    }
  }

  lemma {:induction false} ReapRemoveOk(v: View)
    requires ViewOk(v) && Sane(v) && v.reaped == 1 && !v.reapPut
    ensures ViewOk(v.(x := Removed(v.x), reaped := 0, reapPut := true))
  {}

  lemma {:induction false} ReapDropKeeps(s: State, h: nat)
    requires s.stage.ReapPut? && StageTargets(s.stage, |s.handles|) && h < |s.handles| && HandleOk(s, h)
    ensures HandleOk(ReapDropped(s), h)
  {
    var v, w := ViewOf(s, h), ViewOf(ReapDropped(s), h);
    if s.stage.h == h {
      assert w == v.(x := Put(v.x), reapPut := false);
      ReapDropOk(v);
    } else {
      assert w == v;
    }
  }

  lemma {:induction false} ReapDropOk(v: View)
    requires ViewOk(v) && v.reapPut
    ensures ViewOk(v.(x := Put(v.x), reapPut := false))
  {}

  lemma {:induction false} SpliceKeeps(s: State, h: nat)
    requires s.stage.Splicing? && h < |s.handles| && HandleOk(s, h)
    ensures HandleOk(Spliced(s), h)
  {
    var v := ViewOf(s, h);
    InBoth(h, s.destroy, s.stage.delay);
    assert ViewOf(Spliced(s), h) == v.(destroy := v.destroy + v.delay, delay := 0);
    SpliceOk(v);
  }

  lemma {:induction false} SpliceOk(v: View)
    requires ViewOk(v)
    ensures ViewOk(v.(destroy := v.destroy + v.delay, delay := 0))
  {}
}

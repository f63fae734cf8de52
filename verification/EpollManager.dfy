/** Every step keeps what is true of the manager as a whole, and so every run does. */
module EpollManager {
  import opened Common
  import opened EpollState
  import opened EpollSteps
  import opened EpollCounts
  import opened EpollHandles

  /** What a close has seen stays so, or the step has disturbed it. */
  ghost predicate Undisturbed(s: State, r: State) {
    || r.activity > s.activity
    || (&& r.activity == s.activity
        && (Quiet(s) && Queue(s) == [] ==> Quiet(r) && Queue(r) == [])
        && (Quiet(s) && s.active == [] && s.destroy == [] ==> r.active == [] && r.destroy == []))
  }

  lemma {:induction false} CloseKept(s: State, r: State, i: nat)
    requires i < |s.ops| && i < |r.ops| && CloseOk(s, i) && r.ops[i] == s.ops[i]
    requires Undisturbed(s, r) && r.ready == s.ready
    ensures CloseOk(r, i)
  {}

  lemma {:induction false} ElementsOf(s: State, q: seq<nat>, p: seq<nat>)
    requires Known(s, q) && forall i | 0 <= i < |p| :: p[i] in q
    ensures Known(s, p)
  {}

  ghost predicate Well(s: State) { Shaped(s) && ManagerOk(s) }

  // A step of thread t: what it must respect for the manager to stay well.

  ghost predicate ThreadStep(s: State, r: State, t: nat) {
    && t < |s.ops| && |r.ops| == |s.ops| && r.ops == s.ops[t := r.ops[t]]
    && |r.handles| == |s.handles| && r.stage == s.stage && r.ready == s.ready
    && Targets(r.ops[t], |s.handles|)
    && Known(r, r.active) && Known(r, r.destroy) && Known(r, r.ctxList)
    && r.ctxNum - s.ctxNum == |r.ctxList| - |s.ctxList|
    && r.numHandles == Installed(r.handles)
    && (t == 0 && r.ops[t] != Idle ==> MayCall(s.stage))
  }

  lemma {:induction false} ThreadWell(s: State, r: State, t: nat)
    requires Well(s) && ThreadStep(s, r, t) && Undisturbed(s, r) && !Closing(r.ops[t])
    ensures Well(r)
  {
    forall i | 0 <= i < |r.ops| ensures Targets(r.ops[i], |r.handles|) {
      if i != t { assert Targets(s.ops[i], |s.handles|); }
    }
    forall i | 0 <= i < |r.ops| ensures CloseOk(r, i) {
      if i != t { CloseKept(s, r, i); }
    }
  }

  lemma {:induction false} QuietKept(s: State, r: State, t: nat)
    requires t < |s.ops| && |r.ops| == |s.ops| && r.ops == s.ops[t := r.ops[t]] && r.stage == s.stage
    ensures !Adding(r.ops[t]) && Quiet(s) ==> Quiet(r)
    ensures Adding(s.ops[t]) ==> !Quiet(s)
  {}

  lemma {:induction false} WithoutKnown(s: State, q: seq<nat>, x: nat)
    requires Known(s, q) && x in q
    ensures Known(s, Without(q, x))
  {
    InWithout(0, q, x);
    ElementsOf(s, q, Without(q, x));
  }

  // The steps of threads.

  lemma {:induction false} InitWell(s: State, h: nat, open: bool, refCb: bool)
    requires Well(s) && h < |s.handles|
    ensures Well(Initialised(s, h, open, refCb))
  {
    var r := Initialised(s, h, open, refCb);
    InstalledUpdate(s.handles, h, r.handles[h]);
    assert Shaped(r);
    forall i | 0 <= i < |r.ops| ensures CloseOk(r, i) { CloseKept(s, r, i); }
  }

  lemma {:induction false} BegunWell(s: State, t: nat, op: Op)
    requires Well(s) && Free(s, t) && (op.AddListing? || op.Queueing?) && op.h < |s.handles|
    ensures Well(Begun(s, t, op))
  {
    var r := Begun(s, t, op);
    InstalledUpdate(s.handles, op.h, r.handles[op.h]);
    assert Undisturbed(s, r);
    assert ThreadStep(s, r, t);
    ThreadWell(s, r, t);
  }

  lemma {:induction false} AddListWell(s: State, t: nat)
    requires Well(s) && t < |s.ops| && s.ops[t].AddListing? && Targets(s.ops[t], |s.handles|)
    ensures Well(AddListed(s, t))
  {
    var r := AddListed(s, t);
    InstalledUpdate(s.handles, s.ops[t].h, r.handles[s.ops[t].h]);
    QuietKept(s, r, t);
    assert Undisturbed(s, r);
    assert ThreadStep(s, r, t);
    ThreadWell(s, r, t);
  }

  lemma {:induction false} AddDoneWell(s: State, t: nat, ok: bool)
    requires Well(s) && t < |s.ops| && s.ops[t].AddInstalling? && Targets(s.ops[t], |s.handles|)
    requires HandleOk(s, s.ops[t].h)
    ensures Well(AddedOrNot(s, t, ok))
  {
    var r := AddedOrNot(s, t, ok);
    ListedWhileInstalling(s, t);
    WithoutKnown(s, s.active, s.ops[t].h);
    InstalledUpdate(s.handles, s.ops[t].h, r.handles[s.ops[t].h]);
    QuietKept(s, r, t);
    assert Undisturbed(s, r);
    assert ThreadStep(s, r, t);
    ThreadWell(s, r, t);
  }

  lemma {:induction false} ReturnWell(s: State, t: nat)
    requires Well(s) && t < |s.ops| && Targets(s.ops[t], |s.handles|)
    requires s.ops[t].AddFailed? || s.ops[t].Completed? || s.ops[t].Refused?
    ensures Well(Returned(s, t))
  {
    var r := Returned(s, t);
    InstalledUpdate(s.handles, s.ops[t].h, r.handles[s.ops[t].h]);
    QuietKept(s, r, t);
    assert Undisturbed(s, r);
    assert ThreadStep(s, r, t);
    ThreadWell(s, r, t);
  }

  /** A step that changes nothing but where the thread is. */
  lemma {:induction false} MoveWell(s: State, t: nat, next: Op)
    requires Well(s) && t < |s.ops| && Targets(next, |s.handles|) && !Adding(next) && !Closing(next)
    requires s.ops[t] == Idle && t == 0 ==> MayCall(s.stage)
    ensures Well(SetOp(s, t, next))
  {
    var r := SetOp(s, t, next);
    QuietKept(s, r, t);
    assert Undisturbed(s, r);
    assert ThreadStep(s, r, t);
    ThreadWell(s, r, t);
  }

  lemma {:induction false} DelDecideWell(s: State, t: nat)
    requires Well(s) && t < |s.ops| && s.ops[t].DelChecked? && Targets(s.ops[t], |s.handles|)
    ensures Well(DelDecided(s, t))
  {
    if s.ops[t].h !in s.active {
      MoveWell(s, t, Idle);
    } else if Deferred(s, t, s.ops[t].h) {
      UnlistedWell(s, t, DelLeft(s, t));
    } else {
      UnlistedWell(s, t, DelTaken(s, t));
    }
  }

  lemma {:induction false} UnlistedWell(s: State, t: nat, r: State)
    requires Well(s) && t < |s.ops| && s.ops[t].DelChecked? && Targets(s.ops[t], |s.handles|) && s.ops[t].h in s.active
    requires r == DelLeft(s, t) || r == DelTaken(s, t)
    ensures Well(r)
  {
    var h := s.ops[t].h;
    WithoutKnown(s, s.active, h);
    InstalledUpdate(s.handles, h, s.handles[h].(destroying := true));
    QuietKept(s, r, t);
    assert Undisturbed(s, r);
    assert ThreadStep(s, r, t);
    ThreadWell(s, r, t);
  }

  lemma {:induction false} CompleteRemoveWell(s: State, t: nat)
    requires Well(s) && t < |s.ops| && s.ops[t].Removing? && Targets(s.ops[t], |s.handles|)
    requires s.handles[s.ops[t].h].installed
    ensures Well(CompleteRemoved(s, t))
  {
    var r := CompleteRemoved(s, t);
    InstalledUpdate(s.handles, s.ops[t].h, r.handles[s.ops[t].h]);
    QuietKept(s, r, t);
    assert Undisturbed(s, r);
    assert ThreadStep(s, r, t);
    ThreadWell(s, r, t);
  }

  lemma {:induction false} CtxAddWell(s: State, t: nat)
    requires Well(s) && t < |s.ops| && s.ops[t].Queueing? && Targets(s.ops[t], |s.handles|)
    ensures Well(CtxAdded(s, t))
  {
    var r := CtxAdded(s, t);
    var h := s.ops[t].h;
    if !s.ready || s.handles[h].ctxCb {
      MoveWell(s, t, Refused(h));
    } else {
      InstalledUpdate(s.handles, h, r.handles[h]);
      QuietKept(s, r, t);
      assert Undisturbed(s, r);
      assert ThreadStep(s, r, t);
      ThreadWell(s, r, t);
    }
  }

  // The steps of the loop. The loop is not running while a close is undisturbed.

  ghost predicate LoopChange(s: State, r: State) {
    && r.ops == s.ops && |r.handles| == |s.handles| && r.ready == s.ready && r.active == s.active
    && StageTargets(r.stage, |s.handles|)
    && Known(r, r.destroy) && Known(r, r.ctxList) && Known(r, Rest(r.stage)) && Known(r, Delay(r.stage))
    && r.ctxNum == |Queue(r)|
    && r.numHandles == Installed(r.handles)
    && (r.activity > s.activity || (r.activity == s.activity && !s.stage.Outside?))
  }

  lemma {:induction false} LoopWell(s: State, r: State)
    requires Well(s) && ManagerFree(s) && LoopChange(s, r)
    ensures Well(r)
  {
    forall i | 0 <= i < |r.ops| ensures CloseOk(r, i) { CloseKept(s, r, i); }
  }

  lemma {:induction false} EnterWell(s: State)
    requires Well(s) && ManagerFree(s) && s.stage.Outside?
    ensures Well(Entered(s))
  {
    LoopWell(s, Entered(s));
  }

  lemma {:induction false} DrainWell(s: State)
    requires Well(s) && ManagerFree(s) && s.stage.Events?
    ensures Well(Drained(s))
  {
    LoopWell(s, Drained(s));
  }

  lemma {:induction false} CtxNextWell(s: State)
    requires Well(s) && ManagerFree(s) && s.stage.CtxLoop?
    ensures Well(CtxStarted(s))
  {
    var r := CtxStarted(s);
    if s.stage.rest != [] {
      var h := s.stage.rest[0];
      InstalledUpdate(s.handles, h, r.handles[h]);
    }
    LoopWell(s, r);
  }

  lemma {:induction false} CtxFinishWell(s: State)
    requires Well(s) && ManagerFree(s) && s.stage.CtxRunning?
    ensures Well(CtxFinished(s))
  {
    var r := CtxFinished(s);
    InstalledUpdate(s.handles, s.stage.h, r.handles[s.stage.h]);
    LoopWell(s, r);
  }

  lemma {:induction false} CtxDropWell(s: State)
    requires Well(s) && ManagerFree(s) && s.stage.CtxPut?
    ensures Well(CtxDropped(s))
  {
    var r := CtxDropped(s);
    InstalledUpdate(s.handles, s.stage.h, r.handles[s.stage.h]);
    LoopWell(s, r);
  }

  lemma {:induction false} ReapNextWell(s: State)
    requires Well(s) && ManagerFree(s) && s.stage.Reap?
    ensures Well(ReapedNext(s))
  {
    LoopWell(s, ReapedNext(s));
  }

  lemma {:induction false} ReapCheckWell(s: State)
    requires Well(s) && ManagerFree(s) && s.stage.Reaping?
    ensures Well(ReapChecked(s))
  {
    LoopWell(s, ReapChecked(s));
  }

  lemma {:induction false} ReapRemoveWell(s: State)
    requires Well(s) && ManagerFree(s) && s.stage.ReapRemoving? && s.handles[s.stage.h].installed
    ensures Well(ReapRemoved(s))
  {
    var r := ReapRemoved(s);
    InstalledUpdate(s.handles, s.stage.h, r.handles[s.stage.h]);
    LoopWell(s, r);
  }

  lemma {:induction false} ReapDropWell(s: State)
    requires Well(s) && ManagerFree(s) && s.stage.ReapPut?
    ensures Well(ReapDropped(s))
  {
    var r := ReapDropped(s);
    InstalledUpdate(s.handles, s.stage.h, r.handles[s.stage.h]);
    LoopWell(s, r);
  }

  lemma {:induction false} SpliceWell(s: State)
    requires Well(s) && ManagerFree(s) && s.stage.Splicing?
    ensures Well(Spliced(s))
  {
    LoopWell(s, Spliced(s));
  }

  // The steps of a close.

  lemma {:induction false} CloseStartWell(s: State, t: nat)
    requires Well(s) && Free(s, t) && s.ready && s.ctxNum == 0 && forall i | 0 <= i < |s.ops| :: !Closing(s.ops[i])
    ensures Well(SetOp(s, t, Counted(s.activity, Quiet(s))))
  {
    var r := SetOp(s, t, Counted(s.activity, Quiet(s)));
    QuietKept(s, r, t);
    assert Queue(s) == [];
    ClosingWell(s, r, t);
  }

  lemma {:induction false} ClosingWell(s: State, r: State, t: nat)
    requires Well(s) && ThreadStep(s, r, t) && Undisturbed(s, r)
    requires forall i | 0 <= i < |s.ops| && i != t :: !Closing(s.ops[i])
    requires CloseOk(r, t)
    ensures Well(r)
  {
    forall i | 0 <= i < |r.ops| ensures Targets(r.ops[i], |r.handles|) && CloseOk(r, i) {
      if i != t { assert Targets(s.ops[i], |s.handles|); }
    }
  }

  lemma {:induction false} CloseTallyWell(s: State, t: nat)
    requires Well(s) && t < |s.ops| && s.ops[t].Counted?
    ensures Well(Tally(s, t))
  {
    var r := Tally(s, t);
    assert CloseOk(s, t);
    QuietKept(s, r, t);
    ClosingWell(s, r, t);
  }

  lemma {:induction false} CloseFinishWell(s: State, t: nat)
    requires Well(s) && t < |s.ops| && s.ops[t].Tallied?
    ensures Well(SetOp(s, t, Idle).(ready := false))
  {
    var r := SetOp(s, t, Idle);
    QuietKept(s, r, t);
    ClosingWell(s, r, t);
  }
}

/** What holds in every run of the epoll manager. */
module EpollRuns {
  import opened Common
  import opened EpollState
  import opened EpollSteps
  import opened EpollCounts
  import opened EpollHandles
  import opened EpollManager

  ghost predicate HandlesOk(s: State) { forall h | 0 <= h < |s.handles| :: HandleOk(s, h) }

  lemma {:induction false} RemovingInstalled(s: State, t: nat)
    requires t < |s.ops| && s.ops[t].Removing? && Targets(s.ops[t], |s.handles|) && HandleOk(s, s.ops[t].h)
    ensures s.handles[s.ops[t].h].installed
  {
    OwnCounts(s, t, s.ops[t].h);
  }

  lemma {:induction false} ReapedInstalled(s: State)
    requires s.stage.Reaping? || s.stage.ReapRemoving?
    requires StageTargets(s.stage, |s.handles|) && HandleOk(s, s.stage.h)
    ensures s.handles[s.stage.h].installed
  {
    ViewSane(s, s.stage.h);
    assert In(s.stage.h, [s.stage.h]) == 1;
  }

  lemma {:induction false} AddWell(s: State, step: AddStep)
    requires Inv(s) && AddEnabled(s, step)
    ensures Well(ApplyAdd(s, step))
  {
    match step
    case AddStart(t, h) => BegunWell(s, t, AddListing(h));
    case AddList(t) => AddListWell(s, t);
    case AddDone(t, ok) => AddDoneWell(s, t, ok);
    case AddPut(t) => ReturnWell(s, t);
  }

  lemma {:induction false} AddHandles(s: State, step: AddStep, h: nat)
    requires Shaped(s) && HandlesOk(s) && AddEnabled(s, step) && h < |ApplyAdd(s, step).handles| == |s.handles|
    ensures HandleOk(ApplyAdd(s, step), h)
  {
    assert HandleOk(s, h);
    match step
    case AddStart(t, g) => AddStartKeeps(s, t, g, h);
    case AddList(t) => AddListKeeps(s, t, h);
    case AddDone(t, ok) => AddDoneKeeps(s, t, ok, h);
    case AddPut(t) => ReturnKeeps(s, t, h);
  }

  lemma {:induction false} AddSize(s: State, step: AddStep)
    requires Shaped(s) && AddEnabled(s, step)
    ensures |ApplyAdd(s, step).handles| == |s.handles|
  {}

  lemma {:induction false} AddInv(s: State, step: AddStep)
    requires Inv(s) && AddEnabled(s, step)
    ensures Inv(ApplyAdd(s, step))
  {
    var r := ApplyAdd(s, step);
    AddWell(s, step);
    AddSize(s, step);
    forall h | 0 <= h < |r.handles| ensures HandleOk(r, h) { AddHandles(s, step, h); }
  }

  lemma {:induction false} DelWell(s: State, step: DelStep)
    requires Inv(s) && DelEnabled(s, step)
    ensures Well(ApplyDel(s, step))
  {
    match step
    case DelStart(t, h) => MoveWell(s, t, DelChecked(h));
    case DelDecide(t) => DelDecideWell(s, t);
    case CompleteCheck(t) => MoveWell(s, t, CompleteChecked(s, t).ops[t]);
    case CompleteRemove(t) => RemovingInstalled(s, t); CompleteRemoveWell(s, t);
    case CompletePut(t) => ReturnWell(s, t);
  }

  lemma {:induction false} DelHandles(s: State, step: DelStep, h: nat)
    requires Shaped(s) && HandlesOk(s) && DelEnabled(s, step) && h < |ApplyDel(s, step).handles| == |s.handles|
    ensures HandleOk(ApplyDel(s, step), h)
  {
    assert HandleOk(s, h);
    match step
    case DelStart(t, g) => DelStartKeeps(s, t, g, h);
    case DelDecide(t) => DelDecideKeeps(s, t, h);
    case CompleteCheck(t) => CompleteCheckKeeps(s, t, h);
    case CompleteRemove(t) => CompleteRemoveKeeps(s, t, h);
    case CompletePut(t) => ReturnKeeps(s, t, h);
  }

  lemma {:induction false} DelSize(s: State, step: DelStep)
    requires Shaped(s) && DelEnabled(s, step)
    ensures |ApplyDel(s, step).handles| == |s.handles|
  {}

  lemma {:induction false} DelInv(s: State, step: DelStep)
    requires Inv(s) && DelEnabled(s, step)
    ensures Inv(ApplyDel(s, step))
  {
    var r := ApplyDel(s, step);
    DelWell(s, step);
    DelSize(s, step);
    forall h | 0 <= h < |r.handles| ensures HandleOk(r, h) { DelHandles(s, step, h); }
  }

  lemma {:induction false} CtxWell(s: State, step: CtxStep)
    requires Inv(s) && CtxEnabled(s, step)
    ensures Well(ApplyCtx(s, step))
  {
    match step
    case CtxStart(t, h) => BegunWell(s, t, Queueing(h));
    case CtxAdd(t) => CtxAddWell(s, t);
    case CtxPutBack(t) => ReturnWell(s, t);
  }

  lemma {:induction false} CtxHandles(s: State, step: CtxStep, h: nat)
    requires Shaped(s) && HandlesOk(s) && CtxEnabled(s, step) && h < |ApplyCtx(s, step).handles| == |s.handles|
    ensures HandleOk(ApplyCtx(s, step), h)
  {
    assert HandleOk(s, h);
    match step
    case CtxStart(t, g) => CtxStartKeeps(s, t, g, h);
    case CtxAdd(t) => CtxAddKeeps(s, t, h);
    case CtxPutBack(t) => ReturnKeeps(s, t, h);
  }

  lemma {:induction false} CtxSize(s: State, step: CtxStep)
    requires Shaped(s) && CtxEnabled(s, step)
    ensures |ApplyCtx(s, step).handles| == |s.handles|
  {}

  lemma {:induction false} CtxInv(s: State, step: CtxStep)
    requires Inv(s) && CtxEnabled(s, step)
    ensures Inv(ApplyCtx(s, step))
  {
    var r := ApplyCtx(s, step);
    CtxWell(s, step);
    CtxSize(s, step);
    forall h | 0 <= h < |r.handles| ensures HandleOk(r, h) { CtxHandles(s, step, h); }
  }

  lemma {:induction false} LoopWell(s: State, step: LoopStep)
    requires Inv(s) && LoopEnabled(s, step)
    ensures Well(ApplyLoop(s, step))
  {
    match step
    case Enter => EnterWell(s);
    case Drain => DrainWell(s);
    case CtxNext => CtxNextWell(s);
    case CtxFinish => CtxFinishWell(s);
    case CtxDrop => CtxDropWell(s);
  }

  lemma {:induction false} LoopHandles(s: State, step: LoopStep, h: nat)
    requires Shaped(s) && HandlesOk(s) && LoopEnabled(s, step) && h < |ApplyLoop(s, step).handles| == |s.handles|
    ensures HandleOk(ApplyLoop(s, step), h)
  {
    assert HandleOk(s, h);
    match step
    case Enter => assert ViewOf(Entered(s), h) == ViewOf(s, h);
    case Drain => DrainKeeps(s, h);
    case CtxNext => CtxNextKeeps(s, h);
    case CtxFinish => CtxFinishKeeps(s, h);
    case CtxDrop => CtxDropKeeps(s, h);
  }

  lemma {:induction false} LoopSize(s: State, step: LoopStep)
    requires Shaped(s) && LoopEnabled(s, step)
    ensures |ApplyLoop(s, step).handles| == |s.handles|
  {}

  lemma {:induction false} LoopInv(s: State, step: LoopStep)
    requires Inv(s) && LoopEnabled(s, step)
    ensures Inv(ApplyLoop(s, step))
  {
    var r := ApplyLoop(s, step);
    LoopWell(s, step);
    LoopSize(s, step);
    forall h | 0 <= h < |r.handles| ensures HandleOk(r, h) { LoopHandles(s, step, h); }
  }

  lemma {:induction false} ReapWell(s: State, step: ReapStep)
    requires Inv(s) && ReapEnabled(s, step)
    ensures Well(ApplyReap(s, step))
  {
    match step
    case ReapNext => ReapNextWell(s);
    case ReapCheck => ReapCheckWell(s);
    case ReapRemove => ReapedInstalled(s); ReapRemoveWell(s);
    case ReapDrop => ReapDropWell(s);
    case Splice => SpliceWell(s);
  }

  lemma {:induction false} ReapHandles(s: State, step: ReapStep, h: nat)
    requires Shaped(s) && HandlesOk(s) && ReapEnabled(s, step) && h < |ApplyReap(s, step).handles| == |s.handles|
    ensures HandleOk(ApplyReap(s, step), h)
  {
    assert HandleOk(s, h);
    match step
    case ReapNext => ReapNextKeeps(s, h);
    case ReapCheck => ReapCheckKeeps(s, h);
    case ReapRemove => ReapRemoveKeeps(s, h);
    case ReapDrop => ReapDropKeeps(s, h);
    case Splice => SpliceKeeps(s, h);
  }

  lemma {:induction false} ReapSize(s: State, step: ReapStep)
    requires Shaped(s) && ReapEnabled(s, step)
    ensures |ApplyReap(s, step).handles| == |s.handles|
  {}

  lemma {:induction false} ReapInv(s: State, step: ReapStep)
    requires Inv(s) && ReapEnabled(s, step)
    ensures Inv(ApplyReap(s, step))
  {
    var r := ApplyReap(s, step);
    ReapWell(s, step);
    ReapSize(s, step);
    forall h | 0 <= h < |r.handles| ensures HandleOk(r, h) { ReapHandles(s, step, h); }
  }

  lemma {:induction false} CloseWell(s: State, step: CloseStep)
    requires Inv(s) && CloseEnabled(s, step)
    ensures Well(ApplyClose(s, step))
  {
    match step
    case CloseStart(t) => CloseStartWell(s, t);
    case CloseTally(t) => CloseTallyWell(s, t);
    case CloseFinish(t) => CloseFinishWell(s, t);
  }

  lemma {:induction false} CloseHandles(s: State, step: CloseStep, h: nat)
    requires Shaped(s) && HandlesOk(s) && CloseEnabled(s, step) && h < |ApplyClose(s, step).handles| == |s.handles|
    ensures HandleOk(ApplyClose(s, step), h)
  {
    assert HandleOk(s, h);
    match step
    case CloseStart(t) => CloseKeeps(s, t, Counted(s.activity, Quiet(s)), h);
    case CloseTally(t) => CloseKeeps(s, t, Tally(s, t).ops[t], h);
    case CloseFinish(t) => CloseKeeps(s, t, Idle, h);
  }

  lemma {:induction false} CloseSize(s: State, step: CloseStep)
    requires Shaped(s) && CloseEnabled(s, step)
    ensures |ApplyClose(s, step).handles| == |s.handles|
  {}

  lemma {:induction false} CloseInv(s: State, step: CloseStep)
    requires Inv(s) && CloseEnabled(s, step)
    ensures Inv(ApplyClose(s, step))
  {
    var r := ApplyClose(s, step);
    CloseWell(s, step);
    CloseSize(s, step);
    forall h | 0 <= h < |r.handles| ensures HandleOk(r, h) { CloseHandles(s, step, h); }
  }

  /** Every step keeps the invariant. */
  lemma {:induction false} StepKeeps(s: State, step: Step)
    requires Inv(s) && Enabled(s, step)
    ensures Inv(Apply(s, step))
  {
    match step
    case Init(g, open, refCb) =>
      InitWell(s, g, open, refCb);
      forall h | 0 <= h < |s.handles| ensures HandleOk(Initialised(s, g, open, refCb), h) {
        InitKeeps(s, g, open, refCb, h);
      }
    case ByAdd(add) => AddInv(s, add);
    case ByDel(del) => DelInv(s, del);
    case ByCtx(ctx) => CtxInv(s, ctx);
    case ByLoop(loop) => LoopInv(s, loop);
    case ByReap(reap) => ReapInv(s, reap);
    case ByClose(close) => CloseInv(s, close);
  }
}

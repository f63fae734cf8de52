/** The steps of the epoll manager. Checks that read without the mutex and the reference callback
    that follows them are one step; so is each region under the mutex. A step whose checks fail
    changes nothing and is left out. */
module EpollSteps {
  import opened Common
  import opened EpollState

  datatype AddStep = AddStart(t: nat, h: nat) | AddList(t: nat) | AddDone(t: nat, ok: bool) | AddPut(t: nat)

  datatype DelStep =
    | DelStart(t: nat, h: nat) | DelDecide(t: nat)
    | CompleteCheck(t: nat) | CompleteRemove(t: nat) | CompletePut(t: nat)

  datatype CtxStep = CtxStart(t: nat, h: nat) | CtxAdd(t: nat) | CtxPutBack(t: nat)

  datatype LoopStep = Enter | Drain | CtxNext | CtxFinish | CtxDrop

  datatype ReapStep = ReapNext | ReapCheck | ReapRemove | ReapDrop | Splice

  datatype CloseStep = CloseStart(t: nat) | CloseTally(t: nat) | CloseFinish(t: nat)

  datatype Step =
    | Init(h: nat, open: bool, refCb: bool)
    | ByAdd(add: AddStep) | ByDel(del: DelStep) | ByCtx(ctx: CtxStep)
    | ByLoop(loop: LoopStep) | ByReap(reap: ReapStep) | ByClose(close: CloseStep)

  // Who may take a step.

  /** Thread t is free to start an operation. */
  predicate Free(s: State, t: nat) { t < |s.ops| && s.ops[t].Idle? && (t == 0 ==> MayCall(s.stage)) }

  /** The manager thread is in the manager's own code. */
  predicate ManagerFree(s: State) { |s.ops| > 0 && s.ops[0].Idle? }

  predicate Mentions(op: Op, h: nat) { !op.Idle? && !op.Counted? && !op.Tallied? && op.h == h }

  predicate StageMentions(stage: Stage, h: nat) {
    (stage.CtxRunning? || stage.CtxPut? || stage.Reaping? || stage.ReapRemoving? || stage.ReapPut?) && stage.h == h
  }

  /** Nothing is under way with the handle; only then is it initialised again. */
  predicate Unused(s: State, h: nat)
    requires h < |s.handles|
  {
    var x := s.handles[h];
    && !x.installed && !x.installing && !x.ctxCb && !StageMentions(s.stage, h)
    && forall i | 0 <= i < |s.ops| :: !Mentions(s.ops[i], h)
  }

  /** The deletion is left to the manager thread. */
  predicate Deferred(s: State, t: nat, h: nat)
    requires h < |s.handles|
  {
    var x := s.handles[h];
    (x.refCb && !(s.started && t == 0)) || (x.ctxCb && RunningOf(s.stage) != [h])
  }

  predicate AddEnabled(s: State, step: AddStep) {
    match step
    case AddStart(t, h) =>
      && Free(s, t) && h < |s.handles| && s.ready && s.handles[h].fdOpen
      && !s.handles[h].installed && !s.handles[h].installing
      && CountsOf(s.ops, h).adding == 0   // one adder
    case AddList(t) => t < |s.ops| && s.ops[t].AddListing?
    case AddDone(t, _) => t < |s.ops| && s.ops[t].AddInstalling?
    case AddPut(t) => t < |s.ops| && s.ops[t].AddFailed?
  }

  predicate DelEnabled(s: State, step: DelStep) {
    match step
    case DelStart(t, h) => Free(s, t) && h < |s.handles| && s.ready && s.handles[h].fdOpen && s.handles[h].installed
    case DelDecide(t) => t < |s.ops| && s.ops[t].DelChecked?
    case CompleteCheck(t) => t < |s.ops| && s.ops[t].Completing?
    case CompleteRemove(t) => t < |s.ops| && s.ops[t].Removing?
    case CompletePut(t) => t < |s.ops| && s.ops[t].Completed?
  }

  predicate CtxEnabled(s: State, step: CtxStep) {
    match step
    case CtxStart(t, h) => Free(s, t) && h < |s.handles| && s.handles[h].refCb && !(s.started && t == 0)
    case CtxAdd(t) => t < |s.ops| && s.ops[t].Queueing?
    case CtxPutBack(t) => t < |s.ops| && s.ops[t].Refused?
  }

  predicate LoopEnabled(s: State, step: LoopStep) {
    ManagerFree(s) &&
    match step
    case Enter => s.stage.Outside? && s.ready
    case Drain => s.stage.Events? && forall i | 0 <= i < |s.ops| :: !Closing(s.ops[i])
    case CtxNext => s.stage.CtxLoop?
    case CtxFinish => s.stage.CtxRunning?
    case CtxDrop => s.stage.CtxPut?
  }

  predicate ReapEnabled(s: State, step: ReapStep) {
    ManagerFree(s) &&
    match step
    case ReapNext => s.stage.Reap?
    case ReapCheck => s.stage.Reaping?
    case ReapRemove => s.stage.ReapRemoving?
    case ReapDrop => s.stage.ReapPut?
    case Splice => s.stage.Splicing?
  }

  predicate CloseEnabled(s: State, step: CloseStep) {
    match step
    case CloseStart(t) => Free(s, t) && s.ready && s.ctxNum == 0 && forall i | 0 <= i < |s.ops| :: !Closing(s.ops[i])
    case CloseTally(t) => t < |s.ops| && s.ops[t].Counted?
    case CloseFinish(t) => t < |s.ops| && s.ops[t].Tallied?
  }

  predicate Enabled(s: State, step: Step) {
    match step
    case Init(h, _, _) => h < |s.handles| && Unused(s, h)
    case ByAdd(add) => AddEnabled(s, add)
    case ByDel(del) => DelEnabled(s, del)
    case ByCtx(ctx) => CtxEnabled(s, ctx)
    case ByLoop(loop) => LoopEnabled(s, loop)
    case ByReap(reap) => ReapEnabled(s, reap)
    case ByClose(close) => CloseEnabled(s, close)
  }

  // What a step does.

  function SetOp(s: State, t: nat, op: Op): State
    requires t < |s.ops|
  { s.(ops := s.ops[t := op]) }

  function SetHandle(s: State, h: nat, x: Handle): State
    requires h < |s.handles|
  { s.(handles := s.handles[h := x]) }

  function Get(x: Handle): Handle { x.(refs := x.refs + One(x.refCb)) }

  function Put(x: Handle): Handle { x.(refs := x.refs - One(x.refCb)) }

  function Without(q: seq<nat>, h: nat): seq<nat> {
    if q == [] then [] else if q[0] == h then q[1..] else [q[0]] + Without(q[1..], h)
  }

  function Removed(x: Handle): Handle { x.(installed := false, fdOpen := false, destroying := false) }

  function OpHandle(s: State, t: nat): Handle
    requires t < |s.ops| && Targets(s.ops[t], |s.handles|)
    requires !s.ops[t].Idle? && !Closing(s.ops[t])
  { s.handles[s.ops[t].h] }

  function Initialised(s: State, h: nat, open: bool, refCb: bool): State
    requires h < |s.handles|
  { SetHandle(s, h, s.handles[h].(refCb := refCb, fdOpen := open, destroying := false)) }

  /** A reference is taken for an operation that will put something on a list. */
  function Begun(s: State, t: nat, op: Op): State
    requires t < |s.ops| && (op.AddListing? || op.Queueing?) && op.h < |s.handles|
  { SetOp(SetHandle(s, op.h, Get(s.handles[op.h])), t, op).(activity := s.activity + 1) }

  function AddListed(s: State, t: nat): State
    requires t < |s.ops| && s.ops[t].AddListing? && Targets(s.ops[t], |s.handles|)
  {
    var h := s.ops[t].h;
    SetOp(SetHandle(s, h, s.handles[h].(installing := true)), t, AddInstalling(h)).(active := [h] + s.active)
  }

  function AddedOrNot(s: State, t: nat, ok: bool): State
    requires t < |s.ops| && s.ops[t].AddInstalling? && Targets(s.ops[t], |s.handles|)
  {
    var h := s.ops[t].h;
    var x := s.handles[h].(installing := false);
    if ok then
      SetOp(SetHandle(s, h, x.(installed := true)), t, Idle).(numHandles := s.numHandles + 1)
    else
      SetOp(SetHandle(s, h, x), t, AddFailed(h)).(active := Without(s.active, h))
  }

  /** The reference of a finished operation goes back. */
  function Returned(s: State, t: nat): State
    requires t < |s.ops| && Targets(s.ops[t], |s.handles|) && !s.ops[t].Idle? && !Closing(s.ops[t])
  { SetOp(SetHandle(s, s.ops[t].h, Put(OpHandle(s, t))), t, Idle) }

  /** Off the active list, and left to the manager thread. */
  function DelLeft(s: State, t: nat): State
    requires t < |s.ops| && s.ops[t].DelChecked? && Targets(s.ops[t], |s.handles|)
  {
    var h := s.ops[t].h;
    SetOp(SetHandle(s, h, s.handles[h].(destroying := true)), t, Idle)
      .(active := Without(s.active, h), destroy := [h] + s.destroy)
  }

  /** Off the active list, and to be completed by this thread. */
  function DelTaken(s: State, t: nat): State
    requires t < |s.ops| && s.ops[t].DelChecked? && Targets(s.ops[t], |s.handles|)
  {
    var h := s.ops[t].h;
    SetOp(SetHandle(s, h, s.handles[h].(destroying := true)), t, Completing(h)).(active := Without(s.active, h))
  }

  function DelDecided(s: State, t: nat): State
    requires t < |s.ops| && s.ops[t].DelChecked? && Targets(s.ops[t], |s.handles|)
  {
    if s.ops[t].h !in s.active then SetOp(s, t, Idle)
    else if Deferred(s, t, s.ops[t].h) then DelLeft(s, t)
    else DelTaken(s, t)
  }

  /** The checks made before a handle is removed. */
  predicate MayRemove(s: State, x: Handle) { s.ready && x.fdOpen && x.installed && x.destroying }

  function CompleteChecked(s: State, t: nat): State
    requires t < |s.ops| && s.ops[t].Completing? && Targets(s.ops[t], |s.handles|)
  { SetOp(s, t, if MayRemove(s, OpHandle(s, t)) then Removing(s.ops[t].h) else Idle) }

  function CompleteRemoved(s: State, t: nat): State
    requires t < |s.ops| && s.ops[t].Removing? && Targets(s.ops[t], |s.handles|)
  {
    var h := s.ops[t].h;
    SetOp(SetHandle(s, h, Removed(s.handles[h])), t, Completed(h)).(numHandles := s.numHandles - 1)
  }

  function CtxAdded(s: State, t: nat): State
    requires t < |s.ops| && s.ops[t].Queueing? && Targets(s.ops[t], |s.handles|)
  {
    var h := s.ops[t].h;
    var x := s.handles[h];
    if !s.ready || x.ctxCb then SetOp(s, t, Refused(h))
    else
      SetOp(SetHandle(s, h, x.(ctxCb := true, accepted := x.accepted + 1)), t, Idle)
        .(ctxList := [h] + s.ctxList, ctxNum := s.ctxNum + 1)
  }

  function Drained(s: State): State
    requires s.stage.Events?
  { if s.ready then s.(stage := CtxLoop(s.ctxList), ctxList := []) else s.(stage := Reap([])) }

  function CtxStarted(s: State): State
    requires s.stage.CtxLoop? && Known(s, Rest(s.stage))
  {
    if s.stage.rest == [] then s.(stage := Reap([]))
    else
      var h := Rest(s.stage)[0];
      SetHandle(s, h, s.handles[h].(ran := s.handles[h].ran + 1)).(stage := CtxRunning(h, s.stage.rest[1..]))
  }

  function CtxFinished(s: State): State
    requires s.stage.CtxRunning? && StageTargets(s.stage, |s.handles|)
  {
    var h := s.stage.h;
    SetHandle(s, h, s.handles[h].(ctxCb := false)).(stage := CtxPut(h, s.stage.rest), ctxNum := s.ctxNum - 1)
  }

  function CtxDropped(s: State): State
    requires s.stage.CtxPut? && StageTargets(s.stage, |s.handles|)
  { SetHandle(s, s.stage.h, Put(s.handles[s.stage.h])).(stage := CtxLoop(s.stage.rest)) }

  /** The first handle to destroy is parked while its callback is queued. */
  function ReapedNext(s: State): State
    requires s.stage.Reap? && Known(s, s.destroy)
  {
    var delay := s.stage.delay;
    if s.destroy == [] then s.(stage := if delay == [] then Outside else Splicing(delay))
    else
      var h := s.destroy[0];
      s.(destroy := s.destroy[1..], stage := if s.handles[h].ctxCb then Reap([h] + delay) else Reaping(h, delay))
  }

  function ReapChecked(s: State): State
    requires s.stage.Reaping? && StageTargets(s.stage, |s.handles|)
  {
    s.(stage := if MayRemove(s, s.handles[s.stage.h]) then ReapRemoving(s.stage.h, s.stage.delay) else Reap(s.stage.delay))
  }

  function ReapRemoved(s: State): State
    requires s.stage.ReapRemoving? && StageTargets(s.stage, |s.handles|)
  {
    var h := s.stage.h;
    SetHandle(s, h, Removed(s.handles[h])).(numHandles := s.numHandles - 1, stage := ReapPut(h, s.stage.delay))
  }

  function ReapDropped(s: State): State
    requires s.stage.ReapPut? && StageTargets(s.stage, |s.handles|)
  { SetHandle(s, s.stage.h, Put(s.handles[s.stage.h])).(stage := Reap(s.stage.delay)) }

  /** The parked handles go back. */
  function Spliced(s: State): State
    requires s.stage.Splicing?
  { s.(destroy := s.destroy + s.stage.delay, stage := Outside) }

  function Tally(s: State, t: nat): State
    requires t < |s.ops| && s.ops[t].Counted?
  {
    var op := s.ops[t];
    SetOp(s, t, if |s.active| + |s.destroy| == 0 then Tallied(op.stamp, op.quiet) else Idle)
  }

  function Entered(s: State): State { s.(stage := Events, started := true, activity := s.activity + 1) }

  function ApplyAdd(s: State, step: AddStep): State
    requires AddEnabled(s, step) && Shaped(s)
  {
    match step
    case AddStart(t, h) => Begun(s, t, AddListing(h))
    case AddList(t) => AddListed(s, t)
    case AddDone(t, ok) => AddedOrNot(s, t, ok)
    case AddPut(t) => Returned(s, t)
  }

  function ApplyDel(s: State, step: DelStep): State
    requires DelEnabled(s, step) && Shaped(s)
  {
    match step
    case DelStart(t, h) => SetOp(s, t, DelChecked(h))
    case DelDecide(t) => DelDecided(s, t)
    case CompleteCheck(t) => CompleteChecked(s, t)
    case CompleteRemove(t) => CompleteRemoved(s, t)
    case CompletePut(t) => Returned(s, t)
  }

  function ApplyCtx(s: State, step: CtxStep): State
    requires CtxEnabled(s, step) && Shaped(s)
  {
    match step
    case CtxStart(t, h) => Begun(s, t, Queueing(h))
    case CtxAdd(t) => CtxAdded(s, t)
    case CtxPutBack(t) => Returned(s, t)
  }

  function ApplyLoop(s: State, step: LoopStep): State
    requires LoopEnabled(s, step) && Shaped(s)
  {
    match step
    case Enter => Entered(s)
    case Drain => Drained(s)
    case CtxNext => CtxStarted(s)
    case CtxFinish => CtxFinished(s)
    case CtxDrop => CtxDropped(s)
  }

  function ApplyReap(s: State, step: ReapStep): State
    requires ReapEnabled(s, step) && Shaped(s)
  {
    match step
    case ReapNext => ReapedNext(s)
    case ReapCheck => ReapChecked(s)
    case ReapRemove => ReapRemoved(s)
    case ReapDrop => ReapDropped(s)
    case Splice => Spliced(s)
  }

  function ApplyClose(s: State, step: CloseStep): State
    requires CloseEnabled(s, step)
  {
    match step
    case CloseStart(t) => SetOp(s, t, Counted(s.activity, Quiet(s)))
    case CloseTally(t) => Tally(s, t)
    case CloseFinish(t) => SetOp(s, t, Idle).(ready := false)
  }

  function Apply(s: State, step: Step): State
    requires Enabled(s, step) && Shaped(s)
  {
    match step
    case Init(h, open, refCb) => Initialised(s, h, open, refCb)
    case ByAdd(add) => ApplyAdd(s, add)
    case ByDel(del) => ApplyDel(s, del)
    case ByCtx(ctx) => ApplyCtx(s, ctx)
    case ByLoop(loop) => ApplyLoop(s, loop)
    case ByReap(reap) => ApplyReap(s, reap)
    case ByClose(close) => ApplyClose(s, close)
  }
}

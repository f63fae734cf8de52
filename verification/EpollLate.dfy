/** When a handle can leave the epoll set with a callback still queued. */
module EpollLate {
  import opened Common
  import opened EpollState
  import opened EpollSteps
  import opened EpollCounts
  import opened EpollManager
  import opened EpollRuns
  import opened EpollResults

  /** Who takes a handle out: the reap loop, or a thread in a deletion. */
  datatype Remover = Reaper | Thread(t: nat)

  /** The handle has been chosen and is not out yet. Only the manager thread takes out a handle with a reference
      callback. */
  predicate Going(s: State, h: nat, w: Remover)
    requires h < |s.handles|
  {
    match w
    case Reaper => (s.stage.Reaping? || s.stage.ReapRemoving?) && s.stage.h == h
    case Thread(t) =>
      && t < |s.ops| && (s.ops[t] == Completing(h) || s.ops[t] == Removing(h))
      && (t == 0 || !s.handles[h].refCb)
  }

  function RemoverOf(step: Step): Remover { if step.ByDel? && step.del.DelDecide? then Thread(step.del.t) else Reaper }

  /** From one state to another, the handle being on its way out until the last step. */
  ghost predicate LeadsGoing(s: State, steps: seq<Step>, r: State, h: nat, w: Remover)
    decreases |steps|
  {
    if steps == [] then r == s
    else
      && Shaped(s) && Enabled(s, steps[0]) && h < |s.handles| && Going(s, h, w)
      && LeadsGoing(Apply(s, steps[0]), steps[1..], r, h, w)
  }

  lemma {:induction false} Decided(s: State, step: Step, h: nat)
    requires Inv(s) && h < |s.handles| && Enabled(s, step) && Decides(s, step, h)
    ensures var m := Apply(s, step);
            && |m.handles| == |s.handles| && Going(m, h, RemoverOf(step))
            && m.handles[h].accepted == m.handles[h].ran
  {
    var m := Apply(s, step);
    QueuedIsKept(s, step, h);
    assert HandleOk(s, h);
    InMember(h, s.ctxList);
    InMember(h, Rest(s.stage));
  }

  lemma {:induction false} AddRan(s: State, step: AddStep, h: nat)
    requires Shaped(s) && h < |s.handles| && AddEnabled(s, step)
    ensures |ApplyAdd(s, step).handles| == |s.handles| && ApplyAdd(s, step).handles[h].ran == s.handles[h].ran
  {}

  lemma {:induction false} DelRan(s: State, step: DelStep, h: nat)
    requires Shaped(s) && h < |s.handles| && DelEnabled(s, step)
    ensures |ApplyDel(s, step).handles| == |s.handles| && ApplyDel(s, step).handles[h].ran == s.handles[h].ran
  {}

  lemma {:induction false} CtxRan(s: State, step: CtxStep, h: nat)
    requires Shaped(s) && h < |s.handles| && CtxEnabled(s, step)
    ensures |ApplyCtx(s, step).handles| == |s.handles| && ApplyCtx(s, step).handles[h].ran == s.handles[h].ran
  {}

  lemma {:induction false} ReapRan(s: State, step: ReapStep, h: nat)
    requires Shaped(s) && h < |s.handles| && ReapEnabled(s, step)
    ensures |ApplyReap(s, step).handles| == |s.handles| && ApplyReap(s, step).handles[h].ran == s.handles[h].ran
  {}

  lemma {:induction false} LoopRan(s: State, step: LoopStep, h: nat, w: Remover)
    requires Inv(s) && h < |s.handles| && LoopEnabled(s, step) && Going(s, h, w)
    ensures |ApplyLoop(s, step).handles| == |s.handles| && ApplyLoop(s, step).handles[h].ran == s.handles[h].ran
  {
    if step.CtxNext? && Rest(s.stage) != [] && Rest(s.stage)[0] == h {
      assert HandleOk(s, h);
      ViewSane(s, h);
      InMember(h, Rest(s.stage));
    }
  }

  /** No callback of the handle starts while it is on its way out. */
  lemma {:induction false} NoneStarts(s: State, step: Step, h: nat, w: Remover)
    requires Inv(s) && h < |s.handles| && Enabled(s, step) && Going(s, h, w)
    ensures |Apply(s, step).handles| == |s.handles| && Apply(s, step).handles[h].ran == s.handles[h].ran
  {
    match step
    case Init(_, _, _) =>
    case ByAdd(add) => AddRan(s, add, h);
    case ByDel(del) => DelRan(s, del, h);
    case ByCtx(ctx) => CtxRan(s, ctx, h);
    case ByLoop(loop) => LoopRan(s, loop, h, w);
    case ByReap(reap) => ReapRan(s, reap, h);
    case ByClose(_) =>
  }

  lemma {:induction false} RanKept(s: State, steps: seq<Step>, r: State, h: nat, w: Remover)
    requires Inv(s) && h < |s.handles| && LeadsGoing(s, steps, r, h, w)
    ensures Inv(r) && |r.handles| == |s.handles| && r.handles[h].ran == s.handles[h].ran
    decreases |steps|
  {
    if steps != [] {
      StepKeeps(s, steps[0]);
      NoneStarts(s, steps[0], h, w);
      RanKept(Apply(s, steps[0]), steps[1..], r, h, w);
    }
  }

  /** Up to and including its removal, a handle has a callback queued if and only if one has been accepted since
      the decision to take it out. */
  lemma {:induction false} LateExactly(s: State, step: Step, steps: seq<Step>, r: State, h: nat)
    requires Inv(s) && h < |s.handles| && Enabled(s, step) && Decides(s, step, h)
    requires LeadsGoing(Apply(s, step), steps, r, h, RemoverOf(step))
    ensures |r.handles| == |s.handles|
    ensures h in r.ctxList || h in Rest(r.stage) <==> r.handles[h].accepted > Apply(s, step).handles[h].accepted
  {
    var m := Apply(s, step);
    Decided(s, step, h);
    StepKeeps(s, step);
    RanKept(m, steps, r, h, RemoverOf(step));
    assert HandleOk(r, h);
    InMember(h, r.ctxList);
    InMember(h, Rest(r.stage));
  }
}

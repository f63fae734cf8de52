/** Two runs that show how far the results about the epoll manager go. */
module EpollExamples {
  import opened Common
  import opened EpollState
  import opened EpollSteps
  import opened EpollCounts
  import opened EpollResults

  /** The state occurs in some run. */
  ghost predicate Reachable(r: State) { exists s, steps :: Initial(s) && Leads(s, steps, r) }

  /** A run and the step that prolongs it. */
  lemma {:induction false} LeadsOn(s: State, steps: seq<Step>, m: State, step: Step)
    requires Leads(s, steps, m) && Shaped(m) && Enabled(m, step)
    ensures Leads(s, steps + [step], Apply(m, step))
    decreases |steps|
  {
    var all := steps + [step];
    if steps == [] {
      assert all[1..] == [];
      assert Leads(Apply(s, step), [], Apply(m, step));
    } else {
      assert all[1..] == steps[1..] + [step];
      LeadsOn(Apply(s, steps[0]), steps[1..], m, step);
    }
  }

  lemma {:induction false} ReachOn(m: State, step: Step, r: State)
    requires Reachable(m) && Shaped(m) && Enabled(m, step) && Apply(m, step) == r
    ensures Reachable(r)
  {
    var s, steps :| Initial(s) && Leads(s, steps, m);
    LeadsOn(s, steps, m, step);
  }

  /** Two threads and one handle. */
  function Two(x: Handle, op0: Op, op1: Op, stage: Stage, active: seq<nat>, destroy: seq<nat>, ctxList: seq<nat>,
               ready: bool, started: bool, activity: nat): State
  {
    State([x], [op0, op1], stage, active, destroy, ctxList, One(x.installed), |ctxList|, ready, started, activity)
  }

  const PLAIN: Handle := Handle(false, true, false, false, false, false, 0, 0, 0)
  const ADDED: Handle := PLAIN.(installed := true)
  const GOING: Handle := ADDED.(destroying := true)

  lemma {:induction false} Starts(x: Handle)
    requires Fresh(x)
    ensures Reachable(Two(x, Idle, Idle, Outside, [], [], [], true, false, 0))
  {
    var s := Two(x, Idle, Idle, Outside, [], [], [], true, false, 0);
    assert Initial(s) && Leads(s, [], s);
  }

  /** Thread 1 adds the handle. */
  lemma {:induction false} Adds(x: Handle)
    requires Fresh(x) && x.fdOpen
    ensures Reachable(Two(x.(installed := true, refs := One(x.refCb)), Idle, Idle, Outside, [0], [], [], true, false, 1))
  {
    Starts(x);
    NoneMentioned([Idle, Idle], 0);
    var y := x.(refs := One(x.refCb));
    var s := Two(x, Idle, Idle, Outside, [], [], [], true, false, 0);
    var a := Two(y, Idle, AddListing(0), Outside, [], [], [], true, false, 1);
    ReachOn(s, ByAdd(AddStart(1, 0)), a);
    AddsMore(y);
  }

  lemma {:induction false} AddsMore(y: Handle)
    requires y.fdOpen && !y.installed && !y.installing
    requires Reachable(Two(y, Idle, AddListing(0), Outside, [], [], [], true, false, 1))
    ensures Reachable(Two(y.(installed := true), Idle, Idle, Outside, [0], [], [], true, false, 1))
  {
    var a := Two(y, Idle, AddListing(0), Outside, [], [], [], true, false, 1);
    var b := Two(y.(installing := true), Idle, AddInstalling(0), Outside, [0], [], [], true, false, 1);
    ReachOn(a, ByAdd(AddList(1)), b);
    ReachOn(b, ByAdd(AddDone(1, true)), Two(y.(installed := true), Idle, Idle, Outside, [0], [], [], true, false, 1));
  }

  lemma {:induction false} StrandsDelete()
    ensures Reachable(Two(GOING, Idle, Completing(0), Outside, [], [], [], true, false, 1))
  {
    Adds(PLAIN);
    var a := Two(ADDED, Idle, Idle, Outside, [0], [], [], true, false, 1);
    var b := Two(ADDED, Idle, DelChecked(0), Outside, [0], [], [], true, false, 1);
    ReachOn(a, ByDel(DelStart(1, 0)), b);
    ReachOn(b, ByDel(DelDecide(1)), Two(GOING, Idle, Completing(0), Outside, [], [], [], true, false, 1));
  }

  lemma {:induction false} StrandsCount()
    ensures Reachable(Two(GOING, Counted(1, true), Completing(0), Outside, [], [], [], true, false, 1))
  {
    StrandsDelete();
    var a := Two(GOING, Idle, Completing(0), Outside, [], [], [], true, false, 1);
    ReachOn(a, ByClose(CloseStart(0)), Two(GOING, Counted(1, true), Completing(0), Outside, [], [], [], true, false, 1));
  }

  lemma {:induction false} StrandsClose()
    ensures Reachable(Two(GOING, Idle, Completing(0), Outside, [], [], [], false, false, 1))
  {
    StrandsCount();
    var b := Two(GOING, Counted(1, true), Completing(0), Outside, [], [], [], true, false, 1);
    var c := Two(GOING, Tallied(1, true), Completing(0), Outside, [], [], [], true, false, 1);
    ReachOn(b, ByClose(CloseTally(0)), c);
    ReachOn(c, ByClose(CloseFinish(0)), Two(GOING, Idle, Completing(0), Outside, [], [], [], false, false, 1));
  }

  /** A close in the middle of a deletion succeeds, and the handle stays installed for good. */
  lemma {:induction false} CloseStrands()
    ensures exists r :: Reachable(r) && !r.ready && r.ops == [Idle, Idle] && |r.handles| == 1 && r.handles[0].installed
  {
    StrandsClose();
    var a := Two(GOING, Idle, Completing(0), Outside, [], [], [], false, false, 1);
    ReachOn(a, ByDel(CompleteCheck(1)), Two(GOING, Idle, Idle, Outside, [], [], [], false, false, 1));
  }

  const COUNTED: Handle := PLAIN.(refCb := true)
  const HELD: Handle := COUNTED.(installed := true, refs := 1)
  const LEFT: Handle := HELD.(destroying := true)

  lemma {:induction false} LateDelete()
    ensures Reachable(Two(LEFT, Idle, Idle, Outside, [], [0], [], true, false, 1))
  {
    Adds(COUNTED);
    var a := Two(HELD, Idle, Idle, Outside, [0], [], [], true, false, 1);
    var b := Two(HELD, Idle, DelChecked(0), Outside, [0], [], [], true, false, 1);
    ReachOn(a, ByDel(DelStart(1, 0)), b);
    ReachOn(b, ByDel(DelDecide(1)), Two(LEFT, Idle, Idle, Outside, [], [0], [], true, false, 1));
  }

  lemma {:induction false} LateEnter()
    ensures Reachable(Two(LEFT, Idle, Idle, Events, [], [0], [], true, true, 2))
  {
    LateDelete();
    var a := Two(LEFT, Idle, Idle, Outside, [], [0], [], true, false, 1);
    ReachOn(a, ByLoop(Enter), Two(LEFT, Idle, Idle, Events, [], [0], [], true, true, 2));
  }

  lemma {:induction false} LateLoop()
    ensures Reachable(Two(LEFT, Idle, Idle, CtxLoop([]), [], [0], [], true, true, 2))
  {
    LateEnter();
    var b := Two(LEFT, Idle, Idle, Events, [], [0], [], true, true, 2);
    ReachOn(b, ByLoop(Drain), Two(LEFT, Idle, Idle, CtxLoop([]), [], [0], [], true, true, 2));
  }

  lemma {:induction false} LateReap()
    ensures Reachable(Two(LEFT, Idle, Idle, Reaping(0, []), [], [], [], true, true, 2))
  {
    LateLoop();
    var c := Two(LEFT, Idle, Idle, CtxLoop([]), [], [0], [], true, true, 2);
    var d := Two(LEFT, Idle, Idle, Reap([]), [], [0], [], true, true, 2);
    ReachOn(c, ByLoop(CtxNext), d);
    ReachOn(d, ByReap(ReapNext), Two(LEFT, Idle, Idle, Reaping(0, []), [], [], [], true, true, 2));
  }

  lemma {:induction false} LateStart()
    ensures Reachable(Two(LEFT.(refs := 2), Idle, Queueing(0), Reaping(0, []), [], [], [], true, true, 3))
  {
    LateReap();
    var a := Two(LEFT, Idle, Idle, Reaping(0, []), [], [], [], true, true, 2);
    ReachOn(a, ByCtx(CtxStart(1, 0)), Two(LEFT.(refs := 2), Idle, Queueing(0), Reaping(0, []), [], [], [], true, true, 3));
  }

  lemma {:induction false} LateQueue()
    ensures Reachable(Two(LEFT.(refs := 2, ctxCb := true, accepted := 1), Idle, Idle, Reaping(0, []), [], [], [0], true, true, 3))
  {
    LateStart();
    var b := Two(LEFT.(refs := 2), Idle, Queueing(0), Reaping(0, []), [], [], [], true, true, 3);
    ReachOn(b, ByCtx(CtxAdd(1)),
            Two(LEFT.(refs := 2, ctxCb := true, accepted := 1), Idle, Idle, Reaping(0, []), [], [], [0], true, true, 3));
  }

  lemma {:induction false} LateCheck()
    ensures Reachable(Two(LEFT.(refs := 2, ctxCb := true, accepted := 1), Idle, Idle, ReapRemoving(0, []), [], [], [0], true, true, 3))
  {
    LateQueue();
    var x := LEFT.(refs := 2, ctxCb := true, accepted := 1);
    var a := Two(x, Idle, Idle, Reaping(0, []), [], [], [0], true, true, 3);
    ReachOn(a, ByReap(ReapCheck), Two(x, Idle, Idle, ReapRemoving(0, []), [], [], [0], true, true, 3));
  }

  /** A callback accepted after the decision to delete its handle is still queued when the handle
      leaves the epoll set. */
  lemma {:induction false} LateCallback()
    ensures exists r :: Reachable(r) && r.ctxList == [0] && |r.handles| == 1 && !r.handles[0].installed
  {
    LateCheck();
    var x := LEFT.(refs := 2, ctxCb := true, accepted := 1);
    var b := Two(x, Idle, Idle, ReapRemoving(0, []), [], [], [0], true, true, 3);
    ReachOn(b, ByReap(ReapRemove), Two(Removed(x), Idle, Idle, ReapPut(0, []), [], [], [0], true, true, 3));
  }
}

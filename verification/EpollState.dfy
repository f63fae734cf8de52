/** The epoll manager as a state machine: any number of threads, of which thread 0 runs the
    manager's loop, and one step for each region under the manager's mutex or between two. */
module EpollState {
  import opened Common

  /** An epoll handle. refs, accepted and ran are history: references taken and not yet
      returned, context callbacks accepted, and context callbacks started. */
  datatype Handle = Handle(
    refCb: bool, fdOpen: bool,
    installed: bool, installing: bool, destroying: bool,
    ctxCb: bool,
    refs: int, accepted: nat, ran: nat)

  /** Where a thread is inside an operation. */
  datatype Op =
    | Idle
    | AddListing(h: nat)       // reference taken, not yet on the active list
    | AddInstalling(h: nat)    // on the active list, not yet in the epoll set
    | AddFailed(h: nat)        // reference to be returned
    | DelChecked(h: nat)       // found installed, before the mutex
    | Completing(h: nat)       // taken off the lists by this thread
    | Removing(h: nat)         // past the checks of the completion
    | Completed(h: nat)        // removed, reference to be returned
    | Queueing(h: nat)         // reference taken, callback not yet queued
    | Refused(h: nat)          // reference to be returned
    | Counted(stamp: nat, quiet: bool)   // closing: no callback was counted
    | Tallied(stamp: nat, quiet: bool)   // closing: no handle was on a list

  /** Where the manager thread is in its loop; operations are called from within the callbacks. */
  datatype Stage =
    | Outside
    | Events
    | CtxLoop(rest: seq<nat>)
    | CtxRunning(h: nat, rest: seq<nat>)
    | CtxPut(h: nat, rest: seq<nat>)
    | Reap(delay: seq<nat>)
    | Reaping(h: nat, delay: seq<nat>)
    | ReapRemoving(h: nat, delay: seq<nat>)
    | ReapPut(h: nat, delay: seq<nat>)
    | Splicing(delay: seq<nat>)

  datatype State = State(
    handles: seq<Handle>, ops: seq<Op>, stage: Stage,
    active: seq<nat>, destroy: seq<nat>, ctxList: seq<nat>,
    numHandles: int, ctxNum: int,
    ready: bool, started: bool,
    activity: nat)  // history: how many adds, callback adds and loop entries have begun

  // The pieces of the loop's local state.

  /** The drained snapshot that has not run yet. */
  function Rest(stage: Stage): seq<nat> {
    if stage.CtxLoop? || stage.CtxRunning? || stage.CtxPut? then stage.rest else []
  }

  function RunningOf(stage: Stage): seq<nat> { if stage.CtxRunning? then [stage.h] else [] }

  /** The handles parked until their callback has run. */
  function Delay(stage: Stage): seq<nat> {
    if stage.Reap? || stage.Reaping? || stage.ReapRemoving? || stage.ReapPut? || stage.Splicing? then stage.delay else []
  }

  function ReapedOf(stage: Stage): seq<nat> {
    if stage.Reaping? || stage.ReapRemoving? then [stage.h] else []
  }

  /** Every handle with a context callback that is queued, drained or running. */
  function Queue(s: State): seq<nat> { s.ctxList + Rest(s.stage) + RunningOf(s.stage) }

  /** How often h is in q. */
  function In(h: nat, q: seq<nat>): nat { if q == [] then 0 else One(q[0] == h) + In(h, q[1..]) }

  // What is true of a handle at every lock boundary, in terms of how often it is where.

  /** How many threads are at each place of an operation on one handle. */
  datatype Counts = Counts(
    adding: int, installing: int, addFailed: int, delChecked: int,
    completing: int, removing: int, completed: int, queueing: int, refused: int)

  /** One more thread, or one fewer, at op. */
  function Bump(c: Counts, op: Op, h: nat, d: int): Counts {
    Counts(c.adding + d * One(op == AddListing(h)), c.installing + d * One(op == AddInstalling(h)),
           c.addFailed + d * One(op == AddFailed(h)), c.delChecked + d * One(op == DelChecked(h)),
           c.completing + d * One(op == Completing(h)), c.removing + d * One(op == Removing(h)),
           c.completed + d * One(op == Completed(h)), c.queueing + d * One(op == Queueing(h)),
           c.refused + d * One(op == Refused(h)))
  }

  function CountsOf(ops: seq<Op>, h: nat): Counts {
    if ops == [] then Counts(0, 0, 0, 0, 0, 0, 0, 0, 0)
    else Bump(CountsOf(ops[..|ops| - 1], h), ops[|ops| - 1], h, 1)
  }

  datatype View = View(
    x: Handle, ready: bool, c: Counts,
    active: int, destroy: int, delay: int, reaped: int,
    ctxList: int, rest: int, running: int,
    reapPut: bool, ctxPut: bool)

  function ViewOf(s: State, h: nat): View
    requires h < |s.handles|
  {
    View(s.handles[h], s.ready, CountsOf(s.ops, h),
         In(h, s.active), In(h, s.destroy), In(h, Delay(s.stage)), In(h, ReapedOf(s.stage)),
         In(h, s.ctxList), In(h, Rest(s.stage)), In(h, RunningOf(s.stage)),
         s.stage.ReapPut? && s.stage.h == h, s.stage.CtxPut? && s.stage.h == h)
  }

  /** Off the active list and on the way out of the epoll set. */
  function Leaving(v: View): int { v.destroy + v.delay + v.reaped + v.c.completing + v.c.removing }

  /** While the manager is open, an installed handle is in exactly one place. */
  predicate Placed(v: View) {
    && v.active + Leaving(v) <= 1
    && (v.active == 1 ==> (v.x.installed || v.x.installing) && !v.x.destroying)
    && (Leaving(v) == 1 ==> v.x.installed && v.x.destroying)
    && (v.ready && v.x.installed ==> v.active + Leaving(v) == 1)
    && v.c.installing == One(v.x.installing)
    && (v.x.installing ==> v.active == 1 && !v.x.installed)
    && (v.x.installed || v.x.installing ==> v.x.fdOpen)
    && (v.x.destroying ==> v.x.installed)
  }

  predicate Added(v: View) {
    && v.c.adding <= 1
    && (v.c.adding == 1 ==> v.x.fdOpen && !v.x.installed && !v.x.installing)
    && (v.c.delChecked > 0 ==> v.x.installed || !v.x.fdOpen)
  }

  /** A callback is set exactly while it is queued, drained or running, once in all; and each
      callback accepted has been started once or is still waiting. */
  predicate Queued(v: View) {
    && v.ctxList + v.rest + v.running == One(v.x.ctxCb)
    && (v.x.ctxCb || v.c.queueing > 0 || v.c.refused > 0 || v.ctxPut ==> v.x.refCb)
    && v.x.accepted == v.x.ran + v.ctxList + v.rest
  }

  /** The uses of a handle that hold a reference. */
  function InstallUses(v: View): int {
    One(v.x.installed) + v.c.adding + v.c.installing + v.c.addFailed + v.c.completed + One(v.reapPut)
  }

  function CtxUses(v: View): int { One(v.x.ctxCb) + v.c.queueing + v.c.refused + One(v.ctxPut) }

  /** Every reference taken is held by exactly one use that is still under way. */
  predicate Referenced(v: View) { v.x.refs == if v.x.refCb then InstallUses(v) + CtxUses(v) else 0 }

  predicate ViewOk(v: View) { Placed(v) && Added(v) && Queued(v) && Referenced(v) }

  ghost predicate HandleOk(s: State, h: nat)
    requires h < |s.handles|
  {
    ViewOk(ViewOf(s, h))
  }

  // What is true of the manager.

  function Installed(handles: seq<Handle>): nat {
    if handles == [] then 0 else Installed(handles[..|handles| - 1]) + One(handles[|handles| - 1].installed)
  }

  predicate Known(s: State, q: seq<nat>) { forall i | 0 <= i < |q| :: q[i] < |s.handles| }

  predicate Targets(op: Op, n: nat) { op.Idle? || op.Counted? || op.Tallied? || op.h < n }

  predicate StageTargets(stage: Stage, n: nat) {
    stage.Outside? || stage.Events? || stage.CtxLoop? || stage.Reap? || stage.Splicing? || stage.h < n
  }

  /** The manager thread calls operations only from the places where it runs the user's code. */
  predicate MayCall(stage: Stage) { stage.Outside? || stage.Events? || stage.CtxRunning? }

  predicate Adding(op: Op) { op.AddListing? || op.AddInstalling? || op.Queueing? }

  predicate Closing(op: Op) { op.Counted? || op.Tallied? }

  /** No handle and no callback is being added, and the loop is not running. */
  predicate Quiet(s: State) { s.stage.Outside? && forall i | 0 <= i < |s.ops| :: !Adding(s.ops[i]) }

  /** What a close has established, unless it has been disturbed since it began. */
  ghost predicate CloseOk(s: State, i: nat)
    requires i < |s.ops|
  {
    var op := s.ops[i];
    Closing(op) ==>
      && op.stamp <= s.activity && s.ready
      && (op.quiet && op.stamp == s.activity ==> Quiet(s) && Queue(s) == [])
      && (op.Tallied? && op.quiet && op.stamp == s.activity ==> s.active == [] && s.destroy == [])
  }

  /** Every handle named anywhere exists. */
  ghost predicate Shaped(s: State) {
    && 0 < |s.ops|
    && Known(s, s.active) && Known(s, s.destroy)
    && Known(s, s.ctxList) && Known(s, Rest(s.stage)) && Known(s, Delay(s.stage))
    && StageTargets(s.stage, |s.handles|)
    && (forall i | 0 <= i < |s.ops| :: Targets(s.ops[i], |s.handles|))
  }

  ghost predicate ManagerOk(s: State) {
    && (|s.ops| > 0 && s.ops[0] != Idle ==> MayCall(s.stage))
    && s.ctxNum == |Queue(s)|
    && s.numHandles == Installed(s.handles)
    && (forall i | 0 <= i < |s.ops| :: CloseOk(s, i))
    && (forall i, j | 0 <= i < j < |s.ops| :: !(Closing(s.ops[i]) && Closing(s.ops[j])))
  }

  ghost predicate Inv(s: State) {
    Shaped(s) && ManagerOk(s) && forall h | 0 <= h < |s.handles| :: HandleOk(s, h)
  }
}

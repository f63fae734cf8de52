/** Handing connections over to worker threads: each is on the work queue at most once and with at most
    one worker, never both. */
module TcpHandoff {
  import opened Common

  /** handoff is the flag of each connection, workers the connection each worker is busy with. */
  datatype State = State(handoff: seq<bool>, queue: seq<nat>, workers: seq<Option<nat>>)

  datatype Step =
    | Wakeup(c: nat)   // the epoll callback of a connection
    | Take(w: nat)     // a worker takes the first connection of the queue
    | Reenable(w: nat) // it has finished and clears the flag

  predicate Enabled(s: State, step: Step) {
    match step
    case Wakeup(c) => c < |s.handoff|
    case Take(w) => w < |s.workers| && s.workers[w].None? && s.queue != []
    case Reenable(w) => w < |s.workers| && s.workers[w].Some? && s.workers[w].value < |s.handoff|
  }

  function Apply(s: State, step: Step): State
    requires Enabled(s, step)
  {
    match step
    case Wakeup(c) => if s.handoff[c] then s else s.(handoff := s.handoff[c := true], queue := s.queue + [c])
    case Take(w) => s.(workers := s.workers[w := Some(s.queue[0])], queue := s.queue[1..])
    case Reenable(w) => s.(handoff := s.handoff[s.workers[w].value := false], workers := s.workers[w := None])
  }

  function Queued(q: seq<nat>, c: nat): nat { if q == [] then 0 else One(q[0] == c) + Queued(q[1..], c) }

  function Busy(ws: seq<Option<nat>>, c: nat): nat { if ws == [] then 0 else One(ws[0] == Some(c)) + Busy(ws[1..], c) }

  /** The flag of a connection is set exactly while it is on the queue or with a worker, once in all. */
  ghost predicate Inv(s: State) {
    && (forall c: nat | c < |s.handoff| :: Queued(s.queue, c) + Busy(s.workers, c) == One(s.handoff[c]))
    && (forall i | 0 <= i < |s.queue| :: s.queue[i] < |s.handoff|)
    && (forall w | 0 <= w < |s.workers| && s.workers[w].Some? :: s.workers[w].value < |s.handoff|)
  }

  lemma {:induction false} QueuedMore(q: seq<nat>, x: nat, c: nat)
    ensures Queued(q + [x], c) == Queued(q, c) + One(x == c)
  {
    if q == [] {
      assert ([] + [x])[1..] == [] && q + [x] == [x];
    } else {
      assert (q + [x])[1..] == q[1..] + [x];
      QueuedMore(q[1..], x, c);
    }
  }

  lemma {:induction false} BusyChange(ws: seq<Option<nat>>, w: nat, x: Option<nat>, c: nat)
    requires w < |ws|
    ensures Busy(ws[w := x], c) == Busy(ws, c) - One(ws[w] == Some(c)) + One(x == Some(c))
  {
    if w == 0 {
      assert ws[0 := x][1..] == ws[1..];
    } else {
      assert ws[w := x][1..] == ws[1..][w - 1 := x];
      BusyChange(ws[1..], w - 1, x, c);
    }
  }

  lemma {:induction false} StepKeeps(s: State, step: Step)
    requires Inv(s) && Enabled(s, step)
    ensures Inv(Apply(s, step))
  {
    var r := Apply(s, step);
    forall c: nat | c < |r.handoff| ensures Queued(r.queue, c) + Busy(r.workers, c) == One(r.handoff[c]) {
      assert Queued(s.queue, c) + Busy(s.workers, c) == One(s.handoff[c]);
      match step
      case Wakeup(x) => QueuedMore(s.queue, x, c);
      case Take(w) => BusyChange(s.workers, w, Some(s.queue[0]), c);
      case Reenable(w) => BusyChange(s.workers, w, None, c);
    }
  }

  ghost predicate Leads(s: State, steps: seq<Step>, r: State)
    decreases |steps|
  {
    if steps == [] then r == s else Enabled(s, steps[0]) && Leads(Apply(s, steps[0]), steps[1..], r)
  }

  /** From idle workers and an empty queue, in every run. */
  lemma {:induction false} EveryRun(s: State, steps: seq<Step>, r: State, c: nat)
    requires s.queue == [] && (forall w | 0 <= w < |s.workers| :: s.workers[w].None?) && (forall x | 0 <= x < |s.handoff| :: !s.handoff[x])
    requires Leads(s, steps, r) && c < |r.handoff|
    ensures Queued(r.queue, c) + Busy(r.workers, c) == One(r.handoff[c])
  {
    forall x: nat | x < |s.handoff| ensures Busy(s.workers, x) == 0 { NoneBusy(s.workers, x); }
    LeadsInv(s, steps, r);
  }

  // Every connection is served.

  function Takes(steps: seq<Step>): nat { if steps == [] then 0 else One(steps[0].Take?) + Takes(steps[1..]) }

  /** The queue is first come, first served: what remains of it stays in front. */
  lemma {:induction false} InOrder(s: State, steps: seq<Step>, r: State)
    requires Leads(s, steps, r) && Takes(steps) <= |s.queue|
    ensures s.queue[Takes(steps)..] <= r.queue
    decreases |steps|
  {
    if steps != [] {
      var m := Apply(s, steps[0]);
      InOrder(m, steps[1..], r);
      var n := Takes(steps[1..]);
      if steps[0].Take? {
        assert m.queue[n..] == s.queue[n + 1..];
      } else {
        assert s.queue <= m.queue && s.queue[n..] <= m.queue[n..];
      }
    }
  }

  /** A connection that wakes up while it is idle is the next one taken once the workers have taken all that were
      waiting before it, whatever else happens meanwhile. */
  lemma {:induction false} Served(s: State, c: nat, steps: seq<Step>, r: State, w: nat)
    requires Enabled(s, Wakeup(c)) && !s.handoff[c] && Leads(Apply(s, Wakeup(c)), steps, r) && Takes(steps) == |s.queue|
    requires w < |r.workers| && r.workers[w].None?
    ensures Enabled(r, Take(w)) && Apply(r, Take(w)).workers[w] == Some(c)
  {
    var woken := Apply(s, Wakeup(c));
    InOrder(woken, steps, r);
    assert woken.queue[|s.queue|..] == [c];
  }

  /** A worker that has finished with a connection leaves it idle, so that it can be woken up again. */
  lemma {:induction false} IdleAgain(s: State, w: nat)
    requires Inv(s) && Enabled(s, Reenable(w))
    ensures var c, r := s.workers[w].value, Apply(s, Reenable(w));
            !r.handoff[c] && c !in r.queue && Some(c) !in r.workers && r.workers[w].None?
  {
    var c, r := s.workers[w].value, Apply(s, Reenable(w));
    StepKeeps(s, Reenable(w));
    assert Queued(r.queue, c) + Busy(r.workers, c) == 0;
    NotQueued(r.queue, c);
    NotBusy(r.workers, c);
  }

  lemma {:induction false} NotQueued(q: seq<nat>, c: nat)
    requires Queued(q, c) == 0
    ensures c !in q
  {
    if q != [] { NotQueued(q[1..], c); }
  }

  lemma {:induction false} NotBusy(ws: seq<Option<nat>>, c: nat)
    requires Busy(ws, c) == 0
    ensures Some(c) !in ws
  {
    if ws != [] { NotBusy(ws[1..], c); }
  }

  lemma {:induction false} NoneBusy(ws: seq<Option<nat>>, c: nat)
    requires forall w | 0 <= w < |ws| :: ws[w].None?
    ensures Busy(ws, c) == 0
  {
    if ws != [] { NoneBusy(ws[1..], c); }
  }

  lemma {:induction false} LeadsInv(s: State, steps: seq<Step>, r: State)
    requires Inv(s) && Leads(s, steps, r)
    ensures Inv(r)
    decreases |steps|
  {
    if steps != [] {
      StepKeeps(s, steps[0]);
      LeadsInv(Apply(s, steps[0]), steps[1..], r);
    }
  }
}

/** How often things occur in the lists and among the operations of the epoll manager, before and
    after a step. */
module EpollCounts {
  import opened Common
  import opened EpollState
  import opened EpollSteps

  predicate Nonnegative(c: Counts) {
    && c.adding >= 0 && c.installing >= 0 && c.addFailed >= 0 && c.delChecked >= 0 && c.completing >= 0
    && c.removing >= 0 && c.completed >= 0 && c.queueing >= 0 && c.refused >= 0
  }

  predicate Sane(v: View) {
    && Nonnegative(v.c) && v.active >= 0 && v.destroy >= 0 && v.delay >= 0 && v.reaped >= 0
    && v.ctxList >= 0 && v.rest >= 0 && v.running >= 0
  }

  lemma {:induction false} ViewSane(s: State, h: nat)
    requires h < |s.handles|
    ensures Sane(ViewOf(s, h))
  {
    CountsNonnegative(s.ops, h);
  }

  lemma {:induction false} CountsNonnegative(ops: seq<Op>, h: nat)
    ensures Nonnegative(CountsOf(ops, h))
  {
    if ops != [] { CountsNonnegative(ops[..|ops| - 1], h); }
  }

  /** The counts once a thread has moved from one place to another. */
  function Move(c: Counts, from: Op, next: Op, h: nat): Counts { Bump(Bump(c, from, h, -1), next, h, 1) }

  lemma {:induction false} OpsMove(ops: seq<Op>, t: nat, next: Op, h: nat)
    requires t < |ops|
    ensures CountsOf(ops[t := next], h) == Move(CountsOf(ops, h), ops[t], next, h)
    ensures Nonnegative(Bump(CountsOf(ops, h), ops[t], h, -1))
  {
    var n := |ops| - 1;
    var changed := ops[t := next];
    var c := CountsOf(ops[..n], h);
    if t == n {
      assert changed[..n] == ops[..n];
      CountsNonnegative(ops[..n], h);
      BumpBack(c, ops[n], h);
    } else {
      assert changed[..n] == ops[..n][t := next];
      OpsMove(ops[..n], t, next, h);
      BumpCommutes(c, ops[t], ops[n], h, -1, 1);
      BumpCommutes(Bump(c, ops[t], h, -1), next, ops[n], h, 1, 1);
      BumpMore(Bump(c, ops[t], h, -1), ops[n], h);
    }
  }

  lemma {:induction false} BumpBack(c: Counts, op: Op, h: nat)
    ensures Bump(Bump(c, op, h, 1), op, h, -1) == c
  {}

  lemma {:induction false} BumpCommutes(c: Counts, a: Op, b: Op, h: nat, d: int, e: int)
    ensures Bump(Bump(c, a, h, d), b, h, e) == Bump(Bump(c, b, h, e), a, h, d)
  {}

  lemma {:induction false} BumpMore(c: Counts, op: Op, h: nat)
    requires Nonnegative(c)
    ensures Nonnegative(Bump(c, op, h, 1))
  {}

  lemma {:induction false} NoneMentioned(ops: seq<Op>, h: nat)
    requires forall i | 0 <= i < |ops| :: !Mentions(ops[i], h)
    ensures CountsOf(ops, h) == Counts(0, 0, 0, 0, 0, 0, 0, 0, 0)
  {
    if ops != [] { NoneMentioned(ops[..|ops| - 1], h); }
  }

  lemma {:induction false} MoveElsewhere(c: Counts, from: Op, next: Op, h: nat)
    requires !Mentions(from, h) && !Mentions(next, h)
    ensures Move(c, from, next, h) == c
  {}

  lemma {:induction false} InFront(h: nat, x: nat, q: seq<nat>)
    ensures In(h, [x] + q) == One(x == h) + In(h, q)
  {
    assert ([x] + q)[1..] == q;
  }

  lemma {:induction false} InBoth(h: nat, a: seq<nat>, b: seq<nat>)
    ensures In(h, a + b) == In(h, a) + In(h, b)
  {
    if a == [] {
      assert a + b == b;
    } else {
      assert (a + b)[1..] == a[1..] + b;
      InBoth(h, a[1..], b);
    }
  }

  lemma {:induction false} InMember(h: nat, q: seq<nat>)
    ensures h in q <==> In(h, q) > 0
  {
    if q != [] { InMember(h, q[1..]); }
  }

  lemma {:induction false} InWithout(h: nat, q: seq<nat>, x: nat)
    requires x in q
    ensures In(h, Without(q, x)) == In(h, q) - One(x == h)
    ensures forall i | 0 <= i < |Without(q, x)| :: Without(q, x)[i] in q
  {
    if q[0] != x {
      InWithout(h, q[1..], x);
      InFront(h, q[0], Without(q[1..], x));
    }
  }

  lemma {:induction false} InstalledUpdate(handles: seq<Handle>, h: nat, x: Handle)
    requires h < |handles|
    ensures Installed(handles[h := x]) == Installed(handles) - One(handles[h].installed) + One(x.installed)
  {
    var n := |handles| - 1;
    var changed := handles[h := x];
    if h == n {
      assert changed[..n] == handles[..n];
    } else {
      assert changed[..n] == handles[..n][h := x];
      InstalledUpdate(handles[..n], h, x);
    }
  }
}

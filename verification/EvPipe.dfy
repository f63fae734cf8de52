/** The event pipe: one writer that notifies and one reader that resets, interleaved at every access to
    a counter or to the pipe. */
module EvPipe {
  /** Where the writer is in a notification. */
  datatype Writer = Quiet | Going(count: nat) | Writing

  /** Where the reader is in a reset. */
  datatype Reader = Reading | Drained | Seen(count: nat)

  datatype State = State(writerCnt: nat, readerCnt: nat, pipe: nat, writer: Writer, reader: Reader)

  datatype Step =
    | Check  // the writer compares its counter with the reader's
    | Count  // and counts its notification
    | Write  // and writes a byte
    | Drain  // the reader empties the pipe
    | See    // and reads the writer's counter
    | Arm    // and sets its own beyond it

  predicate Enabled(s: State, step: Step) {
    match step
    case Check => s.writer.Quiet?
    case Count => s.writer.Going?
    case Write => s.writer.Writing?
    case Drain => s.reader.Reading?
    case See => s.reader.Drained?
    case Arm => s.reader.Seen?
  }

  function Apply(s: State, step: Step): State
    requires Enabled(s, step)
  {
    match step
    case Check => if s.writerCnt < s.readerCnt then s.(writer := Going(s.writerCnt)) else s
    case Count => s.(writerCnt := s.writerCnt + 1, writer := Writing)
    case Write => s.(pipe := s.pipe + 1, writer := Quiet)
    case Drain => s.(pipe := 0, reader := Drained)
    case See => s.(reader := Seen(s.writerCnt))
    case Arm => s.(readerCnt := s.reader.count + 1, reader := Reading)
  }

  predicate Initial(s: State) { s == State(0, 1, 0, Quiet, Reading) }

  // Bytes in the pipe, about to be written, and still to be asked for.

  function Sum(s: State): int { s.pipe + (if s.writer.Writing? then 1 else 0) + s.readerCnt - s.writerCnt }

  /** The reader's counter is ahead by one or level. When it is level, with no reset under way and no
      byte about to be written, the pipe has a byte. */
  predicate Counters(s: State) {
    && s.writerCnt <= s.readerCnt <= s.writerCnt + 1
    && (s.writer.Going? ==> s.writer.count == s.writerCnt && s.readerCnt == s.writerCnt + 1)
    && (s.reader.Seen? ==> s.reader.count <= s.writerCnt <= s.reader.count + 1)
    && (s.reader.Seen? && s.readerCnt > s.writerCnt ==> s.reader.count == s.writerCnt)
    && (s.reader.Seen? && s.reader.count < s.writerCnt && !s.writer.Writing? ==> s.pipe >= 1)
    && (s.reader.Reading? && s.readerCnt == s.writerCnt && !s.writer.Writing? ==> s.pipe >= 1)
  }

  /** At most n bytes are in the pipe or on the way when a reset begins, and one fewer until it ends. */
  predicate Bounded(s: State, n: nat) { Sum(s) <= if s.reader.Reading? then n else n - 1 }

  lemma {:induction false} StepKeeps(s: State, step: Step)
    requires Counters(s) && Bounded(s, 3) && Enabled(s, step)
    ensures Counters(Apply(s, step)) && Bounded(Apply(s, step), 3)
  {}

  /** The reset is not the second to begin between the count and the write of one notification: the first has
      moved the reader's counter ahead again. */
  predicate Apart(s: State, step: Step) { step.Drain? ==> !(s.writer.Writing? && s.writerCnt < s.readerCnt) }

  lemma {:induction false} ApartKeeps(s: State, step: Step)
    requires Counters(s) && Bounded(s, 2) && Enabled(s, step) && Apart(s, step)
    ensures Counters(Apply(s, step)) && Bounded(Apply(s, step), 2)
  {}

  // Runs.

  predicate Leads(s: State, steps: seq<Step>, r: State)
    decreases |steps|
  {
    if steps == [] then r == s else Enabled(s, steps[0]) && Leads(Apply(s, steps[0]), steps[1..], r)
  }

  /** A run in which no second reset begins between the count and the write of one notification. */
  predicate AllApart(s: State, steps: seq<Step>)
    decreases |steps|
  {
    steps == [] || (Enabled(s, steps[0]) && Apart(s, steps[0]) && AllApart(Apply(s, steps[0]), steps[1..]))
  }

  lemma {:induction false} LeadsKeeps(s: State, steps: seq<Step>, r: State)
    requires Leads(s, steps, r) && Counters(s) && Bounded(s, 3)
    ensures Counters(r) && Bounded(r, 3)
    ensures AllApart(s, steps) && Bounded(s, 2) ==> Bounded(r, 2)
    decreases |steps|
  {
    if steps != [] {
      StepKeeps(s, steps[0]);
      LeadsKeeps(Apply(s, steps[0]), steps[1..], r);
      if AllApart(s, steps) && Bounded(s, 2) { ApartKeeps(s, steps[0]); }
    }
  }

  /** In every run the counters differ by at most one, and the pipe holds at most three bytes; at most two
      unless a second reset began between the count and the write of one notification. */
  lemma {:induction false} EveryRun(s: State, steps: seq<Step>, r: State)
    requires Initial(s) && Leads(s, steps, r)
    ensures r.writerCnt <= r.readerCnt <= r.writerCnt + 1
    ensures r.pipe <= 3 && (AllApart(s, steps) ==> r.pipe <= 2)
  {
    LeadsKeeps(s, steps, r);
  }

  /** The step that ends a notification: after it the writer is quiet. */
  predicate Ends(s: State, step: Step) { (step.Check? || step.Write?) && Enabled(s, step) && Apply(s, step).writer.Quiet? }

  /** No wakeup is lost: when a notification ends with no reset under way, the pipe can be read. */
  lemma {:induction false} Readable(s: State, steps: seq<Step>, r: State, step: Step)
    requires Initial(s) && Leads(s, steps, r) && Ends(r, step) && r.reader.Reading?
    ensures Apply(r, step).pipe >= 1
  {
    LeadsKeeps(s, steps, r);
  }

  ghost predicate Follows(s: State, r: State) { exists steps :: Leads(s, steps, r) }

  lemma {:induction false} LeadsOn(s: State, steps: seq<Step>, m: State, step: Step)
    requires Leads(s, steps, m) && Enabled(m, step)
    ensures Leads(s, steps + [step], Apply(m, step))
    decreases |steps|
  {
    var all := steps + [step];
    if steps == [] {
      assert all[1..] == [] && all[0] == step;
    } else {
      assert all[1..] == steps[1..] + [step] && all[0] == steps[0];
      LeadsOn(Apply(s, steps[0]), steps[1..], m, step);
    }
  }

  lemma {:induction false} FollowOn(s: State, m: State, step: Step, r: State)
    requires Follows(s, m) && Enabled(m, step) && Apply(m, step) == r
    ensures Follows(s, r)
  {
    var steps :| Leads(s, steps, m);
    LeadsOn(s, steps, m, step);
  }

  /** Whenever a second reset begins between the count and the write of one notification, the pipe can come to hold
      three bytes: it has two when this reset ends, and one more notification is written. */
  lemma {:induction false} ThenThree(s: State)
    requires Counters(s) && Enabled(s, Drain) && !Apart(s, Drain)
    ensures exists r :: Follows(Apply(s, Drain), r) && r.pipe == 3
  {
    var w, d := s.writerCnt, Apply(s, Drain);
    ThenTwo(s);
    FollowOn(d, State(w + 1, w + 2, 2, Quiet, Reading), Check, State(w + 1, w + 2, 2, Going(w + 1), Reading));
    FollowOn(d, State(w + 1, w + 2, 2, Going(w + 1), Reading), Count, State(w + 2, w + 2, 2, Writing, Reading));
    FollowOn(d, State(w + 2, w + 2, 2, Writing, Reading), Write, State(w + 2, w + 2, 3, Quiet, Reading));
  }

  lemma {:induction false} ThenTwo(s: State)
    requires Counters(s) && Enabled(s, Drain) && !Apart(s, Drain)
    ensures Follows(Apply(s, Drain), State(s.writerCnt + 1, s.writerCnt + 2, 2, Quiet, Reading))
  {
    var w, d := s.writerCnt, Apply(s, Drain);
    assert d == State(w, w + 1, 0, Writing, Drained) && Leads(d, [], d);
    FollowOn(d, d, Write, State(w, w + 1, 1, Quiet, Drained));
    FollowOn(d, State(w, w + 1, 1, Quiet, Drained), Check, State(w, w + 1, 1, Going(w), Drained));
    FollowOn(d, State(w, w + 1, 1, Going(w), Drained), Count, State(w + 1, w + 1, 1, Writing, Drained));
    FollowOn(d, State(w + 1, w + 1, 1, Writing, Drained), Write, State(w + 1, w + 1, 2, Quiet, Drained));
    FollowOn(d, State(w + 1, w + 1, 2, Quiet, Drained), See, State(w + 1, w + 1, 2, Quiet, Seen(w + 1)));
    FollowOn(d, State(w + 1, w + 1, 2, Quiet, Seen(w + 1)), Arm, State(w + 1, w + 2, 2, Quiet, Reading));
  }

  /** And this does occur. */
  lemma {:induction false} TwoResets()
    ensures exists s, r :: Initial(s) && Follows(s, r) && Counters(r) && Enabled(r, Drain) && !Apart(r, Drain)
  {
    var s := State(0, 1, 0, Quiet, Reading);
    assert Leads(s, [], s);
    FollowOn(s, s, Check, State(0, 1, 0, Going(0), Reading));
    FollowOn(s, State(0, 1, 0, Going(0), Reading), Count, State(1, 1, 0, Writing, Reading));
    FollowOn(s, State(1, 1, 0, Writing, Reading), Drain, State(1, 1, 0, Writing, Drained));
    FollowOn(s, State(1, 1, 0, Writing, Drained), See, State(1, 1, 0, Writing, Seen(1)));
    FollowOn(s, State(1, 1, 0, Writing, Seen(1)), Arm, State(1, 2, 0, Writing, Reading));
    assert Initial(s) && !Apart(State(1, 2, 0, Writing, Reading), Drain);
  }
}

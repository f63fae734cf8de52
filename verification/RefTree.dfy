/** A tree of reference-counted elements shared by threads. Every critical section is one step;
    constructing an element, and destroying one, happens between critical sections. */
module RefTree {
  import opened Common

  /** An element that was constructed; destroyed counts calls of its destructor. */
  datatype Elem = Elem(key: int, refs: int, destroyed: nat)

  /** Where a thread is inside an operation. */
  datatype Op =
    | Idle
    | Constructing(key: int)  // not found, to be constructed
    | Pending(e: nat)         // constructed, to be inserted
    | Losing(e: nat, won: nat)  // another thread inserted the key first, with this element
    | Dropping(e: nat)        // the last reference is gone

  /** What a get has returned: the element, if any, and its code. */
  datatype Answer = Answer(key: int, elem: Option<nat>, rc: int)

  /** held is the references handed out and not yet returned; they may pass between threads. got is the
      answer of the last get of each thread. */
  datatype State = State(elems: seq<Elem>, tree: set<nat>, ops: seq<Op>, held: multiset<nat>, initial: nat, got: map<nat, Answer>)

  // What is true between any two steps.

  predicate About(op: Op, e: nat) { (op.Pending? || op.Losing? || op.Dropping?) && op.e == e }

  /** How many threads have e outside the tree. */
  function InFlight(ops: seq<Op>, e: nat): nat {
    if ops == [] then 0 else InFlight(ops[..|ops| - 1], e) + One(About(ops[|ops| - 1], e))
  }

  /** The count is the number of references held; the element is in the tree exactly while there is
      one; and it is in the tree, or with one thread, or was destroyed once. */
  ghost predicate ElemOk(s: State, e: nat)
    requires e < |s.elems|
  {
    && s.elems[e].refs == s.held[e]
    && (e in s.tree <==> s.elems[e].refs >= 1)
    && One(e in s.tree) + InFlight(s.ops, e) + s.elems[e].destroyed == 1
  }

  ghost predicate UniqueKeys(s: State) {
    forall a, b | a in s.tree && b in s.tree && a < |s.elems| && b < |s.elems| && s.elems[a].key == s.elems[b].key :: a == b
  }

  /** What a get is about, at each of its places, has the key asked for. */
  predicate KeyOk(s: State, op: Op) {
    op.Losing? ==> op.e < |s.elems| && op.won < |s.elems| && s.elems[op.won].key == s.elems[op.e].key
  }

  predicate AnswerOk(s: State, a: Answer) { a.elem.Some? ==> a.elem.value < |s.elems| && s.elems[a.elem.value].key == a.key }

  ghost predicate Inv(s: State) {
    && 0 < s.initial
    && (forall e | e in s.tree :: e < |s.elems|) && (forall e | e in s.held :: e < |s.elems|)
    && (forall i | 0 <= i < |s.ops| :: (s.ops[i].Pending? || s.ops[i].Losing? || s.ops[i].Dropping?) ==> s.ops[i].e < |s.elems|)
    && UniqueKeys(s)
    && (forall i | 0 <= i < |s.ops| :: KeyOk(s, s.ops[i])) && (forall t | t in s.got :: AnswerOk(s, s.got[t]))
    && forall e | 0 <= e < |s.elems| :: ElemOk(s, e)
  }

  // Looking up.

  function FindBelow(s: State, key: int, n: nat): (r: Option<nat>)
    requires n <= |s.elems|
    ensures r.Some? ==> r.value < n && r.value in s.tree && s.elems[r.value].key == key
    ensures r.None? ==> forall e | 0 <= e < n && e in s.tree :: s.elems[e].key != key
  {
    if n == 0 then None
    else if n - 1 in s.tree && s.elems[n - 1].key == key then Some(n - 1)
    else FindBelow(s, key, n - 1)
  }

  /** The element with the key, if the tree has one. */
  function Find(s: State, key: int): (r: Option<nat>)
    ensures r.Some? ==> r.value < |s.elems| && r.value in s.tree && s.elems[r.value].key == key
    ensures r.None? ==> forall e | 0 <= e < |s.elems| && e in s.tree :: s.elems[e].key != key
  { FindBelow(s, key, |s.elems|) }

  // The steps.

  function SetOp(s: State, t: nat, op: Op): State
    requires t < |s.ops|
  { s.(ops := s.ops[t := op]) }

  /** A reference to e is handed out. */
  function Ref(s: State, e: nat): State
    requires e < |s.elems|
  { s.(elems := s.elems[e := s.elems[e].(refs := s.elems[e].refs + 1)], held := s.held + multiset{e}) }

  function Return(s: State, t: nat, key: int, elem: Option<nat>, rc: int): State { s.(got := s.got[t := Answer(key, elem, rc)]) }

  /** The first critical section of a get: found, or else to be constructed if add is set. */
  function GetFirst(s: State, t: nat, key: int, add: bool): State
    requires t < |s.ops|
  {
    match Find(s, key)
    case Some(e) => Return(Ref(s, e), t, key, Some(e), if add then EEXIST else 0)
    case None => if add then SetOp(s, t, Constructing(key)) else Return(s, t, key, None, 0)
  }

  /** The constructor runs outside the mutex, and may fail. */
  function Construct(s: State, t: nat, ok: bool): State
    requires t < |s.ops| && s.ops[t].Constructing?
  {
    if ok then SetOp(s, t, Pending(|s.elems|)).(elems := s.elems + [Elem(s.ops[t].key, 0, 0)])
    else Return(SetOp(s, t, Idle), t, s.ops[t].key, None, ENOMEM)
  }

  /** The second critical section: the element is inserted, unless the key has come in between. */
  function GetSecond(s: State, t: nat): State
    requires t < |s.ops| && s.ops[t].Pending? && s.ops[t].e < |s.elems|
  {
    var e := s.ops[t].e;
    match Find(s, s.elems[e].key)
    case Some(already) => SetOp(Ref(s, already), t, Losing(e, already))
    case None =>
      Return(SetOp(s, t, Idle).(tree := s.tree + {e}, elems := s.elems[e := s.elems[e].(refs := s.initial)],
                                held := s.held[e := s.held[e] + s.initial]), t, s.elems[e].key, Some(e), 0)
  }

  /** The critical section of a put: the last reference takes the element out of the tree. */
  function Put(s: State, t: nat, e: nat): State
    requires t < |s.ops| && e < |s.elems|
  {
    var x := s.elems[e].(refs := s.elems[e].refs - 1);
    var r := s.(elems := s.elems[e := x], held := s.held - multiset{e});
    if x.refs == 0 then SetOp(r, t, Dropping(e)).(tree := s.tree - {e}) else r
  }

  /** The destructor runs outside the mutex. */
  function Destroy(s: State, t: nat): State
    requires t < |s.ops| && (s.ops[t].Losing? || s.ops[t].Dropping?) && s.ops[t].e < |s.elems|
  {
    var e := s.ops[t].e;
    var r := SetOp(s, t, Idle).(elems := s.elems[e := s.elems[e].(destroyed := s.elems[e].destroyed + 1)]);
    if s.ops[t].Losing? then Return(r, t, s.elems[e].key, Some(s.ops[t].won), EALREADY) else r
  }

  datatype Step =
    | Getting(t: nat, key: int, add: bool)
    | Building(t: nat, ok: bool)
    | Inserting(t: nat)
    | Taking(e: nat)            // one more reference to an element that is held
    | Putting(t: nat, e: nat)   // a reference that is held goes back
    | Destroying(t: nat)

  ghost predicate Enabled(s: State, step: Step) {
    match step
    case Getting(t, _, _) => t < |s.ops| && s.ops[t].Idle?
    case Building(t, _) => t < |s.ops| && s.ops[t].Constructing?
    case Inserting(t) => t < |s.ops| && s.ops[t].Pending? && s.ops[t].e < |s.elems|
    case Taking(e) => e < |s.elems| && e in s.held
    case Putting(t, e) => t < |s.ops| && s.ops[t].Idle? && e < |s.elems| && e in s.held
    case Destroying(t) => t < |s.ops| && (s.ops[t].Losing? || s.ops[t].Dropping?) && s.ops[t].e < |s.elems|
  }

  ghost function Apply(s: State, step: Step): State
    requires Enabled(s, step)
  {
    match step
    case Getting(t, key, add) => GetFirst(s, t, key, add)
    case Building(t, ok) => Construct(s, t, ok)
    case Inserting(t) => GetSecond(s, t)
    case Taking(e) => Ref(s, e)
    case Putting(t, e) => Put(s, t, e)
    case Destroying(t) => Destroy(s, t)
  }

  // Each step keeps the invariant.

  lemma {:induction false} FlightMove(ops: seq<Op>, t: nat, op: Op, e: nat)
    requires t < |ops|
    ensures InFlight(ops[t := op], e) == InFlight(ops, e) - One(About(ops[t], e)) + One(About(op, e))
    ensures About(ops[t], e) ==> InFlight(ops, e) >= 1
  {
    var n := |ops| - 1;
    var moved := ops[t := op];
    if t == n {
      assert moved[..n] == ops[..n];
    } else {
      assert moved[..n] == ops[..n][t := op];
      FlightMove(ops[..n], t, op, e);
    }
  }

  lemma {:induction false} FlightNone(ops: seq<Op>, e: nat)
    requires forall i | 0 <= i < |ops| :: !About(ops[i], e)
    ensures InFlight(ops, e) == 0
  {
    if ops != [] { FlightNone(ops[..|ops| - 1], e); }
  }

  lemma {:induction false} RefKeeps(s: State, e: nat)
    requires Inv(s) && e in s.tree
    ensures Inv(Ref(s, e))
  {
    var r := Ref(s, e);
    forall a | 0 <= a < |r.elems| ensures ElemOk(r, a) { assert ElemOk(s, a); }
  }

  lemma {:induction false} IdleMoveKeeps(s: State, t: nat, op: Op)
    requires Inv(s) && t < |s.ops| && (s.ops[t].Idle? || s.ops[t].Constructing?) && (op.Idle? || op.Constructing?)
    ensures Inv(SetOp(s, t, op))
  {
    var r := SetOp(s, t, op);
    forall a | 0 <= a < |r.elems| ensures ElemOk(r, a) {
      assert ElemOk(s, a);
      FlightMove(s.ops, t, op, a);
    }
  }

  lemma {:induction false} ConstructKeeps(s: State, t: nat)
    requires Inv(s) && t < |s.ops| && s.ops[t].Constructing?
    ensures Inv(Construct(s, t, true))
  {
    var r := Construct(s, t, true);
    var e := |s.elems|;
    FlightNone(s.ops, e);
    FlightMove(s.ops, t, Pending(e), e);
    forall a | 0 <= a < |r.elems| ensures ElemOk(r, a) {
      if a < e {
        assert ElemOk(s, a);
        FlightMove(s.ops, t, Pending(e), a);
      }
    }
  }

  /** An element that is with a thread is not in the tree and has no references. */
  lemma {:induction false} FlightAlone(s: State, t: nat)
    requires Inv(s) && t < |s.ops| && (s.ops[t].Pending? || s.ops[t].Losing? || s.ops[t].Dropping?)
    ensures var e := s.ops[t].e;
            e !in s.tree && s.held[e] == 0 && InFlight(s.ops, e) == 1 && s.elems[e].destroyed == 0
  {
    assert ElemOk(s, s.ops[t].e);
    FlightMove(s.ops, t, Idle, s.ops[t].e);
  }

  lemma {:induction false} InsertKeeps(s: State, t: nat)
    requires Inv(s) && t < |s.ops| && s.ops[t].Pending? && Find(s, s.elems[s.ops[t].e].key).None?
    ensures Inv(GetSecond(s, t))
  {
    var r := GetSecond(s, t);
    FlightAlone(s, t);
    forall a | 0 <= a < |r.elems| ensures ElemOk(r, a) {
      assert ElemOk(s, a);
      FlightMove(s.ops, t, Idle, a);
    }
  }

  lemma {:induction false} LoseKeeps(s: State, t: nat, won: nat)
    requires Inv(s) && t < |s.ops| && s.ops[t].Pending? && won < |s.elems| && s.elems[won].key == s.elems[s.ops[t].e].key
    ensures Inv(SetOp(s, t, Losing(s.ops[t].e, won)))
  {
    var r := SetOp(s, t, Losing(s.ops[t].e, won));
    forall a | 0 <= a < |r.elems| ensures ElemOk(r, a) {
      assert ElemOk(s, a);
      FlightMove(s.ops, t, Losing(s.ops[t].e, won), a);
    }
  }

  lemma {:induction false} ReturnKeeps(s: State, t: nat, key: int, elem: Option<nat>, rc: int)
    requires Inv(s) && AnswerOk(s, Answer(key, elem, rc))
    ensures Inv(Return(s, t, key, elem, rc))
  {
    var r := Return(s, t, key, elem, rc);
    forall a | 0 <= a < |r.elems| ensures ElemOk(r, a) { assert ElemOk(s, a); }
  }

  lemma {:induction false} PutKeeps(s: State, t: nat, e: nat)
    requires Inv(s) && t < |s.ops| && s.ops[t].Idle? && e < |s.elems| && e in s.held
    ensures e in s.tree && Inv(Put(s, t, e))
  {
    var r := Put(s, t, e);
    assert ElemOk(s, e);
    forall a | 0 <= a < |r.elems| ensures ElemOk(r, a) {
      assert ElemOk(s, a);
      FlightMove(s.ops, t, Dropping(e), a);
    }
  }

  lemma {:induction false} DestroyKeeps(s: State, t: nat)
    requires Inv(s) && t < |s.ops| && (s.ops[t].Losing? || s.ops[t].Dropping?)
    ensures Inv(Destroy(s, t))
  {
    var r := Destroy(s, t);
    FlightAlone(s, t);
    forall a | 0 <= a < |r.elems| ensures ElemOk(r, a) {
      assert ElemOk(s, a);
      FlightMove(s.ops, t, Idle, a);
    }
  }

  lemma {:induction false} StepKeeps(s: State, step: Step)
    requires Inv(s) && Enabled(s, step)
    ensures Inv(Apply(s, step))
  {
    match step
    case Getting(t, key, add) =>
      if Find(s, key).Some? {
        var e := Find(s, key).value;
        RefKeeps(s, e);
        ReturnKeeps(Ref(s, e), t, key, Some(e), if add then EEXIST else 0);
      } else if add {
        IdleMoveKeeps(s, t, Constructing(key));
      } else {
        ReturnKeeps(s, t, key, None, 0);
      }
    case Building(t, ok) =>
      if ok {
        ConstructKeeps(s, t);
      } else {
        IdleMoveKeeps(s, t, Idle);
        ReturnKeeps(SetOp(s, t, Idle), t, s.ops[t].key, None, ENOMEM);
      }
    case Inserting(t) =>
      var found := Find(s, s.elems[s.ops[t].e].key);
      if found.None? {
        InsertKeeps(s, t);
      } else {
        RefKeeps(s, found.value);
        LoseKeeps(Ref(s, found.value), t, found.value);
      }
    case Taking(e) =>
      assert ElemOk(s, e);
      RefKeeps(s, e);
    case Putting(t, e) => PutKeeps(s, t, e);
    case Destroying(t) => DestroyKeeps(s, t);
  }

  // Runs.

  ghost predicate Initial(s: State) {
    s.elems == [] && s.tree == {} && s.held == multiset{} && s.got == map[] && 0 < s.initial && forall i | 0 <= i < |s.ops| :: s.ops[i] == Idle
  }

  ghost predicate Leads(s: State, steps: seq<Step>, r: State)
    decreases |steps|
  {
    if steps == [] then r == s else Enabled(s, steps[0]) && Leads(Apply(s, steps[0]), steps[1..], r)
  }

  lemma {:induction false} LeadsInv(s: State, steps: seq<Step>, r: State)
    requires Inv(s) && Leads(s, steps, r)
    ensures Inv(r)
    decreases |steps|
  {
    if steps != [] {
      StepKeeps(s, steps[0]);
      LeadsInv(Apply(s, steps[0]), steps[1..], r);
    }
  }

  /** In every run: keys in the tree are unique, an element is in the tree exactly while its count is
      positive, nobody holds one that was destroyed, and none is destroyed twice. */
  lemma {:induction false} EveryRun(s: State, steps: seq<Step>, r: State)
    requires Initial(s) && Leads(s, steps, r)
    ensures forall a, b | a in r.tree && b in r.tree && a < |r.elems| && b < |r.elems| && r.elems[a].key == r.elems[b].key :: a == b
    ensures forall e: nat | e < |r.elems| ::
              && (e in r.tree <==> r.elems[e].refs >= 1) && r.elems[e].refs == r.held[e]
              && r.elems[e].destroyed <= 1 && (r.elems[e].destroyed == 1 ==> r.held[e] == 0 && e !in r.tree)
  {
    assert Inv(s);
    LeadsInv(s, steps, r);
    forall e: nat | e < |r.elems|
      ensures (e in r.tree <==> r.elems[e].refs >= 1) && r.elems[e].refs == r.held[e]
      ensures r.elems[e].destroyed <= 1 && (r.elems[e].destroyed == 1 ==> r.held[e] == 0 && e !in r.tree)
    {
      assert ElemOk(r, e);
    }
  }

  /** When no operation is under way, every element constructed, losers of a race included, is in the
      tree or has been destroyed exactly once. */
  lemma {:induction false} NothingLost(s: State, steps: seq<Step>, r: State, e: nat)
    requires Initial(s) && Leads(s, steps, r) && e < |r.elems|
    requires forall i | 0 <= i < |r.ops| :: r.ops[i].Idle?
    ensures r.elems[e].destroyed == if e in r.tree then 0 else 1
  {
    LeadsInv(s, steps, r);
    assert ElemOk(r, e);
    FlightNone(r.ops, e);
  }

  // Teardown.

  /** All references to the first n elements. */
  function TotalBelow(s: State, n: nat): int
    requires n <= |s.elems|
  { if n == 0 then 0 else TotalBelow(s, n - 1) + s.elems[n - 1].refs }

  lemma {:induction false} TotalChange(s: State, r: State, e: nat, n: nat)
    requires e < |s.elems| == |r.elems| && n <= |s.elems|
    requires forall a | 0 <= a < n && a != e :: r.elems[a].refs == s.elems[a].refs
    ensures TotalBelow(r, n) == TotalBelow(s, n) + if e < n then r.elems[e].refs - s.elems[e].refs else 0
  {
    if n > 0 { TotalChange(s, r, e, n - 1); }
  }

  lemma {:induction false} TotalNonnegative(s: State, n: nat)
    requires n <= |s.elems| && Inv(s)
    ensures TotalBelow(s, n) >= 0
  {
    if n > 0 {
      TotalNonnegative(s, n - 1);
      assert ElemOk(s, n - 1);
    }
  }

  /** A put by a thread that then runs the destructor when it has to. */
  method PutAndDestroy(s: State, t: nat, e: nat) returns (r: State, removed: bool)
    requires Inv(s) && t < |s.ops| && s.ops[t].Idle? && e < |s.elems| && e in s.held
    ensures Inv(r) && r.ops == s.ops && |r.elems| == |s.elems| && r.initial == s.initial && r.held == s.held - multiset{e}
    ensures forall a | 0 <= a < |s.elems| && a != e :: r.elems[a] == s.elems[a]
    ensures r.elems[e].refs == s.elems[e].refs - 1 && r.elems[e].key == s.elems[e].key
    ensures removed == (s.elems[e].refs == 1) && r.tree == if removed then s.tree - {e} else s.tree
  {
    PutKeeps(s, t, e);
    r := Put(s, t, e);
    removed := r.ops[t].Dropping?;
    if removed {
      DestroyKeeps(r, t);
      r := Destroy(r, t);
      assert r.ops == s.ops;
    }
  }

  /** The element of the least key, if there is one, with a reference taken to it. */
  method Min(s: State) returns (r: Option<nat>, after: State)
    requires Inv(s)
    ensures Inv(after) && (r.None? <==> s.tree == {})
    ensures r.None? ==> after == s
    ensures r.Some? ==> r.value in s.tree && r.value < |s.elems| && after == Ref(s, r.value)
    ensures r.Some? ==> forall e | e in s.tree :: s.elems[r.value].key <= s.elems[e].key
    ensures r.Some? ==> after.elems[r.value].refs >= 2 && TotalBelow(after, |after.elems|) == TotalBelow(s, |s.elems|) + 1
  {
    r, after := None, s;
    var n := 0;
    while n < |s.elems|
      invariant n <= |s.elems|
      invariant r.None? <==> forall e | 0 <= e < n :: e !in s.tree
      invariant r.Some? ==> r.value in s.tree && forall e | 0 <= e < n && e in s.tree :: s.elems[r.value].key <= s.elems[e].key
    {
      if n in s.tree && (r.None? || s.elems[n].key < s.elems[r.value].key) { r := Some(n); }
      n := n + 1;
    }
    if r.Some? {
      RefKeeps(s, r.value);
      assert ElemOk(s, r.value);
      after := Ref(s, r.value);
      TotalChange(s, after, r.value, |s.elems|);
    }
  }

  /** The release of all control-service nodes: a reference to the least element is taken and two
      are returned, until the tree is empty. With an initial count of two this ends, and never
      touches an element after its destruction. */
  method NodesRelease(s: State, t: nat) returns (r: State)
    requires Inv(s) && s.initial == 2 && t < |s.ops| && forall i | 0 <= i < |s.ops| :: s.ops[i].Idle?
    ensures Inv(r) && r.tree == {} && r.held == multiset{} && |r.elems| == |s.elems|
    ensures forall e | 0 <= e < |r.elems| :: r.elems[e].destroyed == 1
  {
    var min;
    min, r := Min(s);
    while min.Some?
      invariant Inv(r) && r.initial == 2 && r.ops == s.ops && |r.elems| == |s.elems|
      invariant min.None? <==> r.tree == {}
      invariant min.Some? ==> min.value in r.tree && min.value < |r.elems| && r.elems[min.value].refs >= 2
      decreases TotalBelow(r, |r.elems|)
    {
      ghost var before := r;
      r := ReleaseOne(r, t, min.value);
      TotalChange(before, r, min.value, |r.elems|);
      min, r := Min(r);
      TotalNonnegative(r, |r.elems|);
    }
    forall e | 0 <= e < |r.elems| ensures r.elems[e].destroyed == 1 && r.held[e] == 0 {
      assert ElemOk(r, e);
      FlightNone(r.ops, e);
    }
  }

  /** One pass over an element just referenced: as many references are returned as an element starts with. */
  method ReleaseOne(s: State, t: nat, e: nat) returns (r: State)
    requires Inv(s) && s.initial == 2 && t < |s.ops| && (forall i | 0 <= i < |s.ops| :: s.ops[i].Idle?)
    requires e in s.tree && e < |s.elems| && s.elems[e].refs >= 2
    ensures Inv(r) && r.ops == s.ops && |r.elems| == |s.elems| && r.initial == s.initial
    ensures forall a | 0 <= a < |s.elems| && a != e :: r.elems[a] == s.elems[a]
    ensures r.elems[e].refs == s.elems[e].refs - 2
  {
    r := s;
    var i := 0;
    while i < r.initial
      invariant i <= 2 && Inv(r) && r.ops == s.ops && |r.elems| == |s.elems| && r.initial == 2
      invariant forall a | 0 <= a < |s.elems| && a != e :: r.elems[a] == s.elems[a]
      invariant r.elems[e].refs == s.elems[e].refs - i
    {
      assert ElemOk(r, e);
      var removed;
      r, removed := PutAndDestroy(r, t, e);
      i := i + 1;
    }
  }
}

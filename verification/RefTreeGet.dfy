/** What a get gives its caller, whatever other threads do between its critical sections. */
module RefTreeGet {
  import opened Common
  import opened RefTree

  /** A step of thread t. */
  predicate By(step: Step, t: nat) { !step.Taking? && step.t == t }

  ghost predicate StepsOfOthers(steps: seq<Step>, t: nat) { forall i | 0 <= i < |steps| :: !By(steps[i], t) }

  /** From x to y only threads other than t have taken steps. */
  ghost predicate ByOthers(x: State, y: State, t: nat) { exists steps :: Leads(x, steps, y) && StepsOfOthers(steps, t) }

  /** What the other threads do meanwhile, from any state. */
  ghost predicate Others(others: State -> State, t: nat) {
    forall x: State :: Inv(x) && t < |x.ops| ==> ByOthers(x, others(x), t)
  }

  /** What only thread t changes, and what nobody does. */
  predicate Kept(x: State, y: State, t: nat) {
    && t < |x.ops| == |y.ops| && y.ops[t] == x.ops[t] && y.initial == x.initial
    && (t in x.got <==> t in y.got) && (t in x.got ==> y.got[t] == x.got[t])
    && |x.elems| <= |y.elems| && forall e | 0 <= e < |x.elems| :: y.elems[e].key == x.elems[e].key
  }

  lemma {:induction false} StepKeepsOther(x: State, step: Step, t: nat)
    requires Enabled(x, step) && t < |x.ops| && !By(step, t)
    ensures Kept(x, Apply(x, step), t)
  {
    match step
    case Getting(u, key, add) => assert Kept(x, GetFirst(x, u, key, add), t);
    case Building(u, ok) => assert Kept(x, Construct(x, u, ok), t);
    case Inserting(u) => assert Kept(x, GetSecond(x, u), t);
    case Taking(e) => assert Kept(x, Ref(x, e), t);
    case Putting(u, e) => assert Kept(x, Put(x, u, e), t);
    case Destroying(u) => assert Kept(x, Destroy(x, u), t);
  }

  lemma {:induction false} OthersKeep(x: State, steps: seq<Step>, y: State, t: nat)
    requires Inv(x) && t < |x.ops| && Leads(x, steps, y) && StepsOfOthers(steps, t)
    ensures Inv(y) && Kept(x, y, t)
    decreases |steps|
  {
    if steps != [] {
      assert !By(steps[0], t);
      StepKeeps(x, steps[0]);
      StepKeepsOther(x, steps[0], t);
      forall i | 0 <= i < |steps[1..]| ensures !By(steps[1..][i], t) { assert !By(steps[i + 1], t); }
      OthersKeep(Apply(x, steps[0]), steps[1..], y, t);
    }
  }

  lemma {:induction false} Meanwhile(others: State -> State, x: State, t: nat)
    requires Others(others, t) && Inv(x) && t < |x.ops|
    ensures Inv(others(x)) && Kept(x, others(x), t)
  {
    assert ByOthers(x, others(x), t);
    var steps :| Leads(x, steps, others(x)) && StepsOfOthers(steps, t);
    OthersKeep(x, steps, others(x), t);
  }

  /** Element e of the tree has the key. */
  predicate KeyAt(s: State, e: nat, key: int) { e < |s.elems| && e in s.tree && s.elems[e].key == key }

  ghost predicate HasKey(s: State, key: int) { exists e: nat :: KeyAt(s, e, key) }

  lemma {:induction false} FindIs(s: State, key: int)
    requires Inv(s)
    ensures forall e: nat :: KeyAt(s, e, key) ==> Find(s, key) == Some(e)
    ensures !HasKey(s, key) ==> Find(s, key).None?
  {
    if Find(s, key).Some? { assert KeyAt(s, Find(s, key).value, key); }
  }

  /** From x to y one reference to e has been taken, and nothing else in the tree has changed. */
  predicate OneMore(x: State, y: State, e: nat) {
    e < |x.elems| && y.elems == x.elems[e := x.elems[e].(refs := x.elems[e].refs + 1)] && y.held == x.held + multiset{e} && y.tree == x.tree
  }

  /** Element e, which was in no tree and had no references, is now in it with the initial count. */
  predicate Inserted(x: State, y: State, e: nat, key: int) {
    && e < |x.elems| && e !in x.tree && x.held[e] == 0 && y.elems == x.elems[e := Elem(key, x.initial, 0)]
    && y.tree == x.tree + {e} && y.held == x.held[e := x.initial as nat]
  }

  predicate Unchanged(x: State, y: State) { y.elems == x.elems && y.tree == x.tree && y.held == x.held }

  lemma {:induction false} LookedUp(s: State, t: nat, key: int, add: bool)
    requires Inv(s) && t < |s.ops| && s.ops[t].Idle?
    ensures var r := GetFirst(s, t, key, add);
      && (forall e: nat :: KeyAt(s, e, key) ==> OneMore(s, r, e) && r.ops == s.ops && r.got == s.got[t := Answer(key, Some(e), if add then EEXIST else 0)])
      && (!HasKey(s, key) ==> Unchanged(s, r) && if add then r.ops[t] == Constructing(key) else r.ops == s.ops && r.got == s.got[t := Answer(key, None, 0)])
  {
    FindIs(s, key);
  }

  lemma {:induction false} InsertedOrNot(s: State, t: nat, key: int)
    requires Inv(s) && t < |s.ops| && s.ops[t].Pending? && s.elems[s.ops[t].e].key == key
    ensures var r, e := GetSecond(s, t), s.ops[t].e;
      && (forall w: nat :: KeyAt(s, w, key) ==> OneMore(s, r, w) && r.ops == s.ops[t := Losing(e, w)])
      && (!HasKey(s, key) ==> Inserted(s, r, e, key) && r.ops == s.ops[t := Idle] && r.got == s.got[t := Answer(key, Some(e), 0)])
  {
    FindIs(s, key);
    FlightAlone(s, t);
    assert ElemOk(s, s.ops[t].e);
  }

  /** The rest of a get after its lookup, which has not found the key. */
  method Insert(s: State, t: nat, key: int, o2: State -> State, o3: State -> State) returns (r: State, a: State, b: State)
    requires Inv(s) && t < |s.ops| && s.ops[t].Pending? && s.elems[s.ops[t].e].key == key && Others(o2, t) && Others(o3, t)
    ensures Inv(r) && Inv(a) && Inv(b) && t < |r.ops| && r.ops[t].Idle? && t in r.got && r.got[t].key == key
    ensures forall e: nat :: KeyAt(a, e, key) ==> OneMore(a, b, e) && r.got[t] == Answer(key, Some(e), EALREADY)
    ensures !HasKey(a, key) ==> r.got[t].elem.Some? && Inserted(a, b, r.got[t].elem.value, key) && r.got[t].rc == 0 && b == r
  {
    Meanwhile(o2, s, t);
    a := o2(s);
    StepKeeps(a, Inserting(t));
    InsertedOrNot(a, t, key);
    r := GetSecond(a, t);
    b := r;
    if r.ops[t].Losing? { r := Lose(r, t, key, o3); }
  }

  /** The element that came too late is destroyed, and the other one is the answer. */
  method Lose(s: State, t: nat, key: int, o3: State -> State) returns (r: State)
    requires Inv(s) && t < |s.ops| && s.ops[t].Losing? && s.elems[s.ops[t].e].key == key && Others(o3, t)
    ensures Inv(r) && t < |r.ops| && r.ops[t].Idle? && t in r.got && r.got[t] == Answer(key, Some(s.ops[t].won), EALREADY)
    ensures s.ops[t].e < |r.elems| && r.elems[s.ops[t].e].destroyed == 1
  {
    Meanwhile(o3, s, t);
    r := o3(s);
    FlightAlone(r, t);
    StepKeeps(r, Destroying(t));
    r := Destroy(r, t);
  }

  /** A whole get, while other threads do o1, o2 and o3 between its critical sections. What it does is decided in one
      of these, which leads from `a` to `b`: the lookup, or the insertion when the key was not there before. */
  method Get(s: State, t: nat, key: int, add: bool, ok: bool, o1: State -> State, o2: State -> State, o3: State -> State)
    returns (r: State, a: State, b: State)
    requires Inv(s) && t < |s.ops| && s.ops[t].Idle? && Others(o1, t) && Others(o2, t) && Others(o3, t)
    ensures Inv(r) && Inv(a) && Inv(b) && t < |r.ops| && r.ops[t].Idle? && t in r.got && AnswerOk(r, r.got[t]) && r.got[t].key == key
    ensures HasKey(s, key) || !add || !ok ==> a == s
    ensures forall e: nat :: KeyAt(a, e, key) ==>
              OneMore(a, b, e) && r.got[t] == Answer(key, Some(e), if !HasKey(s, key) then EALREADY else if add then EEXIST else 0)
    ensures HasKey(s, key) ==> b == r
    ensures !HasKey(a, key) && !(add && ok) ==> Unchanged(a, b) && r.got[t] == Answer(key, None, if add then ENOMEM else 0)
    ensures !HasKey(a, key) && add && ok ==>
              r.got[t].elem.Some? && Inserted(a, b, r.got[t].elem.value, key) && r.got[t].rc == 0 && b == r
  {
    StepKeeps(s, Getting(t, key, add));
    LookedUp(s, t, key, add);
    r := GetFirst(s, t, key, add);
    a, b := s, r;
    if r.ops[t].Constructing? {
      Meanwhile(o1, r, t);
      r := o1(r);
      StepKeeps(r, Building(t, ok));
      r := Construct(r, t, ok);
      if ok { r, a, b := Insert(r, t, key, o2, o3); }
    }
  }
}

/** Runs of consecutive bits in a 64-bit allocation map, where a set bit is in use. */
module BitRuns {
  import opened Common

  const FIELD: nat := 64

  type Field = b: seq<bool> | |b| == FIELD
    witness [false, false, false, false, false, false, false, false, false, false, false, false, false, false, false, false,
             false, false, false, false, false, false, false, false, false, false, false, false, false, false, false, false,
             false, false, false, false, false, false, false, false, false, false, false, false, false, false, false, false,
             false, false, false, false, false, false, false, false, false, false, false, false, false, false, false, false]

  // Masks.

  /** n set bits from bit i on. */
  function Mask(i: nat, n: nat): Field { seq(FIELD, j => i <= j < i + n) }

  function Not(a: Field): Field { seq(FIELD, j requires 0 <= j < FIELD => !a[j]) }

  function And(a: Field, b: Field): Field { seq(FIELD, j requires 0 <= j < FIELD => a[j] && b[j]) }

  function Or(a: Field, b: Field): Field { seq(FIELD, j requires 0 <= j < FIELD => a[j] || b[j]) }

  /** The n bits from i on are free. */
  predicate FreeRun(b: Field, i: nat, n: nat) { i + n <= FIELD && forall j | i <= j < i + n :: !b[j] }

  /** The n bits from i on are in use. */
  predicate UsedRun(b: Field, i: nat, n: nat) { i + n <= FIELD && forall j | i <= j < i + n :: b[j] }

  lemma {:induction false} MaskFree(b: Field, i: nat, n: nat)
    requires i + n <= FIELD
    ensures And(Not(b), Mask(i, n)) == Mask(i, n) <==> FreeRun(b, i, n)
    ensures And(b, Mask(i, n)) == Mask(i, n) <==> UsedRun(b, i, n)
  {
    var m := Mask(i, n);
    if And(Not(b), m) == m {
      forall j | i <= j < i + n ensures !b[j] { assert And(Not(b), m)[j] == m[j]; }
    }
    if And(b, m) == m {
      forall j | i <= j < i + n ensures b[j] { assert And(b, m)[j] == m[j]; }
    }
  }

  function Taken(b: Field, i: nat, n: nat): Field { Or(b, Mask(i, n)) }

  function Cleared(b: Field, i: nat, n: nat): Field { And(b, Not(Mask(i, n))) }

  /** Releasing what was just assigned restores the map. */
  lemma {:induction false} TakenCleared(b: Field, i: nat, n: nat)
    requires FreeRun(b, i, n)
    ensures UsedRun(Taken(b, i, n), i, n) && Cleared(Taken(b, i, n), i, n) == b
  {}

  // First fit.

  /** The least position from `from` on where n bits are free. */
  function FirstFit(b: Field, n: nat, from: nat): (r: Option<nat>)
    ensures r.Some? ==> from <= r.value && r.value + n <= FIELD
    decreases FIELD - from
  {
    if from + n > FIELD then None
    else if FreeRun(b, from, n) then Some(from)
    else if from >= FIELD then None
    else FirstFit(b, n, from + 1)
  }

  lemma {:induction false} FirstFitIs(b: Field, n: nat, from: nat)
    ensures var r := FirstFit(b, n, from);
            && (r.Some? ==> FreeRun(b, r.value, n) && forall i | from <= i < r.value :: !FreeRun(b, i, n))
            && (r.None? ==> forall i | from <= i :: !FreeRun(b, i, n))
    decreases FIELD - from
  {
    if from + n <= FIELD && !FreeRun(b, from, n) && from < FIELD { FirstFitIs(b, n, from + 1); }
  }

  /** What a search returns: the position, or that there is no space. */
  function Found(r: Option<nat>): int { if r.Some? then r.value else ENOSPC }

  method AvailOffset(field: Field, nbits: nat, offset: nat) returns (rc: int)
    ensures rc == if nbits == 0 || nbits > FIELD || offset > FIELD then EINVAL
                  else Found(FirstFit(field, nbits, offset))
  {
    if nbits == 0 || nbits > FIELD || offset > FIELD { return EINVAL; }
    var i := offset;
    while i <= FIELD - nbits
      invariant offset <= i && FirstFit(field, nbits, offset) == FirstFit(field, nbits, i)
    {
      var shifted := Mask(i, nbits);
      MaskFree(field, i, nbits);
      if And(Not(field), shifted) == shifted { return i; }
      i := i + 1;
    }
    return ENOSPC;
  }

  method Assign(field: Field, nbits: nat) returns (rc: int, after: Field)
    ensures rc == if nbits == 0 || nbits > FIELD then EINVAL
                  else Found(FirstFit(field, nbits, 0))
    ensures after == if rc >= 0 then Taken(field, rc, nbits) else field
  {
    after := field;
    if nbits == 0 || nbits > FIELD { return EINVAL, field; }
    if nbits == FIELD {
      MaskFree(field, 0, FIELD);
      if !FreeRun(field, 0, FIELD) { return ENOSPC, field; }
      after := Not(Mask(0, 0));
      assert after == Taken(field, 0, FIELD);
      return 0, after;
    }
    var i := 0;
    while i <= FIELD - nbits
      invariant FirstFit(field, nbits, 0) == FirstFit(field, nbits, i)
    {
      var shifted := Mask(i, nbits);
      MaskFree(field, i, nbits);
      if And(Not(field), shifted) == shifted { return i, Or(field, shifted); }
      i := i + 1;
    }
    return ENOSPC, field;
  }

  method Release(field: Field, offset: nat, nbits: nat) returns (rc: int, after: Field)
    ensures rc == if nbits == 0 || nbits > FIELD || offset >= FIELD || nbits + offset > FIELD then EINVAL
                  else if UsedRun(field, offset, nbits) then 0 else EBADSLT
    ensures after == if rc == 0 then Cleared(field, offset, nbits) else field
  {
    after := field;
    if nbits == 0 || nbits > FIELD || offset >= FIELD || nbits + offset > FIELD { return EINVAL, field; }
    MaskFree(field, offset, nbits);
    if nbits == FIELD {
      assert UsedRun(field, 0, FIELD) ==> field == Mask(0, FIELD);
      if field != Mask(0, FIELD) { return EBADSLT, field; }
      after := Mask(0, 0);
      assert after == Cleared(field, 0, FIELD);
      return 0, after;
    }
    var mask := Mask(offset, nbits);
    if And(field, mask) == mask { return 0, And(field, Not(mask)); }
    return EBADSLT, field;
  }

  // Several runs at once.

  /** Starts of k disjoint free runs of n bits, in order, from `from` on. */
  predicate Packing(b: Field, n: nat, from: nat, p: seq<nat>)
    decreases |p|
  {
    p == [] || (from <= p[0] && FreeRun(b, p[0], n) && Packing(b, n, p[0] + n, p[1..]))
  }

  /** Taking the first fit each time, from the end of the last. */
  function Greedy(b: Field, n: nat, k: nat, from: nat): (r: Option<seq<nat>>)
    decreases k
  {
    if k == 0 then Some([]) else
      match FirstFit(b, n, from)
      case None => None
      case Some(i) => match Greedy(b, n, k - 1, i + n) case None => None case Some(p) => Some([i] + p)
  }

  /** k assignments one after another. */
  function Assignments(b: Field, n: nat, k: nat): (r: Option<seq<nat>>)
    decreases k
  {
    if k == 0 then Some([]) else
      match FirstFit(b, n, 0)
      case None => None
      case Some(i) => match Assignments(Taken(b, i, n), n, k - 1) case None => None case Some(p) => Some([i] + p)
  }

  lemma {:induction false} PackingLater(b: Field, n: nat, from: nat, later: nat, p: seq<nat>)
    requires Packing(b, n, later, p) && from <= later
    ensures Packing(b, n, from, p)
  {}

  /** First fit is optimal: it finds k runs whenever there are k at all. */
  lemma {:induction false} GreedyOptimal(b: Field, n: nat, k: nat, from: nat, p: seq<nat>)
    requires Packing(b, n, from, p) && |p| == k
    ensures Greedy(b, n, k, from).Some?
    decreases k
  {
    if k > 0 {
      FirstFitIs(b, n, from);
      var i := FirstFit(b, n, from).value;
      assert i <= p[0];
      PackingLater(b, n, i + n, p[0] + n, p[1..]);
      GreedyOptimal(b, n, k - 1, i + n, p[1..]);
    }
  }

  lemma {:induction false} GreedyPacks(b: Field, n: nat, k: nat, from: nat)
    requires Greedy(b, n, k, from).Some?
    ensures |Greedy(b, n, k, from).value| == k && Packing(b, n, from, Greedy(b, n, k, from).value)
    decreases k
  {
    if k > 0 {
      FirstFitIs(b, n, from);
      var i := FirstFit(b, n, from).value;
      GreedyPacks(b, n, k - 1, i + n);
      var p := Greedy(b, n, k - 1, i + n).value;
      assert ([i] + p)[1..] == p;
    }
  }

  /** Positions where nothing fits may be skipped. */
  lemma {:induction false} FirstFitSkip(b: Field, n: nat, from: nat, to: nat)
    requires from <= to <= FIELD && forall i | from <= i < to :: !FreeRun(b, i, n)
    ensures FirstFit(b, n, from) == FirstFit(b, n, to)
    decreases FIELD - from
  {
    if from < to {
      FirstFitSkip(b, n, from + 1, to);
      if from + n > FIELD { assert FirstFit(b, n, from + 1).None?; }
    }
  }

  /** The search looks at nothing before its start. */
  lemma {:induction false} FirstFitLocal(a: Field, b: Field, n: nat, from: nat)
    requires forall j | from <= j < FIELD :: a[j] == b[j]
    ensures FirstFit(a, n, from) == FirstFit(b, n, from)
    decreases FIELD - from
  {
    if from + n <= FIELD && from < FIELD { FirstFitLocal(a, b, n, from + 1); }
  }

  lemma {:induction false} GreedyLocal(a: Field, b: Field, n: nat, k: nat, from: nat)
    requires forall j | from <= j < FIELD :: a[j] == b[j]
    ensures Greedy(a, n, k, from) == Greedy(b, n, k, from)
    decreases k
  {
    if k > 0 {
      FirstFitLocal(a, b, n, from);
      if FirstFit(a, n, from).Some? { GreedyLocal(a, b, n, k - 1, FirstFit(a, n, from).value + n); }
    }
  }

  lemma {:induction false} FreeRunBelow(a: Field, t: Field, j: nat, n: nat)
    requires FreeRun(t, j, n) && forall c | 0 <= c < FIELD && a[c] :: t[c]
    ensures FreeRun(a, j, n)
  {}

  /** Nothing fits before the end of the first run taken. */
  lemma {:induction false} TakenFirst(b: Field, n: nat, i: nat)
    requires n > 0 && FirstFit(b, n, 0) == Some(i)
    ensures forall j | 0 <= j < i + n :: !FreeRun(Taken(b, i, n), j, n)
  {
    var t := Taken(b, i, n);
    FirstFitIs(b, n, 0);
    forall j | 0 <= j < i + n ensures !FreeRun(t, j, n) {
      if j >= i {
        assert t[j];
      } else if FreeRun(t, j, n) {
        FreeRunBelow(b, t, j, n);
      }
    }
  }

  /** Assigning one run after another follows the greedy choice. */
  lemma {:induction false} AssignmentsGreedy(b: Field, n: nat, k: nat)
    requires n > 0
    ensures Assignments(b, n, k) == Greedy(b, n, k, 0)
    decreases k
  {
    if k > 0 && FirstFit(b, n, 0).Some? {
      var i := FirstFit(b, n, 0).value;
      AssignmentsGreedy(Taken(b, i, n), n, k - 1);
      GreedyAfter(b, n, k - 1, i);
    }
  }

  lemma {:induction false} GreedyAfter(b: Field, n: nat, k: nat, i: nat)
    requires n > 0 && FirstFit(b, n, 0) == Some(i)
    ensures Greedy(Taken(b, i, n), n, k, 0) == Greedy(b, n, k, i + n)
  {
    TakenFirst(b, n, i);
    GreedySkip(Taken(b, i, n), n, k, i + n);
    GreedyTaken(b, n, k, i);
  }

  lemma {:induction false} GreedySkip(b: Field, n: nat, k: nat, to: nat)
    requires to <= FIELD && forall i | 0 <= i < to :: !FreeRun(b, i, n)
    ensures Greedy(b, n, k, 0) == Greedy(b, n, k, to)
  {
    FirstFitSkip(b, n, 0, to);
  }

  lemma {:induction false} GreedyTaken(b: Field, n: nat, k: nat, i: nat)
    ensures Greedy(Taken(b, i, n), n, k, i + n) == Greedy(b, n, k, i + n)
  {
    var t := Taken(b, i, n);
    assert forall j | i + n <= j < FIELD :: t[j] == b[j];
    GreedyLocal(t, b, n, k, i + n);
  }

  /** So k assignments succeed exactly when there are k disjoint runs. */
  lemma {:induction false} AssignmentsExist(b: Field, n: nat, k: nat)
    requires n > 0
    ensures Assignments(b, n, k).Some? <==> exists p :: |p| == k && Packing(b, n, 0, p)
    ensures Assignments(b, n, k) == Greedy(b, n, k, 0)
  {
    AssignmentsGreedy(b, n, k);
    if Greedy(b, n, k, 0).Some? { GreedyPacks(b, n, k, 0); }
    if p :| |p| == k && Packing(b, n, 0, p) { GreedyOptimal(b, n, k, 0, p); }
  }
}

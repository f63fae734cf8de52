/** The decode context, and the rebuilding of a whole stripe with it. */
module ErasureRebuild {
  import opened Common
  import opened Gf2
  import opened Gf256
  import opened ErasureMatrix
  import opened ErasureBuffers
  import opened ErasureDecoder

  /** lost names different fragments below m. */
  predicate Erasures(lost: seq<nat>, m: nat) {
    && (forall i | 0 <= i < |lost| :: lost[i] < m)
    && (forall i, j | 0 <= i < j < |lost| :: lost[i] != lost[j])
  }

  predicate Recoverable(k: nat, p: nat, lost: seq<nat>) {
    0 < k && 0 < p && k + p <= M_MAX && 0 < |lost| <= p && Erasures(lost, k + p)
  }

  /** Whether the list can be taken, by the scan with a seen flag for every fragment. */
  method CheckErasures(list: seq<nat>, n: nat, m: nat) returns (ok: bool)
    requires n <= |list| && m <= M_MAX
    ensures ok == Erasures(list[..n], m)
  {
    var seen := new bool[M_MAX](_ => false);
    var i := 0;
    while i < n
      invariant i <= n && Erasures(list[..i], m)
      invariant forall x | 0 <= x < M_MAX :: seen[x] == (x in list[..i])
    {
      if list[i] >= m || seen[list[i]] {
        assert list[..n][i] == list[i];
        assert list[i] < m ==> exists j | 0 <= j < i :: list[..n][j] == list[i];
        return false;
      }
      seen[list[i]] := true;
      assert list[..i + 1] == list[..i] + [list[i]];
      i := i + 1;
    }
    ok := true;
  }

  /** slots inverts chosen, and is NO_SLOT for every other fragment. */
  ghost predicate Slots(slots: seq<nat>, chosen: seq<nat>) {
    && |slots| == M_MAX
    && (forall i | 0 <= i < |chosen| :: chosen[i] < M_MAX && slots[chosen[i]] == i)
    && (forall f | 0 <= f < M_MAX :: SlotOk(slots[f], chosen, f))
  }

  ghost predicate SlotOk(slot: nat, chosen: seq<nat>, f: nat) {
    slot == NO_SLOT || (slot < |chosen| && chosen[slot] == f)
  }

  method FillSlots(slotOfFrag: array<nat>, decodeIndex: array<nat>, k: nat)
    requires slotOfFrag.Length == M_MAX && slotOfFrag != decodeIndex && k <= decodeIndex.Length
    requires Increasing(decodeIndex[..k], M_MAX)
    modifies slotOfFrag
    ensures Slots(slotOfFrag[..], decodeIndex[..k])
  {
    var f := 0;
    while f < M_MAX
      invariant f <= M_MAX && forall x | 0 <= x < f :: slotOfFrag[x] == NO_SLOT
    {
      slotOfFrag[f] := NO_SLOT;
      f := f + 1;
    }
    var i := 0;
    ghost var chosen := decodeIndex[..k];
    while i < k
      invariant i <= k && forall n | 0 <= n < i :: slotOfFrag[chosen[n]] == n
      invariant forall x | 0 <= x < M_MAX :: SlotOk(slotOfFrag[x], chosen, x)
    {
      slotOfFrag[decodeIndex[i]] := i;
      i := i + 1;
    }
  }

  method ListErased(erased: array<nat>, lost: seq<nat>)
    requires |lost| <= erased.Length
    modifies erased
    ensures erased[..|lost|] == lost
  {
    var i := 0;
    while i < |lost|
      invariant i <= |lost| && erased[..i] == lost[..i]
    {
      erased[i] := lost[i];
      i := i + 1;
    }
  }

  lemma {:induction false} MatrixFits(k: nat, n: nat)
    requires k <= M_MAX && n <= M_MAX
    ensures k * n <= M_MAX * M_MAX
  {
    assert k * n <= k * M_MAX by { RowBoundsUpTo(k, n, M_MAX); }
  }

  lemma {:induction false} RowBoundsUpTo(k: nat, i: nat, n: nat)
    requires i <= n
    ensures k * i <= k * n
  {
    if i < n { RowBounds(k, i, n); }
  }

  class Decoder {
    var k: nat
    var nerrs: nat
    const erased: array<nat>
    const decodeIndex: array<nat>
    const slotOfFrag: array<nat>
    /** One coefficient for every rebuilt fragment and slot; absent once released. */
    var tables: Option<seq<Byte>>

    ghost predicate Valid()
      reads this
    {
      && erased.Length == decodeIndex.Length == slotOfFrag.Length == M_MAX
      && erased != decodeIndex && erased != slotOfFrag && decodeIndex != slotOfFrag
      && (tables.None? ==> k == 0)
    }

    function Chosen(): seq<nat>
      requires k <= decodeIndex.Length
      reads this, decodeIndex
    {
      decodeIndex[..k]
    }

    /** The context rebuilds the fragments lost, of m, from the chosen survivors. */
    ghost predicate Ready(e: seq<Byte>, m: nat, lost: seq<nat>)
      reads this, erased, decodeIndex, slotOfFrag
    {
      && Valid() && 0 < k <= m <= M_MAX && nerrs == |lost| <= M_MAX && erased[..nerrs] == lost
      && Survivors(Chosen(), Marks(lost), m)
      && Slots(slotOfFrag[..], Chosen())
      && tables.Some? && RebuildsAll(tables.value, e, k, Chosen(), lost)
    }

    constructor ()
      ensures Valid() && tables.None?
    {
      erased := new nat[M_MAX];
      decodeIndex := new nat[M_MAX];
      slotOfFrag := new nat[M_MAX];
      k, nerrs, tables := 0, 0, None;
    }

    /** Fails for bad arguments, or when there is no memory for the tables; otherwise the context is ready. */
    method Prepare(lib: Library, k0: nat, p: nat, list: seq<nat>, n: nat, memory: bool) returns (rc: int)
      requires Valid() && Sound(lib) && n <= |list|
      modifies this, erased, decodeIndex, slotOfFrag
      ensures Valid() && rc == if !Recoverable(k0, p, list[..n]) then EINVAL else if memory then 0 else ENOMEM
      ensures rc == 0 ==> k == k0 && Ready(Encoding(lib, k0 + p, k0), k0 + p, list[..n])
      ensures rc != 0 ==> unchanged(this, erased, decodeIndex, slotOfFrag)
    {
      if k0 == 0 || p == 0 || k0 + p > M_MAX || n == 0 || n > p { return EINVAL; }
      var m := k0 + p;
      var lost := list[..n];
      assert |lost| == n;
      var ok := CheckErasures(list, n, m);
      if !ok { return EINVAL; }
      assert Recoverable(k0, p, lost);
      if !memory { return ENOMEM; }
      rc := Build(lib, k0, k0 + p, lost);
    }

    /** With memory for the tables nothing fails. */
    method Build(lib: Library, k0: nat, m: nat, lost: seq<nat>) returns (rc: int)
      requires Valid() && Sound(lib) && 0 < k0 && k0 + |lost| <= m <= M_MAX && Erasures(lost, m)
      modifies this, erased, decodeIndex, slotOfFrag
      ensures rc == 0 && k == k0 && Ready(Encoding(lib, m, k0), m, lost)
    {
      var decode, temp := new Byte[M_MAX * M_MAX], new Byte[M_MAX * M_MAX];
      LivingMarks(lost, m);
      MatrixFits(k0, |lost|);
      MatrixFits(k0, k0);
      rc := GenDecodeMatrix(lib, Encoding(lib, m, k0), decode, temp, decodeIndex, lost, k0, m);
      Install(Encoding(lib, m, k0), k0, m, lost, decode[..]);
    }

    /** Takes over a decode matrix that fits the chosen survivors. */
    method Install(ghost e: seq<Byte>, k0: nat, ghost m: nat, lost: seq<nat>, decode: seq<Byte>)
      requires Valid() && 0 < k0 <= m <= M_MAX && |lost| <= M_MAX
      requires Survivors(decodeIndex[..k0], Marks(lost), m) && RebuildsAll(decode, e, k0, decodeIndex[..k0], lost)
      modifies this, erased, slotOfFrag
      ensures k == k0 && Ready(e, m, lost)
    {
      tables := Some(decode);
      FillSlots(slotOfFrag, decodeIndex, k0);
      ListErased(erased, lost);
      k, nerrs := k0, |lost|;
    }

    /** Folds one fragment into the rebuilt buffers; one without a slot is refused. */
    method Update(frag: nat, len: nat, src: array<Byte>, rebuilt: seq<array<Byte>>) returns (rc: int)
      requires Valid() && Outputs(rebuilt, len) && |rebuilt| == nerrs && len <= src.Length && src !in rebuilt
      modifies set a | a in rebuilt
      ensures rc == if len == 0 || frag >= M_MAX then EINVAL else if slotOfFrag[frag] >= k then ENOENT else 0
      ensures rc != 0 ==> forall i | 0 <= i < nerrs :: rebuilt[i][..] == old(rebuilt[i][..])
      ensures rc == 0 ==> forall i, t | 0 <= i < nerrs && 0 <= t < len ::
                rebuilt[i][t] == Plus(old(rebuilt[i][t]), Times(At(tables.value, k, i, slotOfFrag[frag]), src[t]))
      ensures forall i, t | 0 <= i < nerrs && len <= t < rebuilt[i].Length :: rebuilt[i][t] == old(rebuilt[i][t])
    {
      if len == 0 || frag >= M_MAX { return EINVAL; }
      var slot := slotOfFrag[frag];
      if slot >= k { return ENOENT; }
      FoldSource(len, k, slot, tables.value, src, rebuilt);
      rc := 0;
    }

    method Release()
      requires Valid()
      modifies this
      ensures Valid() && tables.None? && k == 0 && nerrs == 0
    {
      tables, k, nerrs := None, 0, 0;
    }
  }

  /** A released context refuses every fragment. */
  method UpdateReleased(d: Decoder, frag: nat, len: nat, src: array<Byte>) returns (rc: int)
    requires d.Valid() && 0 < len <= src.Length && frag < M_MAX
    modifies d
    ensures rc == ENOENT && d.Valid() && d.tables.None?
  {
    d.Release();
    rc := d.Update(frag, len, src, []);
  }

  // Rebuilding a stripe.

  /** The slots whose fragment has been fed. */
  function Fed(chosen: seq<nat>, fed: seq<nat>): set<nat> { set s: nat | s < |chosen| && chosen[s] in fed }

  /** Every chosen survivor is fed exactly once; anything else may be fed as well. */
  ghost predicate FeedsOnce(chosen: seq<nat>, order: seq<nat>) {
    forall s | 0 <= s < |chosen| :: multiset(order)[chosen[s]] == 1
  }

  lemma {:induction false} FedNext(chosen: seq<nat>, slots: seq<nat>, order: seq<nat>, n: nat)
    requires n < |order| && FeedsOnce(chosen, order)
    ensures order[n] !in chosen ==> Fed(chosen, order[..n + 1]) == Fed(chosen, order[..n])
    ensures forall s: nat | s < |chosen| && chosen[s] == order[n] && Slots(slots, chosen) ::
              s !in Fed(chosen, order[..n]) && Fed(chosen, order[..n + 1]) == Fed(chosen, order[..n]) + {s}
  {
    assert order[..n + 1] == order[..n] + [order[n]];
    if order[n] in chosen { FedOnce(order, n); }
  }

  /** The partial sums that the rebuilt buffers hold once the fragments fed have been folded in. */
  ghost predicate Rebuilt(rebuilt: seq<array<Byte>>, len: nat, d: seq<Byte>, e: seq<Byte>, k: nat,
                          chosen: seq<nat>, fed: set<nat>, data: Stripe)
    reads set a | a in rebuilt
    requires Outputs(rebuilt, len)
  {
    forall i, t | 0 <= i < |rebuilt| && 0 <= t < len ::
      rebuilt[i][t] == Sums(d, e, k, chosen, fed, data)(i, t)
  }

  function Sums(d: seq<Byte>, e: seq<Byte>, k: nat, chosen: seq<nat>, fed: set<nat>, data: Stripe): Stripe {
    (i: nat, t: nat) => Accumulated(d, e, k, chosen, fed, i, Column(data, t))
  }

  function Accumulated(d: seq<Byte>, e: seq<Byte>, k: nat, chosen: seq<nat>, fed: set<nat>, i: nat, x: nat -> Byte): Byte {
    PartialRow(d, k, i, Survivor(e, k, chosen, x), fed)
  }

  lemma {:induction false} AccumulatedNext(d: seq<Byte>, e: seq<Byte>, k: nat, chosen: seq<nat>, fed: set<nat>,
                                           i: nat, s: nat, x: nat -> Byte)
    requires s < k == |chosen| && s !in fed
    ensures Accumulated(d, e, k, chosen, fed + {s}, i, x)
         == Plus(Accumulated(d, e, k, chosen, fed, i, x), Times(At(d, k, i, s), Fragment(e, k, chosen[s], x)))
  {
    var y := Survivor(e, k, chosen, x);
    PartialRowNext(d, k, i, y, fed, s);
    assert y(s) == Fragment(e, k, chosen[s], x);
  }

  /** A byte folded in is one more term of the sum. */
  lemma {:induction false} FedByte(d: seq<Byte>, e: seq<Byte>, k: nat, chosen: seq<nat>, fed: set<nat>, i: nat, s: nat, x: nat -> Byte,
                                   before: Byte, b: Byte, after: Byte)
    requires s < k == |chosen| && s !in fed
    requires before == Accumulated(d, e, k, chosen, fed, i, x) && b == Fragment(e, k, chosen[s], x)
    requires after == Plus(before, Times(At(d, k, i, s), b))
    ensures after == Accumulated(d, e, k, chosen, fed + {s}, i, x)
  {
    AccumulatedNext(d, e, k, chosen, fed, i, s, x);
  }

  /** One byte position of every fragment that was not lost. */
  ghost predicate HoldsSurvivors(frags: seq<array<Byte>>, len: nat, e: seq<Byte>, k: nat, chosen: seq<nat>, data: Stripe)
    reads set a | a in frags
  {
    && (forall r | 0 <= r < |frags| :: frags[r].Length >= len)
    && (forall r, t | 0 <= r < |frags| && r in chosen && 0 <= t < len ::
          frags[r][t] == Fragment(e, k, r, Column(data, t)))
  }

  /** One more fragment, in a slot not fed before or in none. */
  method FeedOne(d: Decoder, ghost e: seq<Byte>, ghost m: nat, ghost lost: seq<nat>, frag: nat, src: array<Byte>,
                 rebuilt: seq<array<Byte>>, len: nat, ghost fed: set<nat>, ghost next: set<nat>, ghost data: Stripe)
    requires d.Ready(e, m, lost) && frag < m && |rebuilt| == |lost|
    requires Outputs(rebuilt, len) && src !in rebuilt && len <= src.Length
    requires frag in d.Chosen() ==> forall t | 0 <= t < len :: src[t] == Fragment(e, d.k, frag, Column(data, t))
    requires frag !in d.Chosen() ==> next == fed
    requires frag in d.Chosen() ==> d.slotOfFrag[frag] !in fed && next == fed + {d.slotOfFrag[frag]}
    requires Rebuilt(rebuilt, len, d.tables.value, e, d.k, d.Chosen(), fed, data)
    modifies set a | a in rebuilt
    ensures Rebuilt(rebuilt, len, d.tables.value, e, d.k, d.Chosen(), next, data)
  {
    ghost var chosen, slot := d.Chosen(), d.slotOfFrag[frag];
    assert SlotOk(slot, chosen, frag);
    if d.slotOfFrag[frag] < d.k {
      assert chosen[slot] == frag;
      FeedChosen(d, e, chosen, frag, slot, src, rebuilt, len, fed, data);
    } else {
      FeedOther(d, e, chosen, frag, src, rebuilt, len, fed, data);
    }
  }

  method FeedChosen(d: Decoder, ghost e: seq<Byte>, ghost chosen: seq<nat>, frag: nat, ghost slot: nat, src: array<Byte>,
                    rebuilt: seq<array<Byte>>, len: nat, ghost fed: set<nat>, ghost data: Stripe)
    requires d.Valid() && d.tables.Some? && |rebuilt| == d.nerrs && |chosen| == d.k && frag < M_MAX
    requires slot == d.slotOfFrag[frag] < d.k && chosen[slot] == frag && slot !in fed
    requires Outputs(rebuilt, len) && src !in rebuilt && len <= src.Length
    requires forall t | 0 <= t < len :: src[t] == Fragment(e, d.k, frag, Column(data, t))
    requires Rebuilt(rebuilt, len, d.tables.value, e, d.k, chosen, fed, data)
    modifies set a | a in rebuilt
    ensures Rebuilt(rebuilt, len, d.tables.value, e, d.k, chosen, fed + {slot}, data)
  {
    ghost var tables, k := d.tables.value, d.k;
    var rc := d.Update(frag, len, src, rebuilt);
    forall i, t | 0 <= i < |rebuilt| && 0 <= t < len
      ensures rebuilt[i][t] == Sums(tables, e, k, chosen, fed + {slot}, data)(i, t)
    {
      FedByte(tables, e, k, chosen, fed, i, slot, Column(data, t), old(rebuilt[i][t]), src[t], rebuilt[i][t]);
    }
  }

  method FeedOther(d: Decoder, ghost e: seq<Byte>, ghost chosen: seq<nat>, frag: nat, src: array<Byte>,
                   rebuilt: seq<array<Byte>>, len: nat, ghost fed: set<nat>, ghost data: Stripe)
    requires d.Valid() && d.tables.Some? && |rebuilt| == d.nerrs && frag < M_MAX && d.slotOfFrag[frag] >= d.k
    requires Outputs(rebuilt, len) && src !in rebuilt && len <= src.Length
    requires Rebuilt(rebuilt, len, d.tables.value, e, d.k, chosen, fed, data)
    modifies set a | a in rebuilt
    ensures Rebuilt(rebuilt, len, d.tables.value, e, d.k, chosen, fed, data)
  {
    ghost var tables, k := d.tables.value, d.k;
    var rc := d.Update(frag, len, src, rebuilt);
    assert rc != 0;
    forall i, t | 0 <= i < |rebuilt| && 0 <= t < len
      ensures rebuilt[i][t] == Sums(tables, e, k, chosen, fed, data)(i, t)
    {
      assert rebuilt[i][t] == rebuilt[i][..][t];
    }
  }

  /** Feeding every chosen survivor once, in any order, into zeroed buffers rebuilds every
      lost fragment, data or parity. Fragments without a slot may be fed too: they are refused. */
  method RebuildStripe(d: Decoder, ghost e: seq<Byte>, m: nat, lost: seq<nat>, order: seq<nat>,
                       frags: seq<array<Byte>>, rebuilt: seq<array<Byte>>, len: nat, ghost data: Stripe)
    requires d.Ready(e, m, lost) && |frags| == m && FeedsOnce(d.Chosen(), order)
    requires forall n | 0 <= n < |order| :: order[n] < m
    requires HoldsSurvivors(frags, len, e, d.k, d.Chosen(), data)
    requires Outputs(rebuilt, len) && |rebuilt| == |lost| && forall r | 0 <= r < m :: frags[r] !in rebuilt
    requires forall i, t | 0 <= i < |rebuilt| && 0 <= t < len :: rebuilt[i][t] == ZERO
    modifies set a | a in rebuilt
    ensures forall i, t | 0 <= i < |lost| && 0 <= t < len ::
              rebuilt[i][t] == Fragment(e, d.k, lost[i], Column(data, t))
  {
    ghost var chosen, tables, k := d.Chosen(), d.tables.value, d.k;
    var n := 0;
    NothingFed(rebuilt, len, tables, e, k, chosen, data);
    while n < |order|
      invariant n <= |order| && d.Ready(e, m, lost)
      invariant d.k == k && d.Chosen() == chosen && d.tables.value == tables
      invariant HoldsSurvivors(frags, len, e, k, chosen, data)
      invariant Rebuilt(rebuilt, len, tables, e, k, chosen, Fed(chosen, order[..n]), data)
    {
      FedNext(chosen, d.slotOfFrag[..], order, n);
      FeedOne(d, e, m, lost, order[n], frags[order[n]], rebuilt, len, Fed(chosen, order[..n]), Fed(chosen, order[..n + 1]), data);
      n := n + 1;
    }
    AllFed(rebuilt, len, tables, e, k, chosen, order, lost, data);
  }

  lemma {:induction false} NothingFed(rebuilt: seq<array<Byte>>, len: nat, d: seq<Byte>, e: seq<Byte>, k: nat,
                                      chosen: seq<nat>, data: Stripe)
    requires Outputs(rebuilt, len) && forall i, t | 0 <= i < |rebuilt| && 0 <= t < len :: rebuilt[i][t] == ZERO
    ensures Rebuilt(rebuilt, len, d, e, k, chosen, Fed(chosen, []), data)
  {
    assert Fed(chosen, []) == {};
    forall i, t | 0 <= i < |rebuilt| && 0 <= t < len
      ensures rebuilt[i][t] == Sums(d, e, k, chosen, {}, data)(i, t)
    {
      PartialRowNone(d, k, i, Survivor(e, k, chosen, Column(data, t)));
    }
  }

  lemma {:induction false} AllFed(rebuilt: seq<array<Byte>>, len: nat, d: seq<Byte>, e: seq<Byte>, k: nat,
                                  chosen: seq<nat>, order: seq<nat>, lost: seq<nat>, data: Stripe)
    requires Outputs(rebuilt, len) && |rebuilt| == |lost| && |chosen| == k
    requires FeedsOnce(chosen, order) && RebuildsAll(d, e, k, chosen, lost)
    requires Rebuilt(rebuilt, len, d, e, k, chosen, Fed(chosen, order[..|order|]), data)
    ensures forall i, t | 0 <= i < |lost| && 0 <= t < len :: rebuilt[i][t] == Fragment(e, k, lost[i], Column(data, t))
  {
    assert order[..|order|] == order;
    forall s: nat | s < k ensures s in Fed(chosen, order) {
      assert multiset(order)[chosen[s]] == 1;
    }
    forall i, t | 0 <= i < |lost| && 0 <= t < len
      ensures rebuilt[i][t] == Fragment(e, k, lost[i], Column(data, t))
    {
      AllFedAt(rebuilt, len, d, e, k, chosen, Fed(chosen, order), lost, data, i, t);
    }
  }

  lemma {:induction false} AllFedAt(rebuilt: seq<array<Byte>>, len: nat, d: seq<Byte>, e: seq<Byte>, k: nat, chosen: seq<nat>,
                                    fed: set<nat>, lost: seq<nat>, data: Stripe, i: nat, t: nat)
    requires Outputs(rebuilt, len) && |rebuilt| == |lost| && |chosen| == k && i < |lost| && t < len
    requires RebuildsAll(d, e, k, chosen, lost) && Rebuilt(rebuilt, len, d, e, k, chosen, fed, data)
    requires forall s: nat | s < k :: s in fed
    ensures rebuilt[i][t] == Fragment(e, k, lost[i], Column(data, t))
  {
    FullyFed(d, e, k, chosen, fed, lost, i, Column(data, t));
  }

  lemma {:induction false} FullyFed(d: seq<Byte>, e: seq<Byte>, k: nat, chosen: seq<nat>, fed: set<nat>, lost: seq<nat>, i: nat, x: nat -> Byte)
    requires |chosen| == k && i < |lost| && RebuildsAll(d, e, k, chosen, lost) && forall s: nat | s < k :: s in fed
    ensures Accumulated(d, e, k, chosen, fed, i, x) == Fragment(e, k, lost[i], x)
  {
    AllInPlaceIs(Rebuilder(d, e, k, chosen), lost, |lost|);
    RebuildsData(d, e, k, chosen, i, lost[i], x);
    PartialRowAll(d, k, i, Survivor(e, k, chosen, x), fed);
  }
}

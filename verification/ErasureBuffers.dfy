/** What the erasure-code library does to buffers: every output row is a combination of the
    source fragments, computed for each byte position on its own. */
module ErasureBuffers {
  import opened Gf2
  import opened Gf256
  import opened ErasureMatrix

  /** Separate output buffers of at least len bytes. */
  ghost predicate Outputs(dst: seq<array<Byte>>, len: nat)
  {
    && (forall i | 0 <= i < |dst| :: dst[i].Length >= len)
    && (forall i, j | 0 <= i < j < |dst| :: dst[i] != dst[j])
  }

  /** Adds coefficient * src to the first len bytes of dst. */
  method FoldRow(dst: array<Byte>, len: nat, coefficient: Byte, src: array<Byte>)
    requires len <= dst.Length && len <= src.Length && src != dst
    modifies dst
    ensures forall t | 0 <= t < len :: dst[t] == Plus(old(dst[t]), Times(coefficient, src[t]))
    ensures forall t | len <= t < dst.Length :: dst[t] == old(dst[t])
  {
    var t := 0;
    while t < len
      invariant t <= len
      invariant forall q | 0 <= q < t :: dst[q] == Plus(old(dst[q]), Times(coefficient, src[q]))
      invariant forall q | t <= q < dst.Length :: dst[q] == old(dst[q])
    {
      dst[t] := Plus(dst[t], Times(coefficient, src[t]));
      t := t + 1;
    }
  }

  /** Folds one source into every output row, in the column that belongs to the source. */
  method FoldSource(len: nat, k: nat, column: nat, tables: seq<Byte>, src: array<Byte>, dst: seq<array<Byte>>)
    requires Outputs(dst, len) && len <= src.Length && src !in dst
    modifies set a | a in dst
    ensures forall i, t | 0 <= i < |dst| && 0 <= t < len ::
              dst[i][t] == Plus(old(dst[i][t]), Times(At(tables, k, i, column), src[t]))
    ensures forall i, t | 0 <= i < |dst| && len <= t < dst[i].Length :: dst[i][t] == old(dst[i][t])
  {
    var i := 0;
    while i < |dst|
      invariant i <= |dst|
      invariant forall n, t | 0 <= n < i && 0 <= t < len ::
                  dst[n][t] == Plus(old(dst[n][t]), Times(At(tables, k, n, column), src[t]))
      invariant forall n, t | 0 <= n < i && len <= t < dst[n].Length :: dst[n][t] == old(dst[n][t])
      invariant forall n, t | i <= n < |dst| && 0 <= t < dst[n].Length :: dst[n][t] == old(dst[n][t])
    {
      FoldRow(dst[i], len, At(tables, k, i, column), src);
      i := i + 1;
    }
  }

  /** A stripe: byte t of fragment i, at (t, i). */
  type Stripe = (nat, nat) -> Byte

  function Column(data: Stripe, t: nat): nat -> Byte { (i: nat) => data(t, i) }

  /** The sources hold the first len bytes of the stripe's fragments. */
  ghost predicate Holds(src: seq<array<Byte>>, len: nat, data: Stripe)
    reads set a | a in src
  {
    && (forall i | 0 <= i < |src| :: src[i].Length >= len)
    && (forall i, t | 0 <= i < |src| && 0 <= t < len :: src[i][t] == data(t, i))
  }

  method CombineByte(tables: seq<Byte>, k: nat, i: nat, src: seq<array<Byte>>, t: nat, len: nat, ghost data: Stripe)
    returns (s: Byte)
    requires |src| == k && t < len && Holds(src, len, data)
    ensures s == RowTimes(tables, k, i, Column(data, t))
  {
    s := ZERO;
    var j := 0;
    ghost var x := Column(data, t);
    while j < k
      invariant j <= k && s == Sum((n: nat) => Times(At(tables, k, i, n), x(n)), j)
    {
      s := Plus(s, Times(At(tables, k, i, j), src[j][t]));
      j := j + 1;
    }
  }

  method CombineRow(len: nat, k: nat, i: nat, tables: seq<Byte>, src: seq<array<Byte>>, dst: array<Byte>, ghost data: Stripe)
    requires len <= dst.Length && |src| == k && dst !in src && Holds(src, len, data)
    modifies dst
    ensures forall t | 0 <= t < len :: dst[t] == RowTimes(tables, k, i, Column(data, t))
    ensures forall t | len <= t < dst.Length :: dst[t] == old(dst[t])
  {
    var t := 0;
    while t < len
      invariant t <= len
      invariant forall q | 0 <= q < t :: dst[q] == RowTimes(tables, k, i, Column(data, q))
      invariant forall q | t <= q < dst.Length :: dst[q] == old(dst[q])
    {
      dst[t] := CombineByte(tables, k, i, src, t, len, data);
      t := t + 1;
    }
  }

  /** Computes every output row from all the sources at once. */
  method CombineSources(len: nat, k: nat, tables: seq<Byte>, src: seq<array<Byte>>, dst: seq<array<Byte>>, ghost data: Stripe)
    requires Outputs(dst, len) && |src| == k && Holds(src, len, data)
    requires forall n | 0 <= n < k :: src[n] !in dst
    modifies set a | a in dst
    ensures forall i, t | 0 <= i < |dst| && 0 <= t < len :: dst[i][t] == RowTimes(tables, k, i, Column(data, t))
    ensures forall i, t | 0 <= i < |dst| && len <= t < dst[i].Length :: dst[i][t] == old(dst[i][t])
  {
    var i := 0;
    while i < |dst|
      invariant i <= |dst|
      invariant forall n, t | 0 <= n < i && 0 <= t < len :: dst[n][t] == RowTimes(tables, k, n, Column(data, t))
      invariant forall n, t | 0 <= n < i && len <= t < dst[n].Length :: dst[n][t] == old(dst[n][t])
      invariant forall n, t | i <= n < |dst| && 0 <= t < dst[n].Length :: dst[n][t] == old(dst[n][t])
    {
      CombineRow(len, k, i, tables, src, dst[i], data);
      i := i + 1;
    }
  }

  // Sums that fill up term by term.

  /** The sum of the terms whose index has been reached. */
  function Part(f: nat -> Byte, done: set<nat>): nat -> Byte { (i: nat) => if i in done then f(i) else ZERO }

  lemma {:induction false} PartAdd(f: nat -> Byte, done: set<nat>, n: nat, k: nat)
    requires k < n && k !in done
    ensures Sum(Part(f, done + {k}), n) == Plus(Sum(Part(f, done), n), f(k))
  {
    PlusLaws(ZERO, f(k), ZERO, ZERO);
    PlusLaws(f(k), ZERO, ZERO, ZERO);
    SumAdjust(Part(f, done), Part(f, done + {k}), n, k, f(k));
  }

  lemma {:induction false} PartAll(f: nat -> Byte, done: set<nat>, n: nat)
    requires forall i: nat | i < n :: i in done
    ensures Sum(Part(f, done), n) == Sum(f, n)
  {
    SumEqual(Part(f, done), f, n);
  }

  lemma {:induction false} PartNone(f: nat -> Byte, n: nat)
    ensures Sum(Part(f, {}), n) == ZERO
  {
    SumZero(Part(f, {}), n);
  }

  // Rows that are combined one source at a time.

  /** The terms whose sum is row i of d times x. */
  function Terms(d: seq<Byte>, k: nat, i: nat, x: nat -> Byte): nat -> Byte {
    (n: nat) => Times(At(d, k, i, n), x(n))
  }

  /** What row i of the output holds once the sources fed have been folded in. */
  function PartialRow(d: seq<Byte>, k: nat, i: nat, x: nat -> Byte, fed: set<nat>): Byte {
    Sum(Part(Terms(d, k, i, x), fed), k)
  }

  lemma {:induction false} PartialRowNext(d: seq<Byte>, k: nat, i: nat, x: nat -> Byte, fed: set<nat>, s: nat)
    requires s < k && s !in fed
    ensures PartialRow(d, k, i, x, fed + {s}) == Plus(PartialRow(d, k, i, x, fed), Times(At(d, k, i, s), x(s)))
  {
    var f := Terms(d, k, i, x);
    PartAdd(f, fed, k, s);
    assert f(s) == Times(At(d, k, i, s), x(s));
  }

  lemma {:induction false} PartialRowNone(d: seq<Byte>, k: nat, i: nat, x: nat -> Byte)
    ensures PartialRow(d, k, i, x, {}) == ZERO
  {
    PartNone(Terms(d, k, i, x), k);
  }

  lemma {:induction false} PartialRowAll(d: seq<Byte>, k: nat, i: nat, x: nat -> Byte, fed: set<nat>)
    requires forall s: nat | s < k :: s in fed
    ensures PartialRow(d, k, i, x, fed) == RowTimes(d, k, i, x)
  {
    var f := Terms(d, k, i, x);
    PartAll(f, fed, k);
    SumEqual(f, (n: nat) => Times(At(d, k, i, n), x(n)), k);
  }

  lemma {:induction false} FedOnce(order: seq<nat>, n: nat)
    requires n < |order| && multiset(order)[order[n]] == 1
    ensures order[n] !in order[..n] && order[..n + 1] == order[..n] + [order[n]]
  {
    assert order == order[..n] + [order[n]] + order[n + 1..];
    assert multiset(order)[order[n]] == multiset(order[..n])[order[n]] + 1 + multiset(order[n + 1..])[order[n]];
  }
}

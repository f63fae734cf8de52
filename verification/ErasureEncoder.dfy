/** Computing parity: the cache of encoding tables for a range of geometries, one-shot encoding,
    and encoding that folds in one data fragment at a time. */
module ErasureEncoder {
  import opened Common
  import opened Gf2
  import opened Gf256
  import opened ErasureMatrix
  import opened ErasureBuffers
  import opened ErasureDecoder

  /** The parity rows of the encoding matrix for k data and p parity fragments. */
  function ParityRows(lib: Library, k: nat, p: nat): seq<Byte> {
    var e := Encoding(lib, k + p, k);
    if k * k <= |e| then e[k * k..] else []
  }

  lemma {:induction false} ParityIndex(k: nat, p: nat, i: nat, j: nat)
    requires i < p && j < k
    ensures k * (k + i) + j == k * k + (k * i + j) < (k + p) * k
  {
    RowBounds(k, i, p);
    assert (k + p) * k == k * k + k * p;
  }

  lemma {:induction false} GetDrop(e: seq<Byte>, n: nat, i: nat)
    requires n <= |e|
    ensures Get(e[n..], i) == Get(e, n + i)
  {}

  lemma {:induction false} ParityRowAt(lib: Library, k: nat, p: nat, i: nat, x: nat -> Byte)
    requires Sound(lib) && 0 < k && k + p <= M_MAX && i < p
    ensures RowTimes(ParityRows(lib, k, p), k, i, x) == Fragment(Encoding(lib, k + p, k), k, k + i, x)
  {
    var e := Encoding(lib, k + p, k);
    assert Generates(lib, k + p, k);
    forall j: nat | j < k ensures At(ParityRows(lib, k, p), k, i, j) == At(e, k, k + i, j) {
      ParityIndex(k, p, i, j);
      GetDrop(e, k * k, k * i + j);
    }
    RowTimesEqual(ParityRows(lib, k, p), e, k, i, k + i, x, x);
  }

  /** The buffers hold the parity fragments of the stripe. */
  ghost predicate Encoded(parity: seq<array<Byte>>, len: nat, lib: Library, k: nat, p: nat, data: Stripe)
    requires Outputs(parity, len)
    reads set a | a in parity
  {
    |parity| == p &&
    forall i, t | 0 <= i < p && 0 <= t < len ::
      parity[i][t] == Fragment(Encoding(lib, k + p, k), k, k + i, Column(data, t))
  }

  lemma {:induction false} EncodedRows(parity: seq<array<Byte>>, len: nat, lib: Library, k: nat, p: nat, data: Stripe)
    requires Outputs(parity, len) && |parity| == p && Sound(lib) && 0 < k && k + p <= M_MAX
    requires forall i, t | 0 <= i < p && 0 <= t < len ::
               parity[i][t] == RowTimes(ParityRows(lib, k, p), k, i, Column(data, t))
    ensures Encoded(parity, len, lib, k, p, data)
  {
    forall i, t | 0 <= i < p && 0 <= t < len
      ensures parity[i][t] == Fragment(Encoding(lib, k + p, k), k, k + i, Column(data, t))
    {
      ParityRowAt(lib, k, p, i, Column(data, t));
    }
  }

  predicate Geometry(kMin: nat, kMax: nat, p: nat) { 0 < p && 0 < kMin <= kMax && kMax + p <= M_MAX }

  /** The tables of every k in [from, end), and no other. */
  ghost predicate TablesFrom(tables: seq<Option<seq<Byte>>>, lib: Library, from: nat, end: nat, p: nat) {
    forall k | 0 <= k < |tables| :: tables[k] == if from <= k < end then Some(ParityRows(lib, k, p)) else None
  }

  class EncodeCache {
    const gtbls: array<Option<seq<Byte>>>
    var p: nat
    var kMin: nat
    var kMax: nat
    var initialized: bool

    ghost predicate Valid(lib: Library)
      reads this, gtbls
    {
      && gtbls.Length == M_MAX + 1
      && (initialized ==> Geometry(kMin, kMax, p))
      && (if initialized then TablesFrom(gtbls[..], lib, kMin, kMax + 1, p) else TablesFrom(gtbls[..], lib, 0, 0, 0))
    }

    constructor (lib: Library)
      ensures Valid(lib) && !initialized
    {
      gtbls := new Option<seq<Byte>>[M_MAX + 1](_ => None);
      p, kMin, kMax, initialized := 0, 0, 0, false;
    }

    /** Builds the tables of every k in range; `memory` says for which k there is memory. */
    method Init(lib: Library, k0: nat, k1: nat, p0: nat, memory: nat -> bool) returns (rc: int)
      requires Valid(lib)
      modifies this, gtbls
      ensures Valid(lib)
      ensures old(initialized) ==> rc == if k0 == kMin && k1 == kMax && p0 == p then EALREADY else EINVAL
      ensures !old(initialized) ==>
                rc == if !Geometry(k0, k1, p0) then EINVAL else if forall k | k0 <= k <= k1 :: memory(k) then 0 else ENOMEM
      ensures rc == 0 ==> initialized && kMin == k0 && kMax == k1 && p == p0
      ensures rc != 0 ==> unchanged(this) && gtbls[..] == old(gtbls[..])
    {
      if initialized {
        return if k0 == kMin && k1 == kMax && p0 == p then EALREADY else EINVAL;
      }
      if p0 == 0 || k0 == 0 || k0 > k1 || k1 + p0 > M_MAX { return EINVAL; }
      var k := k0;
      while k <= k1
        invariant k0 <= k <= k1 + 1 && forall j | k0 <= j < k :: memory(j)
        invariant unchanged(this) && TablesFrom(gtbls[..], lib, k0, k, p0)
      {
        if !memory(k) {
          Clear(k0, k);
          assert gtbls[..] == old(gtbls[..]);
          return ENOMEM;
        }
        gtbls[k] := Some(ParityRows(lib, k, p0));
        k := k + 1;
      }
      p, kMin, kMax, initialized := p0, k0, k1, true;
      rc := 0;
    }

    /** Frees the tables of every k in [from, end). */
    method Clear(from: nat, end: nat)
      requires from <= end <= gtbls.Length
      modifies gtbls
      ensures forall n | 0 <= n < gtbls.Length :: gtbls[n] == if from <= n < end then None else old(gtbls[n])
    {
      var j := from;
      while j < end
        invariant from <= j <= end
        invariant forall n | 0 <= n < gtbls.Length :: gtbls[n] == if from <= n < j then None else old(gtbls[n])
      {
        gtbls[j] := None;
        j := j + 1;
      }
    }

    method Destroy(ghost lib: Library)
      requires Valid(lib)
      modifies this, gtbls
      ensures Valid(lib) && !initialized
    {
      if !initialized { return; }
      Clear(kMin, kMax + 1);
      p, kMin, kMax, initialized := 0, 0, 0, false;
    }

    predicate Accepts(k: nat, len: nat)
      reads this
    {
      initialized && kMin <= k <= kMax && 0 < len
    }

    /** All parity fragments of a stripe at once. */
    method Encode(ghost lib: Library, k: nat, len: nat, src: seq<array<Byte>>, parity: seq<array<Byte>>, ghost data: Stripe)
      returns (rc: int)
      requires Valid(lib) && Sound(lib) && Outputs(parity, len)
      requires Accepts(k, len) ==> |src| == k && |parity| == p && Holds(src, len, data)
      requires forall n | 0 <= n < |src| :: src[n] !in parity
      modifies set a | a in parity
      ensures rc == if Accepts(k, len) then 0 else EINVAL
      ensures rc == EINVAL ==> forall i | 0 <= i < |parity| :: parity[i][..] == old(parity[i][..])
      ensures rc == 0 ==> Encoded(parity, len, lib, k, p, data)
    {
      if !initialized || k < kMin || k > kMax || len == 0 { return EINVAL; }
      assert gtbls[..][k] == Some(ParityRows(lib, k, p));
      CombineSources(len, k, gtbls[k].value, src, parity, data);
      rc := 0;
      EncodedRows(parity, len, lib, k, p, data);
    }

    /** Folds one data fragment into the running parity. */
    method EncodeUpdate(ghost lib: Library, k: nat, index: nat, len: nat, src: array<Byte>, parity: seq<array<Byte>>)
      returns (rc: int)
      requires Valid(lib) && Outputs(parity, len) && len <= src.Length && src !in parity
      requires Accepts(k, len) ==> |parity| == p
      modifies set a | a in parity
      ensures rc == if Accepts(k, len) && index < k then 0 else EINVAL
      ensures rc == EINVAL ==> forall i | 0 <= i < |parity| :: parity[i][..] == old(parity[i][..])
      ensures rc == 0 ==> forall i, t | 0 <= i < p && 0 <= t < len ::
                parity[i][t] == Plus(old(parity[i][t]), Times(At(ParityRows(lib, k, p), k, i, index), src[t]))
    {
      if !initialized || k < kMin || k > kMax || index >= k || len == 0 { return EINVAL; }
      assert gtbls[..][k] == Some(ParityRows(lib, k, p));
      FoldSource(len, k, index, gtbls[k].value, src, parity);
      rc := 0;
    }
  }

  function Elements(s: seq<nat>): set<nat> { set x | x in s }

  lemma {:induction false} ElementsNext(order: seq<nat>, n: nat)
    requires n < |order| && multiset(order)[order[n]] == 1
    ensures order[n] !in Elements(order[..n]) && Elements(order[..n + 1]) == Elements(order[..n]) + {order[n]}
  {
    FedOnce(order, n);
  }

  /** The running parity once the data fragments fed have been folded in. */
  ghost predicate Running(parity: seq<array<Byte>>, len: nat, tables: seq<Byte>, k: nat, fed: set<nat>, data: Stripe)
    reads set a | a in parity
    requires Outputs(parity, len)
  {
    forall i, t | 0 <= i < |parity| && 0 <= t < len ::
      parity[i][t] == PartialRow(tables, k, i, Column(data, t), fed)
  }

  /** Folding every data fragment once, in any order, into zeroed parity gives what one-shot
      encoding computes. */
  method EncodeStream(c: EncodeCache, ghost lib: Library, k: nat, order: seq<nat>, len: nat,
                      src: seq<array<Byte>>, parity: seq<array<Byte>>, ghost data: Stripe)
    requires c.Valid(lib) && Sound(lib) && c.Accepts(k, len)
    requires |src| == k && |parity| == c.p && Holds(src, len, data) && Outputs(parity, len)
    requires forall n | 0 <= n < k :: src[n] !in parity
    requires forall s | 0 <= s < k :: multiset(order)[s] == 1
    requires forall n | 0 <= n < |order| :: order[n] < k
    requires forall i, t | 0 <= i < |parity| && 0 <= t < len :: parity[i][t] == ZERO
    modifies set a | a in parity
    ensures Encoded(parity, len, lib, k, c.p, data)
  {
    NothingRunning(parity, len, ParityRows(lib, k, c.p), k, data);
    FoldAll(c, lib, k, order, len, src, parity, data);
    AllRunning(parity, len, lib, k, c.p, order, data);
  }

  method FoldAll(c: EncodeCache, ghost lib: Library, k: nat, order: seq<nat>, len: nat,
                 src: seq<array<Byte>>, parity: seq<array<Byte>>, ghost data: Stripe)
    requires c.Valid(lib) && c.Accepts(k, len)
    requires |src| == k && |parity| == c.p && Holds(src, len, data) && Outputs(parity, len)
    requires forall n | 0 <= n < k :: src[n] !in parity
    requires forall n | 0 <= n < |order| :: order[n] < k && multiset(order)[order[n]] == 1
    requires Running(parity, len, ParityRows(lib, k, c.p), k, Elements([]), data)
    modifies set a | a in parity
    ensures Running(parity, len, ParityRows(lib, k, c.p), k, Elements(order[..|order|]), data)
  {
    var n := 0;
    assert order[..0] == [];
    while n < |order|
      invariant n <= |order| && c.Valid(lib) && c.Accepts(k, len) && c.p == |parity|
      invariant Holds(src, len, data)
      invariant Running(parity, len, ParityRows(lib, k, c.p), k, Elements(order[..n]), data)
    {
      ElementsNext(order, n);
      EncodeOne(c, lib, k, order[n], len, src, parity, Elements(order[..n]), data);
      n := n + 1;
    }
  }

  lemma {:induction false} NothingRunning(parity: seq<array<Byte>>, len: nat, tables: seq<Byte>, k: nat, data: Stripe)
    requires Outputs(parity, len) && forall i, t | 0 <= i < |parity| && 0 <= t < len :: parity[i][t] == ZERO
    ensures Running(parity, len, tables, k, Elements([]), data)
  {
    assert Elements([]) == {};
    forall i, t | 0 <= i < |parity| && 0 <= t < len
      ensures parity[i][t] == PartialRow(tables, k, i, Column(data, t), {})
    {
      PartialRowNone(tables, k, i, Column(data, t));
    }
  }

  lemma {:induction false} AllRunning(parity: seq<array<Byte>>, len: nat, lib: Library, k: nat, p: nat, order: seq<nat>, data: Stripe)
    requires Outputs(parity, len) && |parity| == p && Sound(lib) && 0 < k && k + p <= M_MAX
    requires forall s | 0 <= s < k :: multiset(order)[s] == 1
    requires Running(parity, len, ParityRows(lib, k, p), k, Elements(order[..|order|]), data)
    ensures Encoded(parity, len, lib, k, p, data)
  {
    assert order[..|order|] == order;
    forall s: nat | s < k ensures s in Elements(order) {
      assert multiset(order)[s] == 1;
    }
    forall i, t | 0 <= i < p && 0 <= t < len
      ensures parity[i][t] == RowTimes(ParityRows(lib, k, p), k, i, Column(data, t))
    {
      PartialRowAll(ParityRows(lib, k, p), k, i, Column(data, t), Elements(order));
    }
    EncodedRows(parity, len, lib, k, p, data);
  }

  /** One more data fragment, not folded in before. */
  method EncodeOne(c: EncodeCache, ghost lib: Library, k: nat, index: nat, len: nat, src: seq<array<Byte>>,
                   parity: seq<array<Byte>>, ghost fed: set<nat>, ghost data: Stripe)
    requires c.Valid(lib) && c.Accepts(k, len) && |parity| == c.p && index < k && index !in fed
    requires |src| == k && Holds(src, len, data) && Outputs(parity, len)
    requires forall n | 0 <= n < k :: src[n] !in parity
    requires Running(parity, len, ParityRows(lib, k, c.p), k, fed, data)
    modifies set a | a in parity
    ensures c.Valid(lib) && c.Accepts(k, len) && Holds(src, len, data)
    ensures Running(parity, len, ParityRows(lib, k, c.p), k, fed + {index}, data)
  {
    ghost var tables := ParityRows(lib, k, c.p);
    var rc := c.EncodeUpdate(lib, k, index, len, src[index], parity);
    forall i, t | 0 <= i < |parity| && 0 <= t < len
      ensures parity[i][t] == PartialRow(tables, k, i, Column(data, t), fed + {index})
    {
      PartialRowNext(tables, k, i, Column(data, t), fed, index);
    }
  }
}

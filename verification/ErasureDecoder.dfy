/** Rebuilding lost fragments: the decode context built for a list of erased fragments, and the
    folding of one surviving fragment at a time into the rebuilt buffers. */
module ErasureDecoder {
  import opened Common
  import opened Gf2
  import opened Gf256
  import opened ErasureMatrix

  /** The value of slot_of_frag for a fragment outside the recovery set. */
  const NO_SLOT: nat := 0xff

  // Counting survivors.

  /** How many of the fragments below r are not marked as erased. */
  function Living(erased: seq<bool>, r: nat): nat
    requires r <= |erased|
  {
    if r == 0 then 0 else Living(erased, r - 1) + if erased[r - 1] then 0 else 1
  }

  lemma {:induction false} LivingMark(erased: seq<bool>, x: nat, r: nat)
    requires x < |erased| && r <= |erased|
    ensures Living(erased[x := true], r) >= Living(erased, r) - 1
    ensures x >= r ==> Living(erased[x := true], r) == Living(erased, r)
  {
    if r > 0 { LivingMark(erased, x, r - 1); }
  }

  lemma {:induction false} LivingAll(erased: seq<bool>, r: nat)
    requires r <= |erased| && forall x | 0 <= x < r :: !erased[x]
    ensures Living(erased, r) == r
  {
    if r > 0 { LivingAll(erased, r - 1); }
  }

  lemma {:induction false} LivingMonotone(erased: seq<bool>, r: nat, s: nat)
    requires r <= s <= |erased|
    ensures Living(erased, r) <= Living(erased, s)
  {
    if r < s { LivingMonotone(erased, r, s - 1); }
  }

  // Filling matrices row by row.

  lemma {:induction false} RowBounds(k: nat, i: nat, n: nat)
    requires i < n
    ensures k * i + k <= k * n
  {
    if i + 1 < n {
      RowBounds(k, i, n - 1);
      assert k * n == k * (n - 1) + k;
    } else {
      assert k * n == k * i + k;
    }
  }

  lemma {:induction false} AtUpdate(a: seq<Byte>, k: nat, i: nat, j: nat, v: Byte)
    requires k * i + j < |a|
    ensures At(a[k * i + j := v], k, i, j) == v
    ensures forall c: nat | c != j :: At(a[k * i + j := v], k, i, c) == At(a, k, i, c)
  {}

  /** a and b agree on row i. */
  ghost predicate SameRow(a: seq<Byte>, b: seq<Byte>, k: nat, i: nat, r: nat) {
    forall j: nat | j < k :: At(a, k, i, j) == At(b, k, r, j)
  }

  lemma {:induction false} RowKept(a: seq<Byte>, b: seq<Byte>, k: nat, i: nat, n: nat)
    requires i < n && k * n <= |a| == |b|
    requires forall q | 0 <= q < k * n :: a[q] == b[q]
    ensures SameRow(a, b, k, i, i)
  {
    RowBounds(k, i, n);
  }

  method CopyRow(dst: array<Byte>, i: nat, src: seq<Byte>, r: nat, k: nat)
    requires k * i + k <= dst.Length && k * r + k <= |src|
    modifies dst
    ensures SameRow(dst[..], src, k, i, r)
    ensures forall q | 0 <= q < k * i :: dst[q] == old(dst[q])
  {
    var j := 0;
    while j < k
      invariant j <= k
      invariant forall c: nat | c < j :: At(dst[..], k, i, c) == At(src, k, r, c)
      invariant forall q | 0 <= q < k * i :: dst[q] == old(dst[q])
    {
      AtUpdate(dst[..], k, i, j, src[k * r + j]);
      ghost var before := dst[..];
      dst[k * i + j] := src[k * r + j];
      assert dst[..] == before[k * i + j := src[k * r + j]];
      j := j + 1;
    }
  }

  lemma {:induction false} AtIs(a: seq<Byte>, k: nat, i: nat, j: nat)
    requires k * i + j < |a|
    ensures At(a, k, i, j) == a[k * i + j] && k * i == i * k
  {}

  /** Entry j of the recipe for parity fragment r. */
  method ParityCoefficient(e: seq<Byte>, inverse: seq<Byte>, r: nat, k: nat, j: nat) returns (s: Byte)
    requires k <= r && k * r + k <= |e| && |inverse| >= k * k && j < k
    ensures s == RebuildCoefficient(e, inverse, k, r, j)
  {
    s := ZERO;
    var n := 0;
    while n < k
      invariant n <= k && s == Sum((q: nat) => Times(At(inverse, k, q, j), At(e, k, r, q)), n)
    {
      RowBounds(k, n, k);
      AtIs(inverse, k, n, j);
      AtIs(e, k, r, n);
      s := Plus(s, Times(inverse[n * k + j], e[k * r + n]));
      n := n + 1;
    }
  }

  /** Fills row i of dst with the recipe for parity fragment r. */
  method ParityRow(dst: array<Byte>, i: nat, e: seq<Byte>, inverse: seq<Byte>, r: nat, k: nat)
    requires k * i + k <= dst.Length && k <= r && k * r + k <= |e| && |inverse| >= k * k
    modifies dst
    ensures RebuildRow(dst[..], e, inverse, k, i, r)
    ensures forall q | 0 <= q < k * i :: dst[q] == old(dst[q])
  {
    var j := 0;
    while j < k
      invariant j <= k
      invariant forall c: nat | c < j :: At(dst[..], k, i, c) == RebuildCoefficient(e, inverse, k, r, c)
      invariant forall q | 0 <= q < k * i :: dst[q] == old(dst[q])
    {
      var s := ParityCoefficient(e, inverse, r, k, j);
      AtUpdate(dst[..], k, i, j, s);
      ghost var before := dst[..];
      dst[k * i + j] := s;
      assert dst[..] == before[k * i + j := s];
      j := j + 1;
    }
  }

  // Selecting survivors.

  /** chosen lists the first |chosen| fragments below m that are not erased. */
  ghost predicate Survivors(chosen: seq<nat>, erased: seq<bool>, m: nat) {
    && m <= |erased| && Increasing(chosen, m)
    && (forall i | 0 <= i < |chosen| :: !erased[chosen[i]] && Living(erased, chosen[i]) == i)
  }

  ghost predicate Selected(b: seq<Byte>, e: seq<Byte>, k: nat, chosen: seq<nat>) {
    forall i | 0 <= i < |chosen| :: SameRow(b, e, k, i, chosen[i])
  }

  lemma {:induction false} SelectedNext(a: seq<Byte>, b: seq<Byte>, e: seq<Byte>, k: nat, chosen: seq<nat>, r: nat)
    requires Selected(a, e, k, chosen) && SameRow(b, e, k, |chosen|, r)
    requires k * |chosen| <= |a| == |b| && forall q | 0 <= q < k * |chosen| :: a[q] == b[q]
    ensures Selected(b, e, k, chosen + [r])
  {
    forall i | 0 <= i < |chosen| ensures SameRow(b, e, k, i, chosen[i]) {
      RowKept(a, b, k, i, |chosen|);
    }
  }

  method TakeRow(e: seq<Byte>, b: array<Byte>, decodeIndex: array<nat>, ghost erased: seq<bool>, k: nat, m: nat, i: nat, r: nat,
                 ghost from: nat)
    requires m <= |erased| && |e| == m * k && b.Length >= k * k && decodeIndex.Length >= k && i < k && from <= r < m
    requires !erased[r] && Living(erased, r) == i
    requires Survivors(decodeIndex[..i], erased, from) && Selected(b[..], e, k, decodeIndex[..i])
    modifies b, decodeIndex
    ensures Living(erased, r + 1) == i + 1
    ensures Survivors(decodeIndex[..i + 1], erased, r + 1) && Selected(b[..], e, k, decodeIndex[..i + 1])
    ensures forall n | k <= n < decodeIndex.Length :: decodeIndex[n] == old(decodeIndex[n])
  {
    RowBounds(k, i, k);
    RowBounds(k, r, m);
    ghost var before, chosen := b[..], decodeIndex[..i];
    CopyRow(b, i, e, r, k);
    SelectedNext(before, b[..], e, k, chosen, r);
    decodeIndex[i] := r;
    SurvivorsNext(chosen, erased, from, r);
    assert decodeIndex[..i + 1] == chosen + [r];
  }

  lemma {:induction false} SurvivorsNext(chosen: seq<nat>, erased: seq<bool>, from: nat, r: nat)
    requires Survivors(chosen, erased, from) && from <= r < |erased| && !erased[r] && Living(erased, r) == |chosen|
    ensures Survivors(chosen + [r], erased, r + 1)
  {
    var all := chosen + [r];
    forall i, j | 0 <= i < j < |all| ensures all[i] < all[j] { assert all[i] == chosen[i] < from; }
    forall i | 0 <= i < |all| ensures all[i] < r + 1 && !erased[all[i]] && Living(erased, all[i]) == i {
      if i < |chosen| { assert all[i] == chosen[i]; }
    }
  }

  method SelectSurvivors(e: seq<Byte>, b: array<Byte>, decodeIndex: array<nat>, erased: seq<bool>, k: nat, m: nat)
    returns (rc: int)
    requires m <= |erased| && |e| == m * k && b.Length >= k * k && decodeIndex.Length >= k
    modifies b, decodeIndex
    ensures rc == if Living(erased, m) < k then EINVAL else 0
    ensures rc == 0 ==> Survivors(decodeIndex[..k], erased, m)
    ensures rc == 0 ==> Selected(b[..], e, k, decodeIndex[..k])
    ensures forall i | k <= i < decodeIndex.Length :: decodeIndex[i] == old(decodeIndex[i])
  {
    var i, r := 0, 0;
    while i < k
      invariant i <= k && r <= m
      invariant Living(erased, r) == i
      invariant Survivors(decodeIndex[..i], erased, r)
      invariant Selected(b[..], e, k, decodeIndex[..i])
      invariant forall n | k <= n < decodeIndex.Length :: decodeIndex[n] == old(decodeIndex[n])
    {
      ghost var from := r;
      while r < m && erased[r]
        invariant from <= r <= m && Living(erased, r) == i
      {
        r := r + 1;
      }
      if r >= m { return EINVAL; }
      TakeRow(e, b, decodeIndex, erased, k, m, i, r, from);
      i, r := i + 1, r + 1;
    }
    LivingMonotone(erased, r, m);
    rc := 0;
  }

  // Building the decode matrix.

  /** Whether row i of d turns the chosen survivors of any stripe into its fragment r. */
  ghost function Rebuilder(d: seq<Byte>, e: seq<Byte>, k: nat, chosen: seq<nat>): (nat, nat) -> bool {
    (i: nat, r: nat) => forall data: nat -> Byte :: RowTimes(d, k, i, Survivor(e, k, chosen, data)) == Fragment(e, k, r, data)
  }

  ghost predicate Rebuilds(d: seq<Byte>, e: seq<Byte>, k: nat, chosen: seq<nat>, i: nat, r: nat) {
    Rebuilder(d, e, k, chosen)(i, r)
  }

  ghost predicate RebuildsAll(d: seq<Byte>, e: seq<Byte>, k: nat, chosen: seq<nat>, lost: seq<nat>) {
    AllInPlace(Rebuilder(d, e, k, chosen), lost, |lost|)
  }

  /** What holds of the first n places of a list and what stands there. */
  ghost predicate AllInPlace(good: (nat, nat) -> bool, list: seq<nat>, n: nat)
    requires n <= |list|
  {
    n == 0 || (AllInPlace(good, list, n - 1) && good(n - 1, list[n - 1]))
  }

  lemma {:induction false} AllInPlaceIs(good: (nat, nat) -> bool, list: seq<nat>, n: nat)
    requires n <= |list|
    ensures AllInPlace(good, list, n) <==> forall i: nat | i < n :: good(i, list[i])
  {
    if n > 0 { AllInPlaceIs(good, list, n - 1); }
  }

  lemma {:induction false} RebuildsData(d: seq<Byte>, e: seq<Byte>, k: nat, chosen: seq<nat>, i: nat, r: nat, data: nat -> Byte)
    requires Rebuilder(d, e, k, chosen)(i, r)
    ensures RowTimes(d, k, i, Survivor(e, k, chosen, data)) == Fragment(e, k, r, data)
  {}

  /** The surviving fragment in slot n. */
  function Survivor(e: seq<Byte>, k: nat, chosen: seq<nat>, data: nat -> Byte): nat -> Byte {
    (n: nat) => Fragment(e, k, RowAt(chosen, n), data)
  }

  lemma {:induction false} RowRebuildsFragment(d: seq<Byte>, e: seq<Byte>, b: seq<Byte>, inverse: seq<Byte>, k: nat,
                                               chosen: seq<nat>, i: nat, r: nat)
    requires TopIdentity(e, k) && RowsOf(b, e, k, chosen) && LeftInverse(inverse, b, k)
    requires RebuildRow(d, e, inverse, k, i, r)
    ensures Rebuilds(d, e, k, chosen, i, r)
  {
    forall data: nat -> Byte
      ensures RowTimes(d, k, i, Survivor(e, k, chosen, data)) == Fragment(e, k, r, data)
    {
      RowRebuilds(d, e, b, inverse, k, chosen, i, r, data);
      RowTimesEqual(d, d, k, i, i, Survivor(e, k, chosen, data), (n: nat) => Fragment(e, k, RowAt(chosen, n), data));
    }
  }

  ghost predicate RecipeRow(d: seq<Byte>, e: seq<Byte>, inverse: seq<Byte>, k: nat, i: nat, lost: seq<nat>) {
    i < |lost| && RebuildRow(d, e, inverse, k, i, lost[i])
  }

  /** Fills row i of decode with the recipe for lost[i]. */
  method FillDecodeMatrix(decode: array<Byte>, e: seq<Byte>, inverse: seq<Byte>, lost: seq<nat>, k: nat, m: nat)
    requires decode.Length >= k * |lost| && |inverse| >= k * k && |e| == m * k
    requires forall i | 0 <= i < |lost| :: lost[i] < m
    modifies decode
    ensures forall i: nat | i < |lost| :: RecipeRow(decode[..], e, inverse, k, i, lost)
  {
    var i := 0;
    while i < |lost|
      invariant i <= |lost|
      invariant forall n: nat | n < i :: RecipeRow(decode[..], e, inverse, k, n, lost)
    {
      RowBounds(k, i, |lost|);
      RowBounds(k, lost[i], m);
      ghost var before := decode[..];
      if lost[i] < k {
        RowBounds(k, lost[i], k);
        CopyRow(decode, i, inverse, lost[i], k);
      } else {
        ParityRow(decode, i, e, inverse, lost[i], k);
      }
      forall n: nat | n < i ensures RecipeRow(decode[..], e, inverse, k, n, lost) {
        assert RecipeRow(before, e, inverse, k, n, lost);
        RowKept(before, decode[..], k, n, i);
      }
      i := i + 1;
    }
  }

  /** Which of the M_MAX fragments are lost. */
  function Marks(lost: seq<nat>): (marks: seq<bool>)
    ensures |marks| == M_MAX
  {
    seq(M_MAX, r => r in lost)
  }

  lemma {:induction false} LivingMarks(lost: seq<nat>, m: nat)
    requires m <= M_MAX && forall i | 0 <= i < |lost| :: lost[i] < m
    ensures Living(Marks(lost), m) >= m - |lost|
  {
    if lost == [] {
      LivingAll(Marks(lost), m);
    } else {
      var x, rest := lost[0], lost[1..];
      LivingMarks(rest, m);
      assert Marks(lost) == Marks(rest)[x := true];
      LivingMark(Marks(rest), x, m);
    }
  }

  lemma {:induction false} SelectedRows(b: seq<Byte>, e: seq<Byte>, k: nat, chosen: seq<nat>)
    requires Selected(b, e, k, chosen) && |chosen| == k && k * k <= |b|
    ensures RowsOf(b[..k * k], e, k, chosen)
  {
    forall i: nat, j: nat | i < k && j < k ensures At(b[..k * k], k, i, j) == At(e, k, RowAt(chosen, i), j) {
      assert SameRow(b, e, k, i, chosen[i]);
      RowBounds(k, i, k);
    }
  }

  method MarkErased(lost: seq<nat>) returns (inErr: array<bool>)
    requires forall i | 0 <= i < |lost| :: lost[i] < M_MAX
    ensures fresh(inErr) && inErr[..] == Marks(lost)
  {
    inErr := new bool[M_MAX](_ => false);
    var i := 0;
    while i < |lost|
      invariant i <= |lost| && inErr[..] == Marks(lost[..i])
    {
      inErr[lost[i]] := true;
      assert inErr[..] == Marks(lost[..i + 1]);
      i := i + 1;
    }
    assert lost[..i] == lost;
  }

  /** Builds the decode matrix, and lists in decodeIndex the fragments it applies to. With at
      most m - k fragments lost this does not fail. */
  method GenDecodeMatrix(lib: Library, e: seq<Byte>, decode: array<Byte>, temp: array<Byte>,
                         decodeIndex: array<nat>, lost: seq<nat>, k: nat, m: nat) returns (rc: int)
    requires Sound(lib) && 0 < k <= m <= M_MAX && e == Encoding(lib, m, k)
    requires forall i | 0 <= i < |lost| :: lost[i] < m
    requires decode != temp && decode.Length >= k * |lost| && temp.Length >= k * k && decodeIndex.Length >= k
    modifies decode, temp, decodeIndex
    ensures rc == if Living(Marks(lost), m) < k then EINVAL else 0
    ensures rc == 0 ==> Survivors(decodeIndex[..k], Marks(lost), m)
    ensures rc == 0 ==> RebuildsAll(decode[..], e, k, decodeIndex[..k], lost)
    ensures forall i | k <= i < decodeIndex.Length :: decodeIndex[i] == old(decodeIndex[i])
  {
    assert Generates(lib, m, k);
    var inErr := MarkErased(lost);
    rc := SelectSurvivors(e, temp, decodeIndex, inErr[..], k, m);
    if rc != 0 { return; }
    ghost var chosen := decodeIndex[..k];
    SelectedRows(temp[..], e, k, chosen);
    assert temp[..][..k * k] == temp[..k * k];
    SelectionInverts(lib, k, m, temp[..k * k], chosen);
    var result := lib.invert(temp[..k * k], k);
    if result.None? { return EINVAL; }
    assert Inverts(result, temp[..k * k], k);
    FillDecodeMatrix(decode, e, result.value, lost, k, m);
    forall i: nat | i < |lost| ensures Rebuilds(decode[..], e, k, chosen, i, lost[i]) {
      assert RecipeRow(decode[..], e, result.value, k, i, lost);
      RowRebuildsFragment(decode[..], e, temp[..k * k], result.value, k, chosen, i, lost[i]);
    }
    AllInPlaceIs(Rebuilder(decode[..], e, k, chosen), lost, |lost|);
  }
}

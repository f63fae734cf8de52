/** The words of a bitmap as a value: one bit, the bits in use, two bitmaps side by side, and runs. */
module BitWords {
  import opened Common
  import opened BitRuns
  import Words

  /** The value of one bit; the words hold 64 each. */
  predicate Bit(words: seq<Field>, i: nat) { i / FIELD < |words| && words[i / FIELD][i % FIELD] }

  function SetBit(words: seq<Field>, i: nat, bit: bool): (m: seq<Field>)
    requires i / FIELD < |words|
    ensures |m| == |words|
  { words[i / FIELD := words[i / FIELD][i % FIELD := bit]] }

  lemma {:induction false} SetBitIs(words: seq<Field>, i: nat, bit: bool, j: nat)
    requires i / FIELD < |words|
    ensures Bit(SetBit(words, i, bit), j) == if j == i then bit else Bit(words, j)
  {}

  lemma {:induction false} IndexIs(w: nat, b: nat)
    requires b < FIELD
    ensures (w * FIELD + b) / FIELD == w && (w * FIELD + b) % FIELD == b
  {}

  lemma {:induction false} SplitIndex(i: nat)
    ensures i / FIELD * FIELD + i % FIELD == i
  {}

  /** The words needed for n bits. */
  function WordsFor(n: nat): nat { n / FIELD + if n % FIELD != 0 then 1 else 0 }

  /** The bits from maxIdx on are clear. */
  ghost predicate TailClear(words: seq<Field>, nwords: nat, maxIdx: nat) {
    |words| == nwords && maxIdx <= nwords * FIELD && forall i: nat | maxIdx <= i < nwords * FIELD :: !Bit(words, i)
  }

  /** Every bit below maxIdx is in use. */
  ghost predicate Full(words: seq<Field>, maxIdx: nat) { forall i: nat | i < maxIdx :: Bit(words, i) }

  // Counting.

  function Ones(s: seq<bool>): nat { if s == [] then 0 else Ones(s[..|s| - 1]) + One(s[|s| - 1]) }

  function InUse(words: seq<Field>): nat
    decreases |words|
  { if words == [] then 0 else InUse(words[..|words| - 1]) + Ones(words[|words| - 1]) }

  ghost function UsedBelow(words: seq<Field>, n: nat): set<nat> { set i: nat | i < n && Bit(words, i) }

  /** The used indices of the first words and of a part of the next are counted by the words. */
  lemma {:induction false} UsedInWord(words: seq<Field>, w: nat, b: nat)
    requires w < |words| && b <= FIELD
    ensures |UsedBelow(words, w * FIELD + b)| == |UsedBelow(words, w * FIELD)| + Ones(words[w][..b])
  {
    if b > 0 {
      UsedInWord(words, w, b - 1);
      IndexIs(w, b - 1);
      var i := w * FIELD + (b - 1);
      assert words[w][..b][..b - 1] == words[w][..b - 1];
      assert UsedBelow(words, i + 1) == UsedBelow(words, i) + if Bit(words, i) then {i} else {};
    } else {
      assert words[w][..0] == [];
    }
  }

  lemma {:induction false} UsedInWords(words: seq<Field>, w: nat)
    requires w <= |words|
    ensures |UsedBelow(words, w * FIELD)| == InUse(words[..w])
  {
    if w > 0 {
      UsedInWords(words, w - 1);
      UsedInWord(words, w - 1, FIELD);
      assert words[..w][..w - 1] == words[..w - 1];
      assert words[w - 1][..FIELD] == words[w - 1];
    } else {
      assert UsedBelow(words, 0) == {};
    }
  }

  /** Counting the ones of the words up to the last one with an index counts the used indices. */
  lemma {:induction false} InUseCounts(words: seq<Field>, nwords: nat, maxIdx: nat)
    requires TailClear(words, nwords, maxIdx)
    ensures WordsFor(maxIdx) <= nwords
    ensures InUse(words[..WordsFor(maxIdx)]) == |UsedBelow(words, maxIdx)|
  {
    var w := WordsFor(maxIdx);
    UsedInWords(words, w);
    assert UsedBelow(words, w * FIELD) == UsedBelow(words, maxIdx);
  }

  // Two bitmaps.

  function Xor(a: Field, b: Field): Field { seq(FIELD, j requires 0 <= j < FIELD => a[j] != b[j]) }

  ghost predicate Apart(a: Field, b: Field) { forall j | 0 <= j < FIELD :: !(a[j] && b[j]) }

  ghost predicate Within(a: Field, b: Field) { forall j | 0 <= j < FIELD && a[j] :: b[j] }

  lemma {:induction false} ExclusiveWord(x: Field, y: Field)
    ensures And(Xor(x, y), y) == y <==> Apart(x, y)
  {
    if And(Xor(x, y), y) == y {
      forall j | 0 <= j < FIELD ensures !(x[j] && y[j]) { assert And(Xor(x, y), y)[j] == y[j]; }
    }
  }

  lemma {:induction false} SharedWord(super: Field, sub: Field)
    ensures And(super, sub) == sub <==> Within(sub, super)
  {
    if And(super, sub) == sub {
      forall j | 0 <= j < FIELD && sub[j] ensures super[j] { assert And(super, sub)[j] == sub[j]; }
    }
  }

  /** No index is in use in both. */
  ghost predicate Disjoint(a: seq<Field>, b: seq<Field>) { forall i: nat :: !(Bit(a, i) && Bit(b, i)) }

  /** Every index in use in a is in use in b. */
  ghost predicate Covered(a: seq<Field>, b: seq<Field>) { forall i: nat | Bit(a, i) :: Bit(b, i) }

  ghost predicate ApartAt(a: seq<Field>, b: seq<Field>, w: nat) { w < |a| && w < |b| && Apart(a[w], b[w]) }

  ghost predicate WithinAt(a: seq<Field>, b: seq<Field>, w: nat) { w < |a| && w < |b| && Within(a[w], b[w]) }

  lemma {:induction false} DisjointByWord(a: seq<Field>, b: seq<Field>)
    requires |a| == |b|
    ensures Disjoint(a, b) <==> forall w: nat | w < |a| :: ApartAt(a, b, w)
  {
    if Disjoint(a, b) {
      forall w: nat | w < |a| ensures ApartAt(a, b, w) {
        forall j | 0 <= j < FIELD ensures !(a[w][j] && b[w][j]) {
          IndexIs(w, j);
          assert !(Bit(a, w * FIELD + j) && Bit(b, w * FIELD + j));
        }
      }
    }
    if forall w: nat | w < |a| :: ApartAt(a, b, w) {
      forall i: nat ensures !(Bit(a, i) && Bit(b, i)) { assert i / FIELD < |a| ==> ApartAt(a, b, i / FIELD); }
    }
  }

  lemma {:induction false} CoveredByWord(a: seq<Field>, b: seq<Field>)
    requires |a| == |b|
    ensures Covered(a, b) <==> forall w: nat | w < |a| :: WithinAt(a, b, w)
  {
    if Covered(a, b) {
      forall w: nat | w < |a| ensures WithinAt(a, b, w) {
        forall j | 0 <= j < FIELD && a[w][j] ensures b[w][j] {
          IndexIs(w, j);
          assert Bit(a, w * FIELD + j);
        }
      }
    }
    if forall w: nat | w < |a| :: WithinAt(a, b, w) {
      forall i: nat | Bit(a, i) ensures Bit(b, i) { assert WithinAt(a, b, i / FIELD); }
    }
  }

  function Merged(a: seq<Field>, b: seq<Field>): seq<Field>
    requires |a| == |b|
  { seq(|a|, w requires 0 <= w < |a| => Or(a[w], b[w])) }

  function Without(a: seq<Field>, b: seq<Field>): seq<Field>
    requires |a| == |b|
  { seq(|a|, w requires 0 <= w < |a| => And(a[w], Not(b[w]))) }

  /** Merging is union and taking out is difference, so taking out what was merged in restores the map. */
  lemma {:induction false} MergeUndone(a: seq<Field>, b: seq<Field>)
    requires |a| == |b|
    ensures forall i: nat :: Bit(Merged(a, b), i) == (Bit(a, i) || Bit(b, i))
    ensures forall i: nat :: Bit(Without(a, b), i) == (Bit(a, i) && !Bit(b, i))
    ensures Disjoint(a, b) ==> Covered(b, Merged(a, b)) && Without(Merged(a, b), b) == a
  {
    if Disjoint(a, b) {
      DisjointByWord(a, b);
      forall w: nat | w < |a| ensures Without(Merged(a, b), b)[w] == a[w] {
        assert ApartAt(a, b, w);
        TakenOut(a[w], b[w]);
      }
    }
  }

  lemma {:induction false} TakenOut(x: Field, y: Field)
    requires Apart(x, y)
    ensures And(Or(x, y), Not(y)) == x
  {}

  lemma {:induction false} OnesAdd(x: seq<bool>, y: seq<bool>, z: seq<bool>)
    requires |x| == |y| == |z| && forall j | 0 <= j < |x| :: z[j] == (x[j] || y[j]) && !(x[j] && y[j])
    ensures Ones(z) == Ones(x) + Ones(y)
    decreases |x|
  {
    if x != [] {
      var n := |x| - 1;
      OnesAdd(x[..n], y[..n], z[..n]);
    }
  }

  /** Merging disjoint bitmaps adds what is in use. */
  lemma {:induction false} MergeAdds(a: seq<Field>, b: seq<Field>, n: nat)
    requires |a| == |b| && n <= |a| && Disjoint(a, b)
    ensures InUse(Merged(a, b)[..n]) == InUse(a[..n]) + InUse(b[..n])
  {
    if n > 0 {
      MergeAdds(a, b, n - 1);
      DisjointByWord(a, b);
      assert ApartAt(a, b, n - 1);
      OnesAdd(a[n - 1], b[n - 1], Merged(a, b)[n - 1]);
      assert a[..n][..n - 1] == a[..n - 1] && b[..n][..n - 1] == b[..n - 1];
      assert Merged(a, b)[..n][..n - 1] == Merged(a, b)[..n - 1];
    }
  }

  // Runs.

  datatype Run = Run(idx: nat, len: nat)

  predicate InRun(r: Run, i: int) { r.idx <= i < r.idx + r.len }

  /** A run of set bits that cannot be made longer. */
  ghost predicate MaximalRun(s: seq<bool>, r: Run) {
    && 0 < r.len && r.idx + r.len <= |s|
    && (forall i | 0 <= i < |s| && InRun(r, i) :: s[i])
    && (r.idx > 0 ==> !s[r.idx - 1])
    && (r.idx + r.len < |s| ==> !s[r.idx + r.len])
  }

  ghost predicate InOrder(runs: seq<Run>) {
    forall j, k | 0 <= j < k < |runs| :: runs[j].idx + runs[j].len < runs[k].idx
  }

  /** These are the maximal runs of set bits, each once, in order. */
  ghost predicate RunsOf(s: seq<bool>, runs: seq<Run>) {
    && InOrder(runs)
    && (forall k | 0 <= k < |runs| :: MaximalRun(s, runs[k]))
    && (forall i: nat | i < |s| && s[i] :: exists k :: 0 <= k < |runs| && InRun(runs[k], i))
  }

  /** Every maximal run is reported. */
  lemma {:induction false} EveryRunReported(s: seq<bool>, runs: seq<Run>, r: Run)
    requires RunsOf(s, runs) && MaximalRun(s, r)
    ensures r in runs
  {
    assert InRun(r, r.idx);
    var k :| 0 <= k < |runs| && InRun(runs[k], r.idx);
    var q := runs[k];
    assert MaximalRun(s, q);
    assert !InRun(q, r.idx - 1) && !InRun(q, r.idx + r.len);
    assert !InRun(r, q.idx - 1) && !InRun(r, q.idx + q.len);
    assert q == r;
  }

  /** Only one sequence reports them, so the order is fixed too. */
  lemma {:induction false} RunsUnique(s: seq<bool>, a: seq<Run>, b: seq<Run>)
    requires RunsOf(s, a) && RunsOf(s, b)
    ensures a == b
  {
    SameFirst(s, a, b, |a|);
    SameFirst(s, b, a, |b|);
  }

  lemma {:induction false} SameFirst(s: seq<bool>, a: seq<Run>, b: seq<Run>, k: nat)
    requires RunsOf(s, a) && RunsOf(s, b) && k <= |a|
    ensures k <= |b| && a[..k] == b[..k]
    decreases k
  {
    if k > 0 {
      SameFirst(s, a, b, k - 1);
      SameNext(s, a, b, k - 1);
      assert a[..k] == a[..k - 1] + [a[k - 1]] && b[..k] == b[..k - 1] + [b[k - 1]];
    }
  }

  lemma {:induction false} SameNext(s: seq<bool>, a: seq<Run>, b: seq<Run>, k: nat)
    requires RunsOf(s, a) && RunsOf(s, b) && k < |a| && k <= |b| && a[..k] == b[..k]
    ensures k < |b| && a[k] == b[k]
  {
    EveryRunReported(s, b, a[k]);
    var m :| 0 <= m < |b| && b[m] == a[k];
    FarEnough(a, b, k, m);
    EveryRunReported(s, a, b[k]);
    var n :| 0 <= n < |a| && a[n] == b[k];
    FarEnough(b, a, k, n);
  }

  lemma {:induction false} FarEnough(a: seq<Run>, b: seq<Run>, k: nat, m: nat)
    requires InOrder(a) && InOrder(b) && k < |a| && k <= |b| && a[..k] == b[..k] && m < |b| && b[m] == a[k]
    ensures k <= m
  {
    forall j: nat | j < k ensures b[j].idx < a[k].idx { assert a[..k][j] == b[..k][j]; }
  }
}

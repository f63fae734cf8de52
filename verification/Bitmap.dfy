/** A bitmap of many words with an allocation hint, where a set bit is in use. */
module Bitmap {
  import opened Common
  import opened BitRuns
  import opened BitWords
  import Words

  class Bitmap {
    const nwords: nat
    const maxIdx: nat
    var words: seq<Field>
    var hint: nat

    ghost predicate Valid()
      reads this
    {
      TailClear(words, nwords, maxIdx)
    }

    function MaxWord(): nat { WordsFor(maxIdx) }

    constructor (nwords: nat, maxIdx: nat)
      requires maxIdx <= nwords * FIELD
      ensures Valid() && this.nwords == nwords && this.maxIdx == maxIdx && forall i: nat :: !Bit(words, i)
    {
      this.nwords, this.maxIdx := nwords, maxIdx;
      words, hint := seq(nwords, _ => Mask(0, 0)), 0;
    }

    method SetUnset(i: nat, bit: bool) returns (rc: int)
      requires Valid()
      modifies this`words
      ensures Valid()
      ensures rc == if i >= maxIdx then ERANGE else if old(Bit(words, i)) == bit then (if bit then EBUSY else EALREADY) else 0
      ensures words == if rc == 0 then SetBit(old(words), i, bit) else old(words)
    {
      if i >= maxIdx { return ERANGE; }
      if bit && Bit(words, i) { return EBUSY; }
      if !bit && !Bit(words, i) { return EALREADY; }
      OtherBits(words, nwords, maxIdx, i, bit);
      words := SetBit(words, i, bit);
      rc := 0;
    }

    /** The number of indices in use. */
    method CountInUse() returns (total: nat)
      requires Valid()
      ensures total == |UsedBelow(words, maxIdx)|
    {
      InUseCounts(words, nwords, maxIdx);
      total := 0;
      var i := 0;
      while i < MaxWord()
        invariant i <= MaxWord() && total == InUse(words[..i])
      {
        assert words[..i + 1][..i] == words[..i];
        total := total + Ones(words[i]);
        i := i + 1;
      }
    }

    /** Takes the lowest free bit of the first word that has one, from the hint on and around. It succeeds exactly
        when some bit below maxIdx is clear, whatever the hint, and changes that bit alone. */
    method LowestFreeAssign() returns (rc: int, idx: nat)
      requires Valid()
      modifies this
      ensures Valid()
      ensures rc == if Full(old(words), maxIdx) then ENOSPC else 0
      ensures rc == 0 ==> LowestFree(old(words), maxIdx, idx) && FirstWord(old(words), maxIdx, old(hint), idx / FIELD)
      ensures rc == 0 ==> words == SetBit(old(words), idx, true) && hint == idx / FIELD
      ensures rc != 0 ==> unchanged(this)
    {
      idx := 0;
      var nw := MaxWord();
      var start := Start(hint, nw);
      var i := 0;
      while i < nw
        invariant i <= nw && Valid() && unchanged(this)
        invariant FullFrom(words, maxIdx, start, i)
      {
        RoundIs(start, i, nw);
        var sii := (start + i) % nw;
        var found := TryWord(sii);
        if found.Some? {
          assert !old(Bit(words, found.value));
          FirstWordIs(old(words), maxIdx, old(hint), i);
          return 0, found.value;
        }
        i := i + 1;
      }
      AllWords(words, maxIdx, start);
      rc := ENOSPC;
    }

    /** Takes the lowest free bit of one word; the bits beyond maxIdx are set for the search and cleared again. */
    method TryWord(w: nat) returns (found: Option<nat>)
      requires Valid() && w < MaxWord()
      modifies this
      ensures Valid()
      ensures found.None? ==> unchanged(this) && FullWord(words, maxIdx, w)
      ensures found.Some? ==> LowestFree(old(words), maxIdx, found.value) && found.value / FIELD == w == hint
      ensures found.Some? ==> words == SetBit(old(words), found.value, true)
    {
      ghost var before, hinted := words, hint;
      var tail := TailMask(maxIdx, w);
      TailIs(words, nwords, maxIdx, w);
      words := words[w := Or(words[w], tail)];
      var free := LowestClear(words[w], 0);
      if free.Some? {
        hint := w;
        words := words[w := words[w][free.value := true]];
        words := words[w := And(words[w], Not(tail))];
        found := Some(w * FIELD + free.value);
        AssignedInWord(before, nwords, maxIdx, w, tail, free.value);
        assert words == SetBit(before, found.value, true);
      } else {
        words := words[w := And(words[w], Not(tail))];
        found := None;
        TailRestored(before[w], tail);
        NoneInWord(before, maxIdx, w, tail);
        assert words == before && hint == hinted;
      }
    }

    /** Gives back the lowest used bit. */
    method LowestUsedRelease() returns (rc: int, idx: nat)
      requires Valid()
      modifies this`words
      ensures Valid()
      ensures rc == if Empty(old(words)) then ENOENT else 0
      ensures rc == 0 ==> LowestUsed(old(words), idx) && words == SetBit(old(words), idx, false)
      ensures rc != 0 ==> words == old(words)
    {
      idx := 0;
      var i := 0;
      while i < nwords
        invariant i <= nwords && Valid() && words == old(words)
        invariant forall w: nat | w < i :: words[w] == Mask(0, 0)
      {
        NotZero(words[i]);
        if words[i] != Mask(0, 0) {
          var b := LowestSet(words[i], 0).value;
          LowestUsedIs(words, nwords, maxIdx, i, b);
          words := words[i := words[i][b := false]];
          return 0, i * FIELD + b;
        }
        i := i + 1;
      }
      rc := ENOENT;
    }

    /** Adds the bits of another bitmap, when none is in use here already. */
    method Merge(src: Bitmap) returns (rc: int)
      requires Valid() && src.Valid()
      modifies this`words
      ensures rc == if src.nwords != nwords then EINVAL else if Disjoint(old(words), old(src.words)) then 0 else EALREADY
      ensures rc == 0 ==> words == Merged(old(words), old(src.words))
      ensures rc == 0 && MaxWord() <= nwords ==>
                InUse(words[..MaxWord()]) == InUse(old(words)[..MaxWord()]) + InUse(old(src.words)[..MaxWord()])
      ensures rc != 0 ==> words == old(words)
      ensures src.maxIdx <= maxIdx ==> Valid()
    {
      rc := Exclusive(src);
      if rc == 0 {
        MergeUndone(words, src.words);
        var i := 0;
        while i < nwords
          invariant i <= nwords == |words| && (this != src ==> src.words == old(src.words))
          invariant forall w: nat | w < i :: words[w] == Or(old(words)[w], old(src.words)[w])
          invariant forall w: nat | i <= w < nwords :: words[w] == old(words)[w]
        {
          words := words[i := Or(words[i], src.words[i])];
          i := i + 1;
        }
        assert words == Merged(old(words), old(src.words));
        if MaxWord() <= nwords { MergeAdds(old(words), old(src.words), MaxWord()); }
      }
    }

    method Exclusive(y: Bitmap) returns (rc: int)
      requires Valid() && y.Valid()
      ensures rc == if y.nwords != nwords then EINVAL else if Disjoint(words, y.words) then 0 else EALREADY
    {
      if y.nwords != nwords { return EINVAL; }
      DisjointByWord(words, y.words);
      var i := 0;
      while i < nwords
        invariant i <= nwords && forall w: nat | w < i :: ApartAt(words, y.words, w)
      {
        ExclusiveWord(words[i], y.words[i]);
        assert ApartAt(words, y.words, i) <==> Apart(words[i], y.words[i]);
        if And(Xor(words[i], y.words[i]), y.words[i]) != y.words[i] { return EALREADY; }
        i := i + 1;
      }
      rc := 0;
    }

    method Shared(sub: Bitmap) returns (rc: int)
      requires Valid() && sub.Valid()
      ensures rc == if sub.nwords != nwords then EINVAL else if Covered(sub.words, words) then 0 else ENOENT
    {
      if sub.nwords != nwords { return EINVAL; }
      CoveredByWord(sub.words, words);
      var i := 0;
      while i < nwords
        invariant i <= nwords && forall w: nat | w < i :: WithinAt(sub.words, words, w)
      {
        SharedWord(words[i], sub.words[i]);
        assert WithinAt(sub.words, words, i) <==> Within(sub.words[i], words[i]);
        if And(words[i], sub.words[i]) != sub.words[i] { return ENOENT; }
        i := i + 1;
      }
      rc := 0;
    }

    /** Takes out the bits of another bitmap, when all are in use here. */
    method BulkUnset(src: Bitmap) returns (rc: int)
      requires Valid() && src.Valid()
      modifies this`words
      ensures Valid()
      ensures rc == if src.nwords != nwords then EINVAL else if Covered(old(src.words), old(words)) then 0 else ENOENT
      ensures rc == 0 ==> words == Without(old(words), old(src.words))
      ensures rc != 0 ==> words == old(words)
    {
      rc := Shared(src);
      if rc == 0 {
        MergeUndone(words, src.words);
        var i := 0;
        while i < nwords
          invariant i <= nwords == |words| && (this != src ==> src.words == old(src.words))
          invariant forall w: nat | w < i :: words[w] == And(old(words)[w], Not(old(src.words)[w]))
          invariant forall w: nat | i <= w < nwords :: words[w] == old(words)[w]
        {
          words := words[i := And(words[i], Not(src.words[i]))];
          i := i + 1;
        }
        assert words == Without(old(words), old(src.words));
      }
    }

    ghost function View(): (s: seq<bool>)
      reads this
    {
      var w := words;
      seq(maxIdx, i requires 0 <= i < maxIdx => Bit(w, i))
    }

    /** Reports each maximal run of set bits once, in order; the runs are those handed to the callback. */
    method Iterate() returns (runs: seq<Run>)
      requires Valid()
      ensures RunsOf(View(), runs)
    {
      runs := [];
      var idx: int := -1;
      var len := 0;
      var i := 0;
      while i < maxIdx
        invariant i <= maxIdx && idx < i && Scanned(View(), runs, idx, len, i)
      {
        ScanStep(View(), runs, idx, len, i);
        if Bit(words, i) {
          if idx < 0 { idx, len := i, 1; } else { len := len + 1; }
        } else if idx >= 0 {
          runs := runs + [Run(idx, len)];
          idx := -1;
        }
        i := i + 1;
      }
      if idx >= 0 {
        CloseRun(View(), runs, idx, len, i);
        runs := runs + [Run(idx, len)];
      }
    }
  }

  // Finding a free bit.

  /** The position of the lowest clear bit of a word. */
  function LowestClear(f: Field, from: nat): (r: Option<nat>)
    requires from <= FIELD
    ensures r.Some? ==> from <= r.value < FIELD && !f[r.value] && forall j | from <= j < r.value :: f[j]
    ensures r.None? ==> forall j | from <= j < FIELD :: f[j]
    decreases FIELD - from
  { if from == FIELD then None else if !f[from] then Some(from) else LowestClear(f, from + 1) }

  /** The lowest free index of its word. */
  ghost predicate LowestFree(words: seq<Field>, maxIdx: nat, idx: nat) {
    && idx < maxIdx && idx / FIELD < |words| && !Bit(words, idx)
    && forall b: nat | b < idx % FIELD :: words[idx / FIELD][b]
  }

  function Start(hint: nat, nw: nat): nat { if nw > hint then hint else 0 }

  /** The n-th word from start on, going round. */
  function Round(start: nat, n: nat, nw: nat): nat
    requires start < nw && n < nw
  { if start + n < nw then start + n else start + n - nw }

  lemma {:induction false} RoundIs(start: nat, n: nat, nw: nat)
    requires start < nw && n < nw
    ensures (start + n) % nw == Round(start, n, nw) < nw
  {
    Words.QuotientIs(start + n, nw, if start + n < nw then 0 else 1, Round(start, n, nw));
  }

  /** Every bit of the word below maxIdx is set. */
  ghost predicate FullWord(words: seq<Field>, maxIdx: nat, w: nat) {
    w < |words| && forall b | 0 <= b < FIELD && w * FIELD + b < maxIdx :: words[w][b]
  }

  /** The first n words in the search order are full. */
  ghost predicate FullFrom(words: seq<Field>, maxIdx: nat, start: nat, n: nat) {
    forall m: nat | m < n && m < WordsFor(maxIdx) && start < WordsFor(maxIdx) ::
      FullWord(words, maxIdx, Round(start, m, WordsFor(maxIdx)))
  }

  /** Every word from one to another is full. */
  ghost predicate FullBetween(words: seq<Field>, maxIdx: nat, from: nat, end: nat) {
    forall v | from <= v < end :: FullWord(words, maxIdx, v)
  }

  /** No word before w has a free bit: from the hint on and around, or from 0 when the hint is no word. */
  ghost predicate FirstWord(words: seq<Field>, maxIdx: nat, hint: nat, w: nat) {
    if hint >= WordsFor(maxIdx) then FullBetween(words, maxIdx, 0, w)
    else if w >= hint then FullBetween(words, maxIdx, hint, w)
    else FullBetween(words, maxIdx, hint, WordsFor(maxIdx)) && FullBetween(words, maxIdx, 0, w)
  }

  lemma {:induction false} FirstWordIs(words: seq<Field>, maxIdx: nat, hint: nat, n: nat)
    requires n < WordsFor(maxIdx) && FullFrom(words, maxIdx, Start(hint, WordsFor(maxIdx)), n)
    ensures FirstWord(words, maxIdx, hint, Round(Start(hint, WordsFor(maxIdx)), n, WordsFor(maxIdx)))
  {
    var nw, start := WordsFor(maxIdx), Start(hint, WordsFor(maxIdx));
    var w := Round(start, n, nw);
    forall v: nat | v < nw && (if w >= start then start <= v < w else start <= v || v < w) ensures FullWord(words, maxIdx, v) {
      var m := if v >= start then v - start else v + nw - start;
      assert FullWord(words, maxIdx, Round(start, m, nw));
    }
  }

  /** Going round from any start, every word has been seen. */
  lemma {:induction false} AllWords(words: seq<Field>, maxIdx: nat, start: nat)
    requires WordsFor(maxIdx) > 0 ==> start < WordsFor(maxIdx)
    requires FullFrom(words, maxIdx, start, WordsFor(maxIdx))
    ensures Full(words, maxIdx)
  {
    forall i: nat | i < maxIdx ensures Bit(words, i) {
      var w, nw := i / FIELD, WordsFor(maxIdx);
      var n := if w >= start then w - start else w + nw - start;
      assert FullWord(words, maxIdx, Round(start, n, nw));
      SplitIndex(i);
    }
  }

  /** The bits of word w that have no index, in the last word only. */
  function TailMask(maxIdx: nat, w: nat): Field {
    if w == WordsFor(maxIdx) - 1 && maxIdx % FIELD != 0 then Mask(maxIdx % FIELD, FIELD - maxIdx % FIELD) else Mask(0, 0)
  }

  lemma {:induction false} TailIs(words: seq<Field>, nwords: nat, maxIdx: nat, w: nat)
    requires TailClear(words, nwords, maxIdx) && w < WordsFor(maxIdx)
    ensures w < nwords
    ensures forall b | 0 <= b < FIELD :: TailMask(maxIdx, w)[b] <==> w * FIELD + b >= maxIdx
    ensures Apart(words[w], TailMask(maxIdx, w))
  {
    forall b | 0 <= b < FIELD && w * FIELD + b >= maxIdx ensures !words[w][b] {
      IndexIs(w, b);
      assert !Bit(words, w * FIELD + b);
    }
  }

  lemma {:induction false} TailRestored(f: Field, tail: Field)
    requires Apart(f, tail)
    ensures And(Or(f, tail), Not(tail)) == f
  {}

  lemma {:induction false} TailRemoved(f: Field, tail: Field, b: nat)
    requires Apart(f, tail) && b < FIELD && !tail[b]
    ensures And(Or(f, tail)[b := true], Not(tail)) == f[b := true]
  {}

  lemma {:induction false} NoneInWord(words: seq<Field>, maxIdx: nat, w: nat, tail: Field)
    requires w < |words| && (forall j | 0 <= j < FIELD :: tail[j] <==> w * FIELD + j >= maxIdx)
    requires forall j | 0 <= j < FIELD :: Or(words[w], tail)[j]
    ensures FullWord(words, maxIdx, w)
  {
    forall j | 0 <= j < FIELD && w * FIELD + j < maxIdx ensures words[w][j] { assert Or(words[w], tail)[j]; }
  }

  lemma {:induction false} AssignedInWord(words: seq<Field>, nwords: nat, maxIdx: nat, w: nat, tail: Field, b: nat)
    requires TailClear(words, nwords, maxIdx) && w < WordsFor(maxIdx) && w < nwords && b < FIELD
    requires tail == TailMask(maxIdx, w) && Apart(words[w], tail)
    requires forall j | 0 <= j < FIELD :: tail[j] <==> w * FIELD + j >= maxIdx
    requires !Or(words[w], tail)[b] && forall j | 0 <= j < b :: Or(words[w], tail)[j]
    ensures words[w := And(Or(words[w], tail)[b := true], Not(tail))] == SetBit(words, w * FIELD + b, true)
    ensures LowestFree(words, maxIdx, w * FIELD + b) && (w * FIELD + b) / FIELD == w
    ensures TailClear(SetBit(words, w * FIELD + b, true), nwords, maxIdx)
  {
    IndexIs(w, b);
    assert !words[w][b] && !tail[b];
    TailRemoved(words[w], tail, b);
    forall j | 0 <= j < b ensures words[w][j] { assert Or(words[w], tail)[j] && !tail[j]; }
    OtherBits(words, nwords, maxIdx, w * FIELD + b, true);
  }

  lemma {:induction false} OtherBits(words: seq<Field>, nwords: nat, maxIdx: nat, i: nat, bit: bool)
    requires TailClear(words, nwords, maxIdx) && i < maxIdx
    ensures i / FIELD < nwords && TailClear(SetBit(words, i, bit), nwords, maxIdx)
  {
    forall j: nat | maxIdx <= j < nwords * FIELD ensures !Bit(SetBit(words, i, bit), j) { SetBitIs(words, i, bit, j); }
  }

  // Giving back a bit.

  function LowestSet(f: Field, from: nat): (r: Option<nat>)
    requires from <= FIELD
    ensures r.Some? ==> from <= r.value < FIELD && f[r.value] && forall j | from <= j < r.value :: !f[j]
    ensures r.None? ==> forall j | from <= j < FIELD :: !f[j]
    decreases FIELD - from
  { if from == FIELD then None else if f[from] then Some(from) else LowestSet(f, from + 1) }

  lemma {:induction false} NotZero(f: Field)
    ensures f != Mask(0, 0) <==> LowestSet(f, 0).Some?
  {
    if LowestSet(f, 0).Some? { assert f[LowestSet(f, 0).value] != Mask(0, 0)[LowestSet(f, 0).value]; }
  }

  lemma {:induction false} LowestUsedIs(words: seq<Field>, nwords: nat, maxIdx: nat, w: nat, b: nat)
    requires TailClear(words, nwords, maxIdx) && w < nwords && LowestSet(words[w], 0) == Some(b)
    requires forall v: nat | v < w :: words[v] == Mask(0, 0)
    ensures LowestUsed(words, w * FIELD + b)
    ensures words[w := words[w][b := false]] == SetBit(words, w * FIELD + b, false)
    ensures TailClear(SetBit(words, w * FIELD + b, false), nwords, maxIdx)
  {
    var i := w * FIELD + b;
    IndexIs(w, b);
    assert Bit(words, i);
    forall j: nat | j < i ensures !Bit(words, j) { SplitIndex(j); }
    OtherBits(words, nwords, maxIdx, i, false);
  }

  /** No bit below is in use. */
  ghost predicate LowestUsed(words: seq<Field>, idx: nat) {
    idx / FIELD < |words| && Bit(words, idx) && forall i: nat | i < idx :: !Bit(words, i)
  }

  ghost predicate Empty(words: seq<Field>) { forall i: nat :: !Bit(words, i) }

  // Scanning for runs.

  /** After i bits: the runs closed so far, and the open one when idx is not negative. */
  ghost predicate Scanned(s: seq<bool>, runs: seq<Run>, idx: int, len: nat, i: nat) {
    && i <= |s| && InOrder(runs)
    && (forall k | 0 <= k < |runs| :: MaximalRun(s, runs[k]) && runs[k].idx + runs[k].len < OpenAt(idx, i) + One(idx < 0))
    && (idx >= 0 ==> len > 0 && idx + len == i && (idx > 0 ==> !s[idx - 1]) && forall j | idx <= j < i :: s[j])
    && (idx < 0 && i > 0 && s[i - 1] ==> false)
    && forall j | 0 <= j < OpenAt(idx, i) && s[j] :: exists k :: 0 <= k < |runs| && InRun(runs[k], j)
  }

  /** Where the open run starts, or the end of what was scanned. */
  function OpenAt(idx: int, i: nat): nat { if idx >= 0 then idx else i }

  lemma {:induction false} ScanStep(s: seq<bool>, runs: seq<Run>, idx: int, len: nat, i: nat)
    requires Scanned(s, runs, idx, len, i) && i < |s| && idx < i
    ensures s[i] && idx < 0 ==> Scanned(s, runs, i, 1, i + 1)
    ensures s[i] && idx >= 0 ==> Scanned(s, runs, idx, len + 1, i + 1)
    ensures !s[i] && idx >= 0 ==> Scanned(s, runs + [Run(idx, len)], -1, len, i + 1)
    ensures !s[i] && idx < 0 ==> Scanned(s, runs, idx, len, i + 1)
  {
    if !s[i] && idx >= 0 { CloseRun(s, runs, idx, len, i); }
  }

  lemma {:induction false} CloseRun(s: seq<bool>, runs: seq<Run>, idx: nat, len: nat, i: nat)
    requires Scanned(s, runs, idx, len, i) && (i < |s| ==> !s[i])
    ensures i < |s| ==> Scanned(s, runs + [Run(idx, len)], -1, len, i + 1)
    ensures i == |s| ==> RunsOf(s, runs + [Run(idx, len)])
  {
    var all := runs + [Run(idx, len)];
    assert MaximalRun(s, Run(idx, len));
    forall j: nat | j < i && s[j] ensures exists k :: 0 <= k < |all| && InRun(all[k], j) {
      if j < idx {
        var k :| 0 <= k < |runs| && InRun(runs[k], j);
        assert InRun(all[k], j);
      } else {
        assert InRun(all[|runs|], j);
      }
    }
  }
}

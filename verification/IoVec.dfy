/** I/O vectors: what remains of one once bytes have been consumed, and advancing one in place. */
module IoVec {
  import opened Common

  /** A stretch of memory. */
  datatype Iov = Iov(base: int, len: nat)

  /** The addresses of the bytes of one vector entry, and of several in order. */
  function Bytes(v: Iov): seq<int> { seq(v.len, i => v.base + i) }

  function Flat(s: seq<Iov>): (f: seq<int>)
    ensures |f| == Total(s)
  { if s == [] then [] else Bytes(s[0]) + Flat(s[1..]) }

  function Total(s: seq<Iov>): nat { if s == [] then 0 else s[0].len + Total(s[1..]) }

  lemma {:induction false} FlatAppend(a: seq<Iov>, b: seq<Iov>)
    ensures Flat(a + b) == Flat(a) + Flat(b) && Total(a + b) == Total(a) + Total(b)
  {
    if a == [] {
      assert a + b == b;
    } else {
      assert (a + b)[1..] == a[1..] + b;
      FlatAppend(a[1..], b);
    }
  }

  // What is left after consumed bytes, and of that at most so many.

  function Skip(v: Iov, n: nat): Iov
    requires n <= v.len
  { Iov(v.base + n, v.len - n) }

  function Remaining(s: seq<Iov>, consumed: nat): seq<Iov> {
    if s == [] then []
    else if consumed < s[0].len then [Skip(s[0], consumed)] + Remaining(s[1..], 0)
    else Remaining(s[1..], consumed - s[0].len)
  }

  function Cut(s: seq<Iov>, max: nat): seq<Iov> {
    if s == [] then []
    else if s[0].len >= max then [Iov(s[0].base, max)]
    else [s[0]] + Cut(s[1..], max - s[0].len)
  }

  lemma {:induction false} RemainingFlat(s: seq<Iov>, consumed: nat)
    requires consumed <= Total(s)
    ensures Flat(Remaining(s, consumed)) == Flat(s)[consumed..]
  {
    if s != [] {
      if consumed < s[0].len {
        var first := [Skip(s[0], consumed)];
        RemainingFlat(s[1..], 0);
        assert Flat(s[1..])[0..] == Flat(s[1..]);
        FlatAppend(first, Remaining(s[1..], 0));
        assert first[1..] == [] && Flat(first) == Bytes(first[0]);
        assert Bytes(Skip(s[0], consumed)) == Bytes(s[0])[consumed..];
      } else {
        RemainingFlat(s[1..], consumed - s[0].len);
      }
    }
  }

  lemma {:induction false} RemainingTotal(s: seq<Iov>, consumed: nat)
    ensures Total(Remaining(s, consumed)) == if consumed <= Total(s) then Total(s) - consumed else 0
    ensures forall i | 0 <= i < |Remaining(s, consumed)| :: Remaining(s, consumed)[i].len > 0
    ensures |Remaining(s, consumed)| <= |s|
  {
    if s != [] {
      if consumed < s[0].len {
        RemainingTotal(s[1..], 0);
        FlatAppend([Skip(s[0], consumed)], Remaining(s[1..], 0));
      } else {
        RemainingTotal(s[1..], consumed - s[0].len);
      }
    }
  }

  lemma {:induction false} CutFlat(s: seq<Iov>, max: nat)
    requires 0 < max <= Total(s)
    ensures Flat(Cut(s, max)) == Flat(s)[..max]
  {
    if s[0].len >= max {
      var only := [Iov(s[0].base, max)];
      assert only[1..] == [] && Flat(only) == Bytes(only[0]);
      assert Bytes(only[0]) == Bytes(s[0])[..max];
    } else {
      CutFlat(s[1..], max - s[0].len);
      FlatAppend([s[0]], Cut(s[1..], max - s[0].len));
      assert [s[0]][1..] == [] && Flat([s[0]]) == Bytes(s[0]);
    }
  }

  lemma {:induction false} CutAppend(a: seq<Iov>, b: seq<Iov>, max: nat)
    requires Total(a) < max
    ensures Cut(a + b, max) == a + Cut(b, max - Total(a))
  {
    if a == [] {
      assert a + b == b;
    } else {
      assert (a + b)[1..] == a[1..] + b;
      CutAppend(a[1..], b, max - a[0].len);
    }
  }

  /** What a mapping should give: all that remains, or its first max bytes. */
  function Mapped(s: seq<Iov>, consumed: nat, max: int): seq<Iov> {
    if max > 0 then Cut(Remaining(s, consumed), max) else Remaining(s, consumed)
  }

  /** The bytes of a mapping: the consumed ones dropped, cut to max. */
  lemma {:induction false} MappedFlat(s: seq<Iov>, consumed: nat, max: int)
    requires consumed <= Total(s) && max <= Total(s) - consumed
    ensures Flat(Mapped(s, consumed, max)) == if max > 0 then Flat(s)[consumed..consumed + max] else Flat(s)[consumed..]
  {
    RemainingFlat(s, consumed);
    RemainingTotal(s, consumed);
    if max > 0 { CutFlat(Remaining(s, consumed), max); }
  }

  /** The result code of a mapping. */
  function MapCode(s: seq<Iov>, consumed: nat, max: int): int {
    if max > 0 && max > Total(Remaining(s, consumed)) then EOVERFLOW else |Mapped(s, consumed, max)|
  }

  /** State of the mapping loop before entry i: n entries are written, c bytes are still to be skipped. */
  ghost predicate Mapping(src: seq<Iov>, done: seq<Iov>, i: nat, consumed: nat, c: nat, max: int) {
    && i <= |src| && |done| <= i
    && done + Remaining(src[i..], c) == Remaining(src, consumed)
    && (max > 0 ==> Total(done) < max)
  }

  lemma {:induction false} MappingNext(src: seq<Iov>, done: seq<Iov>, i: nat, consumed: nat, c: nat, max: int)
    requires Mapping(src, done, i, consumed, c, max) && i < |src|
    ensures c >= src[i].len ==> Mapping(src, done, i + 1, consumed, c - src[i].len, max)
    ensures c < src[i].len ==>
              var v := Skip(src[i], c);
              && done + [v] + Remaining(src[i + 1..], 0) == Remaining(src, consumed)
              && Total(done + [v]) == Total(done) + v.len
  {
    assert src[i..][1..] == src[i + 1..];
    if c < src[i].len {
      var v := Skip(src[i], c);
      assert done + ([v] + Remaining(src[i + 1..], 0)) == done + [v] + Remaining(src[i + 1..], 0);
      FlatAppend(done, [v]);
      assert [v][1..] == [];
    }
  }

  /** The entry that reaches max is shortened, and is the last. */
  lemma {:induction false} MappingCut(src: seq<Iov>, done: seq<Iov>, i: nat, consumed: nat, c: nat, max: int)
    requires Mapping(src, done, i, consumed, c, max) && i < |src| && c < src[i].len
    requires max > 0 && Total(done) + (src[i].len - c) >= max
    ensures done + [Iov(src[i].base + c, max - Total(done))] == Mapped(src, consumed, max)
    ensures max <= Total(Remaining(src, consumed)) && MapCode(src, consumed, max) == |done| + 1
  {
    MappingNext(src, done, i, consumed, c, max);
    var v := Skip(src[i], c);
    var rest := [v] + Remaining(src[i + 1..], 0);
    assert done + [v] + Remaining(src[i + 1..], 0) == done + rest;
    CutAppend(done, rest, max);
    FlatAppend(done, rest);
    FlatAppend([v], Remaining(src[i + 1..], 0));
  }

  lemma {:induction false} MappingEnd(src: seq<Iov>, done: seq<Iov>, consumed: nat, c: nat, max: int)
    requires Mapping(src, done, |src|, consumed, c, max)
    ensures done == Remaining(src, consumed)
    ensures max > 0 ==> max > Total(Remaining(src, consumed))
    ensures MapCode(src, consumed, max) == if max > 0 then EOVERFLOW else |done|
    ensures max <= 0 ==> done == Mapped(src, consumed, max)
  {
    assert src[|src|..] == [];
    assert done + [] == done;
  }

  /** Writes one entry, shortened when it goes beyond max; then it is the last. */
  method WriteEntry(dest: array<Iov>, n: nat, v: Iov, max: int, remaining: int) returns (left: int, last: bool)
    requires n < dest.Length && (max > 0 ==> remaining > 0)
    modifies dest
    ensures left == remaining - v.len && last == (max > 0 && left <= 0)
    ensures dest[n] == if last then Iov(v.base, remaining) else v
    ensures dest[..n + 1] == old(dest[..n]) + [dest[n]]
  {
    dest[n] := v;
    left := remaining - v.len;
    last := max > 0 && left <= 0;
    if last { dest[n] := Iov(v.base, v.len + left); }
  }

  /** Writes one entry of a mapping; it is the last when the bytes asked for are reached. */
  method MapEntry(dest: array<Iov>, n: nat, v: Iov, max: int, remaining: int,
                  ghost src: seq<Iov>, ghost done: seq<Iov>, ghost i: nat, ghost consumed: nat, ghost c: nat)
    returns (left: int, last: bool)
    requires n < dest.Length && n == |done| && dest[..n] == done && remaining == max - Total(done)
    requires Mapping(src, done, i, consumed, c, max) && i < |src| && c < src[i].len && v == Skip(src[i], c)
    modifies dest
    ensures last ==> MapCode(src, consumed, max) == n + 1 && dest[..n + 1] == Mapped(src, consumed, max)
    ensures !last ==> dest[..n + 1] == done + [dest[n]] && left == max - Total(done + [dest[n]])
    ensures !last ==> Mapping(src, done + [dest[n]], i + 1, consumed, 0, max)
  {
    MappingNext(src, done, i, consumed, c, max);
    left, last := WriteEntry(dest, n, v, max, remaining);
    if last { MappingCut(src, done, i, consumed, c, max); }
  }

  method MapConsumed(src: array<Iov>, dest: array<Iov>, num: nat, consumed: nat, max: int) returns (rc: int)
    requires num <= src.Length && num <= dest.Length
    modifies dest
    ensures num == 0 || src == dest ==> rc == EINVAL && dest[..] == old(dest[..])
    ensures num > 0 && src != dest ==> rc == MapCode(src[..num], consumed, max)
    ensures rc >= 0 ==> rc <= num && dest[..rc] == Mapped(src[..num], consumed, max)
  {
    if num == 0 || src == dest { return EINVAL; }
    ghost var s := src[..num];
    ghost var done: seq<Iov> := [];
    var n: nat, c: nat, remaining, i: nat := 0, consumed, max, 0;
    while i < num
      invariant n <= i <= num && n == |done| && dest[..n] == done && src[..num] == s
      invariant Mapping(s, done, i, consumed, c, max) && remaining == max - Total(done)
    {
      if c >= src[i].len { MappingNext(s, done, i, consumed, c, max); }
      if c < src[i].len {
        var last;
        remaining, last := MapEntry(dest, n, Iov(src[i].base + c, src[i].len - c), max, remaining, s, done, i, consumed, c);
        if last { return n + 1; }
        done := done + [dest[n]];
        n, c := n + 1, 0;
      } else {
        c := c - src[i].len;
      }
      i := i + 1;
    }
    MappingEnd(s, done, consumed, c, max);
    if max > 0 && remaining > 0 { return EOVERFLOW; }
    rc := n;
  }

  /** The same into fewer entries; it never claims more than there are. */
  method MapConsumed2(src: array<Iov>, dest: array<Iov>, numSrc: nat, numDest: nat, consumed: nat, max: int) returns (rc: int)
    requires numSrc <= src.Length && numDest <= dest.Length
    modifies dest
    ensures numSrc == 0 || numDest == 0 || src == dest ==> rc == EINVAL && dest[..] == old(dest[..])
    ensures numSrc > 0 && numDest > 0 && src != dest ==>
              rc == if max <= 0 && numSrc > numDest then EOVERFLOW
                    else if |Mapped(src[..numSrc], consumed, max)| > numDest then EOVERFLOW
                    else MapCode(src[..numSrc], consumed, max)
    ensures rc >= 0 ==> rc <= numDest && dest[..rc] == Mapped(src[..numSrc], consumed, max)
  {
    if numSrc == 0 || numDest == 0 || src == dest { return EINVAL; }
    if max <= 0 && numSrc > numDest { return EOVERFLOW; }
    ghost var s := src[..numSrc];
    ghost var done: seq<Iov> := [];
    var n: nat, c: nat, remaining, i: nat := 0, consumed, max, 0;
    while i < numSrc
      invariant n <= i <= numSrc && n == |done| && n <= numDest && dest[..n] == done && src[..numSrc] == s
      invariant Mapping(s, done, i, consumed, c, max) && remaining == max - Total(done)
    {
      if c >= src[i].len { MappingNext(s, done, i, consumed, c, max); }
      if c < src[i].len {
        if n >= numDest {
          TooFew(s, done, i, consumed, c, max);
          return EOVERFLOW;
        }
        var last;
        remaining, last := MapEntry(dest, n, Iov(src[i].base + c, src[i].len - c), max, remaining, s, done, i, consumed, c);
        if last { return n + 1; }
        done := done + [dest[n]];
        n, c := n + 1, 0;
      } else {
        c := c - src[i].len;
      }
      i := i + 1;
    }
    MappingEnd(s, done, consumed, c, max);
    CutShort(done, max);
    if max > 0 && remaining > 0 { return EOVERFLOW; }
    rc := n;
  }

  /** When another entry is needed, the mapping is longer than what is written. */
  lemma {:induction false} TooFew(src: seq<Iov>, done: seq<Iov>, i: nat, consumed: nat, c: nat, max: int)
    requires Mapping(src, done, i, consumed, c, max) && i < |src| && c < src[i].len && max > 0
    ensures |Mapped(src, consumed, max)| > |done|
  {
    CutAppend(done, Remaining(src[i..], c), max);
    assert Cut(Remaining(src[i..], c), max - Total(done)) != [];
  }

  /** A cut that nothing reaches changes nothing. */
  lemma {:induction false} CutShort(s: seq<Iov>, max: int)
    ensures Total(s) < max ==> Cut(s, max) == s
  {
    if Total(s) < max {
      assert s + [] == s;
      CutAppend(s, [], max);
    }
  }

  // How many entries hold a request.

  function Prefix(s: seq<Iov>, n: nat): nat
    requires n <= |s|
  { Total(s[..n]) }

  lemma {:induction false} PrefixNext(s: seq<Iov>, n: nat)
    requires n < |s|
    ensures Prefix(s, n + 1) == Prefix(s, n) + s[n].len
  {
    assert s[..n + 1] == s[..n] + [s[n]];
    FlatAppend(s[..n], [s[n]]);
    assert [s[n]][1..] == [];
  }

  /** The entry with the first byte after n bytes; the entry where n bytes end. */
  ghost predicate Passes(s: seq<Iov>, i: nat, n: nat) { i < |s| && Prefix(s, i) <= n < Prefix(s, i + 1) }

  ghost predicate Reaches(s: seq<Iov>, i: nat, n: nat) { i < |s| && Prefix(s, i) < n <= Prefix(s, i + 1) }

  /** Zero-based entry of the first byte not consumed, and how many entries on the request ends. */
  method NumToMeetSize2(iovs: array<Iov>, num: nat, requested: nat, consumed: nat) returns (rc: int, first: nat, prune: nat)
    requires num <= iovs.Length
    ensures num == 0 || requested == 0 ==> rc == EINVAL
    ensures num > 0 && requested > 0 ==>
              if consumed + requested > Total(iovs[..num]) then rc == EOVERFLOW
              else rc > 0 && Passes(iovs[..num], first, consumed) && Reaches(iovs[..num], first + rc - 1, consumed + requested)
                   && prune == Prefix(iovs[..num], first + rc) - (consumed + requested)
  {
    first, prune := 0, 0;
    if num == 0 || requested == 0 { return EINVAL, 0, 0; }
    ghost var s := iovs[..num];
    var tally: int, idx: int := 0 - (consumed as int), -1;
    var i: nat := 0;
    assert s[..0] == [];
    while i < num
      invariant i <= num && tally == Prefix(s, i) - consumed && tally < requested
      invariant idx < 0 ==> idx == -1 && tally <= 0
      invariant idx >= 0 ==> idx < i && Passes(s, idx, consumed)
    {
      PrefixNext(s, i);
      tally := tally + iovs[i].len;
      if tally > 0 && idx == -1 { idx := i; }
      if tally >= requested {
        assert idx >= 0 && s[..num] == s;
        PrefixMono(s, i + 1, num);
        first, prune := idx, tally - requested;
        return i + 1 - idx, first, prune;
      }
      i := i + 1;
    }
    assert s[..num] == s;
    rc := EOVERFLOW;
  }

  // Without empty entries this is the number of entries of the mapping.

  predicate NoneEmpty(s: seq<Iov>) { forall i | 0 <= i < |s| :: s[i].len > 0 }

  lemma {:induction false} PrefixTail(s: seq<Iov>, n: nat)
    requires 0 < n <= |s|
    ensures Prefix(s, n) == s[0].len + Prefix(s[1..], n - 1)
  {
    assert s[..n][1..] == s[1..][..n - 1];
  }

  lemma {:induction false} CutCount(s: seq<Iov>, last: nat, max: nat)
    requires Reaches(s, last, max)
    ensures |Cut(s, max)| == last + 1
  {
    assert s[..0] == [];
    if last == 0 {
      PrefixNext(s, 0);
    } else {
      PrefixTail(s, last);
      PrefixTail(s, last + 1);
      CutCount(s[1..], last - 1, max - s[0].len);
    }
  }

  lemma {:induction false} RemainingNone(s: seq<Iov>)
    requires NoneEmpty(s)
    ensures Remaining(s, 0) == s
  {
    if s != [] {
      assert Skip(s[0], 0) == s[0];
      RemainingNone(s[1..]);
    }
  }

  /** The mapping has as many entries as lie between the first byte not consumed and the last requested. */
  lemma {:induction false} CountsMatch(s: seq<Iov>, first: nat, last: nat, consumed: nat, requested: nat)
    requires NoneEmpty(s) && requested > 0 && Passes(s, first, consumed) && Reaches(s, last, consumed + requested)
    ensures |Mapped(s, consumed, requested)| == last - first + 1
  {
    assert s[..0] == [];
    if first == 0 {
      PrefixNext(s, 0);
      RemainingNone(s[1..]);
      var r := Remaining(s, consumed);
      assert r == [Skip(s[0], consumed)] + s[1..];
      ShortenedReaches(s, r, consumed, last, requested);
      CutCount(r, last, requested);
    } else {
      PrefixTail(s, first);
      PrefixTail(s, first + 1);
      PrefixMono(s, 1, first);
      PrefixNext(s, 0);
      LaterThan(s, first, last, consumed, requested);
      PrefixTail(s, last);
      PrefixTail(s, last + 1);
      CountsMatch(s[1..], first - 1, last - 1, consumed - s[0].len, requested);
    }
  }

  lemma {:induction false} PrefixMono(s: seq<Iov>, m: nat, n: nat)
    requires m <= n <= |s|
    ensures Prefix(s, m) <= Prefix(s, n)
  {
    if m < n {
      PrefixNext(s, n - 1);
      PrefixMono(s, m, n - 1);
    }
  }

  lemma {:induction false} LaterThan(s: seq<Iov>, first: nat, last: nat, consumed: nat, requested: nat)
    requires requested > 0 && Passes(s, first, consumed) && Reaches(s, last, consumed + requested)
    ensures first <= last
  {
    if last < first { PrefixMono(s, last + 1, first); }
  }

  lemma {:induction false} ShortenedReaches(s: seq<Iov>, r: seq<Iov>, consumed: nat, last: nat, requested: nat)
    requires s != [] && consumed < s[0].len && r == [Skip(s[0], consumed)] + s[1..]
    requires requested > 0 && Reaches(s, last, consumed + requested)
    ensures Reaches(r, last, requested)
  {
    assert s[..0] == [] && r[..0] == [] && r[1..] == s[1..];
    if last > 0 {
      PrefixTail(s, last);
      PrefixTail(r, last);
    }
    PrefixTail(s, last + 1);
    PrefixTail(r, last + 1);
  }

  // Advancing in place.

  /** Moves the vector past consumed bytes by changing one entry, whose old value is saved. When all
      bytes are consumed this is an error, unless the last entry is empty. */
  method Advance(iovs: array<Iov>, num: nat, consumed: int) returns (rc: int, saved: Iov)
    requires num <= iovs.Length
    modifies iovs
    ensures num == 0 || consumed < 0 ==> rc == EINVAL
    ensures num > 0 && consumed > 0 && consumed > Total(old(iovs[..num])) ==> rc == ERANGE
    ensures num > 0 && consumed > 0 && consumed == Total(old(iovs[..num])) ==>
              if old(iovs[num - 1].len) > 0 then rc == EXFULL else 0 <= rc < num
    ensures num > 0 && 0 <= consumed && (consumed == 0 || consumed < Total(old(iovs[..num]))) ==> 0 <= rc < num
    ensures rc < 0 ==> iovs[..] == old(iovs[..])
    ensures 0 <= rc ==> rc < num && saved == old(iovs[rc]) && iovs[..] == old(iovs[..])[rc := iovs[rc]]
    ensures 0 <= rc ==> Flat(iovs[rc..num]) == Flat(old(iovs[..num]))[consumed..]
  {
    saved := Iov(0, 0);
    if num == 0 || consumed < 0 { return EINVAL, saved; }
    ghost var s := iovs[..num];
    assert s[0..] == s;
    if consumed == 0 {
      assert Flat(s)[0..] == Flat(s) && iovs[0..num] == s;
      return 0, iovs[0];
    }
    var c: int := consumed;
    var idx: nat := 0;
    assert s[..0] == [];
    while idx < num && c > 0
      invariant idx <= num && c == consumed - Prefix(s, idx) && c >= 0
      invariant iovs[..] == old(iovs[..])
      invariant idx > 0 && c == 0 ==> iovs[idx - 1].len > 0
      decreases num - idx
    {
      PrefixNext(s, idx);
      assert s[idx] == iovs[idx];
      if c < iovs[idx].len { break; }
      c := c - iovs[idx].len;
      idx := idx + 1;
    }
    assert s[..num] == s;
    if idx == num { return if c > 0 then ERANGE else EXFULL, saved; }
    PrefixMono(s, idx + 1, num);
    PrefixMono(s, idx, num - 1);
    PrefixNext(s, num - 1);
    PrefixNext(s, idx);
    saved := iovs[idx];
    FlatFrom(s, idx, c);
    assert Skip(saved, 0) == saved;
    if c > 0 { iovs[idx] := Skip(saved, c); }
    assert iovs[idx] == Skip(saved, c);
    assert iovs[idx..num] == [Skip(saved, c)] + s[idx + 1..];
    rc := idx;
  }

  lemma {:induction false} FlatFrom(s: seq<Iov>, idx: nat, c: nat)
    requires idx < |s| && c <= s[idx].len
    ensures Prefix(s, idx) + c <= Total(s)
    ensures Flat([Skip(s[idx], c)] + s[idx + 1..]) == Flat(s)[Prefix(s, idx) + c..]
  {
    assert s == s[..idx] + ([s[idx]] + s[idx + 1..]);
    FlatAppend(s[..idx], [s[idx]] + s[idx + 1..]);
    FlatAppend([s[idx]], s[idx + 1..]);
    FlatAppend([Skip(s[idx], c)], s[idx + 1..]);
    assert [s[idx]][1..] == [] && [Skip(s[idx], c)][1..] == [];
    assert Bytes(Skip(s[idx], c)) == Bytes(s[idx])[c..];
  }

  method Restore(iovs: array<Iov>, num: nat, idx: nat, saved: Iov) returns (rc: int)
    requires num <= iovs.Length
    modifies iovs
    ensures rc == if num == 0 || idx >= num then EINVAL else 0
    ensures iovs[..] == if rc == 0 then old(iovs[..])[idx := saved] else old(iovs[..])
  {
    if num == 0 || idx >= num { return EINVAL; }
    iovs[idx] := saved;
    rc := 0;
  }

  /** Advancing and restoring leaves the vector as it was. */
  method AdvanceAndRestore(iovs: array<Iov>, num: nat, consumed: int) returns (rc: int)
    requires num <= iovs.Length
    modifies iovs
    ensures iovs[..] == old(iovs[..])
  {
    var saved;
    rc, saved := Advance(iovs, num, consumed);
    if rc >= 0 {
      var again := Restore(iovs, num, rc, saved);
    }
  }
}

/** The buffer pool: items are allocated and released, promised in advance, or left with their last user
    until they are needed again. */
module BufferSet {
  import opened Common
  import Words

  const WORD64: nat := Words.WORD64

  /** No error code: an assertion of the initialisation has failed. */
  const ABORTED: int := 1

  const ENOBUFS: int := -105
  const EPERM: int := -1

  // Lists of items.

  function Without(q: seq<nat>, x: nat): seq<nat> {
    if q == [] then [] else if q[0] == x then q[1..] else [q[0]] + Without(q[1..], x)
  }

  function Times(q: seq<nat>, x: nat): nat { if q == [] then 0 else One(q[0] == x) + Times(q[1..], x) }

  lemma {:induction false} TimesAppend(a: seq<nat>, b: seq<nat>, x: nat)
    ensures Times(a + b, x) == Times(a, x) + Times(b, x)
  {
    if a == [] {
      assert a + b == b;
    } else {
      assert (a + b)[1..] == a[1..] + b;
      TimesAppend(a[1..], b, x);
    }
  }

  lemma {:induction false} TimesMember(q: seq<nat>, x: nat)
    ensures x in q <==> Times(q, x) > 0
  {
    if q != [] { TimesMember(q[1..], x); }
  }

  lemma {:induction false} WithoutTimes(q: seq<nat>, x: nat, y: nat)
    requires x in q
    ensures Times(Without(q, x), y) == Times(q, y) - One(x == y) && |Without(q, x)| == |q| - 1
  {
    if q[0] != x {
      WithoutTimes(q[1..], x, y);
      assert ([q[0]] + Without(q[1..], x))[1..] == Without(q[1..], x);
    }
  }

  /** How many items of the list are marked. */
  function Marked(q: seq<nat>, marks: seq<bool>): nat {
    if q == [] then 0 else One(q[0] < |marks| && marks[q[0]]) + Marked(q[1..], marks)
  }

  lemma {:induction false} MarkedAppend(a: seq<nat>, b: seq<nat>, marks: seq<bool>)
    ensures Marked(a + b, marks) == Marked(a, marks) + Marked(b, marks)
  {
    if a == [] {
      assert a + b == b;
    } else {
      assert (a + b)[1..] == a[1..] + b;
      MarkedAppend(a[1..], b, marks);
    }
  }

  lemma {:induction false} MarkedChange(q: seq<nat>, marks: seq<bool>, x: nat, mark: bool)
    requires x < |marks|
    ensures Times(q, x) == 0 ==> Marked(q, marks[x := mark]) == Marked(q, marks)
    ensures Times(q, x) == 1 ==> Marked(q, marks[x := mark]) == Marked(q, marks) - One(marks[x]) + One(mark)
  {
    if q != [] { MarkedChange(q[1..], marks, x, mark); }
  }

  /** The marked items of the list, in order. */
  function Cached(q: seq<nat>, marks: seq<bool>): seq<nat> {
    if q == [] then [] else (if q[0] < |marks| && marks[q[0]] then [q[0]] else []) + Cached(q[1..], marks)
  }

  lemma {:induction false} CachedAppend(a: seq<nat>, b: seq<nat>, marks: seq<bool>)
    ensures Cached(a + b, marks) == Cached(a, marks) + Cached(b, marks)
  {
    if a == [] {
      assert a + b == b;
    } else {
      assert (a + b)[1..] == a[1..] + b;
      CachedAppend(a[1..], b, marks);
    }
  }

  lemma {:induction false} CachedSame(q: seq<nat>, marks: seq<bool>, x: nat, mark: bool)
    requires x < |marks| && Times(q, x) == 0
    ensures Cached(q, marks[x := mark]) == Cached(q, marks)
  {
    if q != [] { CachedSame(q[1..], marks, x, mark); }
  }

  lemma {:induction false} WithoutLater(a: seq<nat>, b: seq<nat>, x: nat)
    requires x !in a && |a| <= 1
    ensures Without(a + b, x) == a + Without(b, x)
  {
    if a == [] {
      assert a + b == b && a + Without(b, x) == Without(b, x);
    } else {
      assert (a + b)[1..] == b;
    }
  }

  /** Unmarking an item takes it out of the list of marked ones and leaves the others in order. */
  lemma {:induction false} CachedUnmark(q: seq<nat>, marks: seq<bool>, x: nat)
    requires x < |marks| && marks[x] && Times(q, x) == 1
    ensures x in Cached(q, marks) && Cached(q, marks[x := false]) == Without(Cached(q, marks), x)
  {
    if q[0] == x {
      CachedSame(q[1..], marks, x, false);
      var c := Cached(q[1..], marks);
      assert ([x] + c)[1..] == c && [] + c == c;
    } else {
      CachedUnmark(q[1..], marks, x);
      WithoutLater(if q[0] < |marks| && marks[q[0]] then [q[0]] else [], Cached(q[1..], marks), x);
    }
  }

  class BufferSet {
    const numBufs: nat
    const allowUserCache: bool
    var freeList: seq<nat>
    var inuseList: seq<nat>
    var inUse: seq<bool>
    var userCached: seq<bool>
    var numAllocated: int
    var numUserCached: int
    var numPending: int
    var totalAlloc: nat
    var maxAllocated: int
    /** The items left with their users, the earliest first. */
    ghost var cached: seq<nat>

    /** Free and in-use items partition the pool, the counters are the lengths of their lists, and what is
        allocated or promised does not exceed the pool. */
    ghost predicate Valid()
      reads this
    {
      && |inUse| == numBufs && Lists(freeList, inuseList, inUse, userCached)
      && |freeList| + |inuseList| == numBufs
      && numAllocated == |inuseList| && numUserCached == Marked(freeList, userCached) && cached == Cached(freeList, userCached)
      && 0 <= numPending && numAllocated + numPending <= numBufs
      && numAllocated <= maxAllocated <= numBufs
      && (!allowUserCache ==> numUserCached == 0)
    }

    constructor (nbufs: nat, allow: bool)
      ensures Valid() && numBufs == nbufs && allowUserCache == allow && numPending == numAllocated == 0
      ensures freeList == Backwards(nbufs) && cached == [] && totalAlloc == maxAllocated == 0
    {
      numBufs, allowUserCache := nbufs, allow;
      freeList, inuseList := Backwards(nbufs), [];
      inUse, userCached := seq(nbufs, _ => false), seq(nbufs, _ => false);
      numAllocated, numUserCached, numPending, totalAlloc, maxAllocated := 0, 0, 0, 0, 0;
      cached := [];
      new;
      forall x: nat | x < numBufs ensures ItemOk(freeList, inuseList, inUse[x], userCached[x], x) {
        BackwardsTimes(numBufs, x);
      }
      NoneMarked(freeList, userCached);
    }

    function Navail(): int
      reads this
    {
      numBufs - (numAllocated + numPending)
    }

    /** An item goes from the head of the free list to its user. If it was left with another user it is
        revoked first, and then it was left there before any other. With room, or nothing promised, this
        keeps to what the pool has. */
    method AllocateLocked() returns (item: Option<nat>, revoked: bool)
      requires Valid() && (Navail() > 0 || numPending == 0)
      modifies this
      ensures Valid() && numPending == old(numPending)
      ensures item.None? <==> old(Navail()) == 0
      ensures item.None? ==> unchanged(this) && !revoked
      ensures item.Some? ==> freeList == old(freeList)[1..] && inuseList == old(inuseList) + [item.value]
      ensures item.Some? ==> old(freeList) != [] && item.value == old(freeList)[0] && item.value < |inUse| && inUse[item.value]
      ensures revoked <==> item.Some? && old(userCached)[item.value]
      ensures revoked ==> old(cached) != [] && item.value == old(cached)[0] && cached == old(cached)[1..]
      ensures !revoked ==> cached == old(cached)
      ensures item.Some? ==> OneMore(old(totalAlloc), old(maxAllocated))
    {
      if Navail() == 0 {
        assert freeList == [];
        return None, false;
      }
      revoked := TakeHead();
      item := Some(inuseList[|inuseList| - 1]);
    }

    /** One more allocation has been counted, and the most items that were ever in use at a time. */
    predicate OneMore(total: nat, most: int)
      reads this
    { totalAlloc == total + 1 && maxAllocated == if numAllocated > most then numAllocated else most }

    /** The head of the free list, revoked if it was left with a user. */
    method TakeHead() returns (revoked: bool)
      requires Valid() && Navail() > 0
      modifies this
      ensures Valid() && numPending == old(numPending)
      ensures old(freeList) != [] && freeList == old(freeList)[1..] && inuseList == old(inuseList) + [old(freeList)[0]]
      ensures old(freeList)[0] < |inUse| && inUse[old(freeList)[0]] && revoked == old(userCached[freeList[0]])
      ensures revoked ==> old(cached) != [] && old(freeList)[0] == old(cached)[0] && cached == old(cached)[1..]
      ensures !revoked ==> cached == old(cached)
      ensures OneMore(old(totalAlloc), old(maxAllocated))
    {
      var x := freeList[0];
      var rest, taken, used, marks := freeList[1..], inuseList + [x], inUse[x := true], userCached[x := false];
      TakeFirst(freeList, inuseList, inUse, userCached, x, rest, taken, used, marks);
      revoked := userCached[x];
      if revoked {
        numUserCached := numUserCached - 1;
        cached := cached[1..];
      }
      freeList, inuseList, inUse, userCached := rest, taken, used, marks;
      totalAlloc := totalAlloc + 1;
      numAllocated := numAllocated + 1;
      if numAllocated > maxAllocated { maxAllocated := numAllocated; }
    }

    /** An item that was promised is always there. */
    method AllocateFromPending() returns (item: nat)
      requires Valid() && numPending > 0
      modifies this
      ensures Valid() && numPending == old(numPending) - 1
      ensures old(freeList) != [] && item == old(freeList)[0] && inuseList == old(inuseList) + [item] && freeList == old(freeList)[1..]
      ensures OneMore(old(totalAlloc), old(maxAllocated))
    {
      numPending := numPending - 1;
      var found, revoked := AllocateLocked();
      item := found.value;
    }

    method PendingAlloc(n: nat) returns (rc: int)
      requires Valid()
      modifies this`numPending
      ensures Valid()
      ensures rc == if n == 0 then EINVAL else if n > numBufs then ENOMEM else if n > old(Navail()) then ENOBUFS else 0
      ensures numPending == if rc == 0 then old(numPending) + n else old(numPending)
    {
      if n == 0 { return EINVAL; }
      if numBufs < n { return ENOMEM; }
      if Navail() < n { return ENOBUFS; }
      numPending := numPending + n;
      rc := 0;
    }

    method ReleasePendingAlloc(n: nat) returns (rc: int)
      requires Valid()
      modifies this`numPending
      ensures Valid()
      ensures rc == if n > numBufs then EINVAL else if n > old(numPending) then EOVERFLOW else 0
      ensures numPending == if rc == 0 then old(numPending) - n else old(numPending)
    {
      if n > numBufs { return EINVAL; }
      if n > numPending { return EOVERFLOW; }
      numPending := numPending - n;
      rc := 0;
    }

    /** An item comes back from its user, or its user gives up what was left with it. */
    method ReleaseItem(x: nat)
      requires Valid() && x < numBufs && (inUse[x] || userCached[x])
      modifies this
      ensures Valid() && numPending == old(numPending) && !inUse[x] && !userCached[x]
      ensures totalAlloc == old(totalAlloc) && maxAllocated == old(maxAllocated)
      ensures old(userCached[x]) ==> freeList == old(freeList) && inuseList == old(inuseList) && cached == Without(old(cached), x)
      ensures !old(userCached[x]) ==> freeList == [x] + old(freeList) && inuseList == Without(old(inuseList), x) && cached == old(cached)
    {
      assert ItemOk(freeList, inuseList, inUse[x], userCached[x], x);
      if userCached[x] {
        Uncache(freeList, inuseList, inUse, userCached, x);
        numUserCached := numUserCached - 1;
        cached := Without(cached, x);
        userCached := userCached[x := false];
      } else {
        PutBack(freeList, inuseList, inUse, userCached, x, [x] + freeList);
        CachedAppend([x], freeList, userCached);
        MarkedAppend([x], freeList, userCached);
        assert [x][1..] == [];
        numAllocated := numAllocated - 1;
        inuseList, freeList := Without(inuseList, x), [x] + freeList;
        inUse := inUse[x := false];
      }
    }

    /** An item goes to the end of the free list but stays with its user until it is allocated again. */
    method UserCacheRelease(x: nat) returns (rc: int)
      requires Valid() && x < numBufs && (inUse[x] || userCached[x] || !allowUserCache)
      modifies this
      ensures Valid() && numPending == old(numPending)
      ensures totalAlloc == old(totalAlloc) && maxAllocated == old(maxAllocated)
      ensures rc == if old(userCached[x]) then EALREADY else if !allowUserCache then EPERM else 0
      ensures rc != 0 ==> unchanged(this)
      ensures rc == 0 ==> freeList == old(freeList) + [x] && inuseList == Without(old(inuseList), x) && cached == old(cached) + [x]
    {
      if userCached[x] { return EALREADY; }
      if !allowUserCache { return EPERM; }
      assert ItemOk(freeList, inuseList, inUse[x], userCached[x], x);
      CacheLast(freeList, inuseList, inUse, userCached, x);
      userCached := userCached[x := true];
      numAllocated, numUserCached := numAllocated - 1, numUserCached + 1;
      inuseList, freeList := Without(inuseList, x), freeList + [x];
      inUse := inUse[x := false];
      cached := cached + [x];
      rc := 0;
    }
  }

  /** What is true of the lists and flags of a pool. */
  ghost predicate Lists(free: seq<nat>, inuse: seq<nat>, used: seq<bool>, marks: seq<bool>) {
    && |used| == |marks|
    && (forall x: nat | x < |used| :: ItemOk(free, inuse, used[x], marks[x], x))
    && AllBelow(free, |used|) && AllBelow(inuse, |used|)
  }

  predicate AllBelow(q: seq<nat>, n: nat) { forall i | 0 <= i < |q| :: q[i] < n }

  lemma {:induction false} WithoutBelow(q: seq<nat>, x: nat, n: nat)
    requires x in q && AllBelow(q, n)
    ensures AllBelow(Without(q, x), n)
  {
    if q[0] != x { WithoutBelow(q[1..], x, n); }
  }

  lemma {:induction false} TakeFirst(free: seq<nat>, inuse: seq<nat>, used: seq<bool>, marks: seq<bool>, x: nat,
                                     free': seq<nat>, inuse': seq<nat>, used': seq<bool>, marks': seq<bool>)
    requires Lists(free, inuse, used, marks) && free != [] && x == free[0]
    requires free' == free[1..] && inuse' == inuse + [x] && used' == used[x := true] && marks' == marks[x := false]
    ensures Lists(free', inuse', used', marks') && |used'| == |used| && |inuse'| == |inuse| + 1
    ensures Marked(free', marks') == Marked(free, marks) - One(marks[x])
    ensures marks[x] ==> Cached(free, marks) != [] && Cached(free, marks)[0] == x && Cached(free', marks') == Cached(free, marks)[1..]
    ensures !marks[x] ==> Cached(free', marks') == Cached(free, marks)
  {
    assert ItemOk(free, inuse, used[x], marks[x], x);
    MarkedChange(free', marks, x, false);
    CachedSame(free', marks, x, false);
    forall y: nat | y < |used| ensures ItemOk(free', inuse', used'[y], marks'[y], y) {
      assert ItemOk(free, inuse, used[y], marks[y], y);
      TimesAppend(inuse, [x], y);
      assert [x][1..] == [];
    }
  }

  lemma {:induction false} Uncache(free: seq<nat>, inuse: seq<nat>, used: seq<bool>, marks: seq<bool>, x: nat)
    requires Lists(free, inuse, used, marks) && x < |used| && marks[x]
    ensures Lists(free, inuse, used, marks[x := false])
    ensures Marked(free, marks[x := false]) == Marked(free, marks) - 1
    ensures Cached(free, marks[x := false]) == Without(Cached(free, marks), x)
  {
    assert ItemOk(free, inuse, used[x], marks[x], x);
    MarkedChange(free, marks, x, false);
    CachedUnmark(free, marks, x);
    forall y: nat | y < |used| ensures ItemOk(free, inuse, used[y], marks[x := false][y], y) {
      assert ItemOk(free, inuse, used[y], marks[y], y);
    }
  }

  /** An item in use moves into the free list, at either end. */
  lemma {:induction false} PutBack(free: seq<nat>, inuse: seq<nat>, used: seq<bool>, marks: seq<bool>, x: nat, after: seq<nat>)
    requires Lists(free, inuse, used, marks) && x < |used| && used[x] && (after == [x] + free || after == free + [x])
    ensures x in inuse && |Without(inuse, x)| == |inuse| - 1
    ensures Lists(after, Without(inuse, x), used[x := false], marks)
  {
    assert ItemOk(free, inuse, used[x], marks[x], x);
    TimesMember(inuse, x);
    WithoutBelow(inuse, x, |used|);
    WithoutTimes(inuse, x, x);
    forall y: nat | y < |used| ensures ItemOk(after, Without(inuse, x), used[x := false][y], marks[y], y) {
      assert ItemOk(free, inuse, used[y], marks[y], y);
      WithoutTimes(inuse, x, y);
      TimesAppend([x], free, y);
      TimesAppend(free, [x], y);
      assert [x][1..] == [];
    }
  }

  lemma {:induction false} CacheLast(free: seq<nat>, inuse: seq<nat>, used: seq<bool>, marks: seq<bool>, x: nat)
    requires Lists(free, inuse, used, marks) && x < |used| && used[x]
    ensures x in inuse && |Without(inuse, x)| == |inuse| - 1
    ensures Lists(free + [x], Without(inuse, x), used[x := false], marks[x := true])
    ensures Marked(free + [x], marks[x := true]) == Marked(free, marks) + 1
    ensures Cached(free + [x], marks[x := true]) == Cached(free, marks) + [x]
  {
    var marked := marks[x := true];
    assert ItemOk(free, inuse, used[x], marks[x], x);
    PutBack(free, inuse, used, marks, x, free + [x]);
    MarkedChange(free, marks, x, true);
    CachedSame(free, marks, x, true);
    MarkedAppend(free, [x], marked);
    CachedAppend(free, [x], marked);
    assert [x][1..] == [];
    forall y: nat | y < |used| ensures ItemOk(free + [x], Without(inuse, x), used[x := false][y], marked[y], y) {
      assert ItemOk(free + [x], Without(inuse, x), used[x := false][y], marks[y], y);
    }
  }

  ghost predicate ItemOk(free: seq<nat>, inuse: seq<nat>, used: bool, userCached: bool, x: nat) {
    && Times(inuse, x) == One(used) && Times(free, x) == One(!used)
    && (userCached ==> !used)
  }

  /** The items in the order of the free list once all have been put at its head. */
  function Backwards(n: nat): (q: seq<nat>)
    ensures |q| == n && forall i | 0 <= i < n :: q[i] == n - 1 - i
  { if n == 0 then [] else [n - 1] + Backwards(n - 1) }

  lemma {:induction false} BackwardsTimes(n: nat, x: nat)
    ensures Times(Backwards(n), x) == One(x < n)
  {
    if n > 0 {
      BackwardsTimes(n - 1, x);
      assert Backwards(n)[1..] == Backwards(n - 1);
    }
  }

  lemma {:induction false} NoneMarked(q: seq<nat>, marks: seq<bool>)
    requires forall x | 0 <= x < |marks| :: !marks[x]
    ensures Marked(q, marks) == 0 && Cached(q, marks) == []
  {
    if q != [] { NoneMarked(q[1..], marks); }
  }

  // The layout of the region.

  /** The alignment asked for by the flags, if no number is given. */
  function Alignment(given: nat, line: bool, sector: bool, page: bool): nat {
    if given > 0 then given else if page then 4096 else if sector then 512 else if line then 64 else 0
  }

  predicate PowerOfTwo(x: nat) { x == 1 || (x > 0 && x % 2 == 0 && PowerOfTwo(x / 2)) }

  lemma {:induction false} PowerOfTwoIs(x: nat)
    ensures PowerOfTwo(x) <==> exists k: nat :: x == Words.Pow2(k)
  {
    if PowerOfTwo(x) {
      if x == 1 {
        assert x == Words.Pow2(0);
      } else {
        PowerOfTwoIs(x / 2);
        var k: nat :| x / 2 == Words.Pow2(k);
        assert x == Words.Pow2(k + 1);
      }
    }
    if k: nat :| x == Words.Pow2(k) { PowerOfTwoAt(k); }
  }

  lemma {:induction false} PowerOfTwoAt(k: nat)
    ensures PowerOfTwo(Words.Pow2(k))
  {
    if k > 0 {
      PowerOfTwoAt(k - 1);
      Words.QuotientIs(Words.Pow2(k), 2, Words.Pow2(k - 1), 0);
    }
  }

  predicate Aligned(x: nat, a: nat) { a == 0 || x % a == 0 }

  /** No alignment, or a power of two that everything is a multiple of. */
  predicate Suits(a: nat, region: nat, size: nat, prologue: nat) {
    a == 0 || (PowerOfTwo(a) && Aligned(region, a) && Aligned(size, a) && Aligned(prologue, a))
  }

  /** The buffer of an item and the hidden prologue before it. */
  predicate Inside(base: nat, prologue: nat, size: nat, region: nat, regionSize: nat) {
    region + prologue <= base && base + size <= region + regionSize
  }

  predicate BothAligned(base: nat, prologue: nat, a: nat) {
    Aligned(base, a) && base >= prologue && Aligned(base - prologue, a)
  }

  lemma {:induction false} AlignedSum(x: nat, y: nat, a: nat)
    requires Aligned(x, a) && Aligned(y, a)
    ensures Aligned(x + y, a)
  {
    if a > 0 {
      assert x == a * (x / a) && y == a * (y / a);
      assert x + y == a * (x / a + y / a);
      Words.QuotientIs(x + y, a, x / a + y / a, 0);
    }
  }

  /** Buffers and prologues lie in the region, one after the other. */
  ghost predicate Arranged(bases: seq<nat>, n: nat, prologue: nat, size: nat, region: nat, regionSize: nat) {
    && |bases| == n
    && (forall i | 0 <= i < n :: Inside(bases[i], prologue, size, region, regionSize))
    && (forall i, k | 0 <= i < k < n :: bases[i] + size + prologue <= bases[k])
  }

  lemma {:induction false} EndsAt(bases: seq<nat>, n: nat, prologue: nat, size: nat, region: nat, regionSize: nat, k: nat)
    requires Arranged(bases, n, prologue, size, region, regionSize) && k < n
    ensures region + (k + 1) * (size + prologue) <= bases[k] + size
  {
    if k > 0 {
      EndsAt(bases, n, prologue, size, region, regionSize, k - 1);
      assert bases[k - 1] + size + prologue <= bases[k];
      assert (k + 1) * (size + prologue) == k * (size + prologue) + (size + prologue);
    } else {
      assert Inside(bases[0], prologue, size, region, regionSize);
    }
  }

  lemma {:induction false} MustFit(bases: seq<nat>, n: nat, prologue: nat, size: nat, region: nat, regionSize: nat)
    requires Arranged(bases, n, prologue, size, region, regionSize) && n > 0
    ensures n * (size + prologue) <= regionSize
  {
    EndsAt(bases, n, prologue, size, region, regionSize, n - 1);
    assert Inside(bases[n - 1], prologue, size, region, regionSize);
  }

  /** The check of the total size, as words compute it. */
  predicate TooLong(nbufs: nat, size: nat, prologue: nat, regionSize: nat) {
    regionSize < nbufs * ((size + prologue) % WORD64) % WORD64
  }

  /** The arguments that the checks before the loop let through; sums and products of sizes wrap. */
  predicate Accepted(region: nat, regionSize: nat, nbufs: nat, size: nat, prologue: nat, usedOff: nat,
                     given: nat, line: bool, sector: bool, page: bool) {
    && size > 0 && region > 0 && regionSize > 0 && usedOff == 0
    && !TooLong(nbufs, size, prologue, regionSize)
    && One(line) + One(sector) + One(page) <= 1
    && Suits(Alignment(given, line, sector, page), region, size, prologue)
  }

  /** Places the buffers of a region one after the other. They and their prologues lie in the region, do not
      overlap and are aligned, exactly when their total size is that of the region at most, without wrapping; a
      total that does not wrap is checked, so that nothing goes wrong then. */
  method InitLayout(region: nat, regionSize: nat, nbufs: nat, size: nat, prologue: nat, usedOff: nat,
                    given: nat, line: bool, sector: bool, page: bool, memory: nat -> bool) returns (rc: int, bases: seq<nat>)
    requires Aligned(regionSize, Alignment(given, line, sector, page)) && region + regionSize <= WORD64
    requires size < WORD64 && prologue < WORD64 && regionSize < WORD64
    ensures rc in {0, EINVAL, EOVERFLOW, EFAULT, ENOMEM, ABORTED}
    ensures rc == EOVERFLOW <==> size > 0 && region > 0 && regionSize > 0 && usedOff == 0 && TooLong(nbufs, size, prologue, regionSize)
    ensures nbufs * (size + prologue) < WORD64 ==>
              (rc == EOVERFLOW <==> size > 0 && region > 0 && regionSize > 0 && usedOff == 0 && nbufs * (size + prologue) > regionSize)
    ensures rc == EINVAL <==>
              || size == 0 || region == 0 || regionSize == 0 || usedOff != 0
              || (!TooLong(nbufs, size, prologue, regionSize) && One(line) + One(sector) + One(page) > 1)
    ensures rc in {0, ENOMEM, ABORTED} <==> Accepted(region, regionSize, nbufs, size, prologue, usedOff, given, line, sector, page)
    ensures rc == ABORTED ==> nbufs * (size + prologue) >= WORD64
    ensures rc == 0 ==> forall i | 0 <= i < nbufs :: memory(i)
    ensures rc == ENOMEM ==> exists i :: 0 <= i < nbufs && !memory(i)
    ensures rc == 0 && nbufs > 0 ==>
              (Arranged(bases, nbufs, prologue, size, region, regionSize) <==> nbufs * (size + prologue) <= regionSize)
    ensures rc == 0 && nbufs * (size + prologue) < WORD64 ==>
              && Arranged(bases, nbufs, prologue, size, region, regionSize)
              && forall i | 0 <= i < nbufs ::
                   BothAligned(bases[i], prologue, Alignment(given, line, sector, page)) && bases[i] == BaseOf(i, prologue, size, region)
    ensures rc == 0 ==> |bases| == nbufs && forall i | 0 <= i < nbufs :: Meets(bases[i], given, line, sector, page)
  {
    bases := [];
    TooLongIs(nbufs, size, prologue, regionSize);
    rc := CheckLayout(region, regionSize, nbufs, size, prologue, usedOff, given, line, sector, page);
    if rc == 0 {
      var align := Alignment(given, line, sector, page);
      rc, bases := PlaceAll(region, regionSize, nbufs, size, prologue, align, memory);
      if rc == 0 && nbufs > 0 && Arranged(bases, nbufs, prologue, size, region, regionSize) {
        MustFit(bases, nbufs, prologue, size, region, regionSize);
      }
      if rc == 0 { AllMeet(bases, given, line, sector, page); }
    }
  }

  /** What the arguments ask of an address. */
  predicate Meets(x: nat, given: nat, line: bool, sector: bool, page: bool) {
    if given > 0 then x % given == 0 else (line ==> x % 64 == 0) && (sector ==> x % 512 == 0) && (page ==> x % 4096 == 0)
  }

  lemma {:induction false} AllMeet(bases: seq<nat>, given: nat, line: bool, sector: bool, page: bool)
    requires One(line) + One(sector) + One(page) <= 1
    requires forall i | 0 <= i < |bases| :: Aligned(bases[i], Alignment(given, line, sector, page))
    ensures forall i | 0 <= i < |bases| :: Meets(bases[i], given, line, sector, page)
  {}

  /** The checks before the loop. */
  method CheckLayout(region: nat, regionSize: nat, nbufs: nat, size: nat, prologue: nat, usedOff: nat,
                     given: nat, line: bool, sector: bool, page: bool) returns (rc: int)
    ensures rc in {0, EINVAL, EOVERFLOW, EFAULT}
    ensures rc == EOVERFLOW <==> size > 0 && region > 0 && regionSize > 0 && usedOff == 0 && TooLong(nbufs, size, prologue, regionSize)
    ensures rc == EINVAL <==>
              || size == 0 || region == 0 || regionSize == 0 || usedOff != 0
              || (!TooLong(nbufs, size, prologue, regionSize) && One(line) + One(sector) + One(page) > 1)
    ensures rc == 0 <==> Accepted(region, regionSize, nbufs, size, prologue, usedOff, given, line, sector, page)
    ensures rc == 0 && given > 0 ==> exists k: nat :: given == Words.Pow2(k)
  {
    PowerOfTwoIs(given);
    if size == 0 || region == 0 || regionSize == 0 { return EINVAL; }
    if usedOff != 0 { return EINVAL; }
    if TooLong(nbufs, size, prologue, regionSize) { return EOVERFLOW; }
    if (line && sector) || (line && page) || (sector && page) { return EINVAL; }
    var align := Alignment(given, line, sector, page);
    if align > 0 && (!PowerOfTwo(align) || region % align != 0) { return EFAULT; }
    if align > 0 && size % align != 0 { return EFAULT; }
    if align > 0 && prologue % align != 0 { return EFAULT; }
    rc := 0;
  }

  /** The loop of the layout. When all the buffers fit no assertion fails. */
  method PlaceAll(region: nat, regionSize: nat, nbufs: nat, size: nat, prologue: nat, align: nat, memory: nat -> bool)
    returns (rc: int, bases: seq<nat>)
    requires region > 0 && region + regionSize <= WORD64 && size > 0 && Suits(align, region, size, prologue)
    ensures rc in {0, ENOMEM, ABORTED}
    ensures nbufs * (size + prologue) <= regionSize ==> rc != ABORTED
    ensures rc == 0 ==> |bases| == nbufs && forall i | 0 <= i < nbufs :: memory(i) && Aligned(bases[i], align)
    ensures rc == ENOMEM ==> exists i :: 0 <= i < nbufs && !memory(i)
    ensures rc == 0 && nbufs * (size + prologue) <= regionSize ==>
              && Arranged(bases, nbufs, prologue, size, region, regionSize)
              && forall i | 0 <= i < nbufs :: BothAligned(bases[i], prologue, align) && bases[i] == BaseOf(i, prologue, size, region)
  {
    ghost var fits := nbufs * (size + prologue) <= regionSize;
    bases := [];
    var off: nat, i: nat := 0, 0;
    while i < nbufs
      invariant i <= nbufs && off <= regionSize && |bases| == i && forall k | 0 <= k < i :: memory(k) && Aligned(bases[k], align)
      invariant fits ==> Placed(bases, i, prologue, size, region, off, align)
    {
      if !memory(i) { return ENOMEM, []; }
      if fits { PlacedMore(bases, i, nbufs, size, prologue, off, region, regionSize, align); }
      var next := (off + size + prologue) % WORD64;
      if next > regionSize { return ABORTED, []; }
      var base := (region + off + prologue) % WORD64;
      if align > 0 && ((region + off) % align != 0 || base % align != 0) { return ABORTED, []; }
      bases := bases + [base];
      off := next;
      i := i + 1;
    }
    rc := 0;
    if fits { Widened(bases, nbufs, prologue, size, region, off, regionSize); }
  }

  function BaseOf(i: nat, prologue: nat, size: nat, region: nat): nat { region + i * (size + prologue) + prologue }

  /** The first n buffers have been placed, up to the offset. */
  ghost predicate Placed(bases: seq<nat>, n: nat, prologue: nat, size: nat, region: nat, off: nat, align: nat) {
    && Arranged(bases, n, prologue, size, region, off) && off == n * (size + prologue) && Aligned(off, align)
    && forall i | 0 <= i < n :: BothAligned(bases[i], prologue, align) && bases[i] == BaseOf(i, prologue, size, region)
  }

  lemma {:induction false} PlacedMore(bases: seq<nat>, i: nat, n: nat, size: nat, prologue: nat, off: nat, region: nat, regionSize: nat, align: nat)
    requires Placed(bases, i, prologue, size, region, off, align) && i < n && n * (size + prologue) <= regionSize
    requires region > 0 && size > 0 && region + regionSize <= WORD64
    requires Aligned(region, align) && Aligned(size, align) && Aligned(prologue, align)
    ensures var next, base := (off + size + prologue) % WORD64, (region + off + prologue) % WORD64;
            && next <= regionSize && Aligned(region + off, align) && Aligned(base, align)
            && Placed(bases + [base], i + 1, prologue, size, region, next, align)
  {
    StepFits(i, n, size, prologue, off, region, regionSize, align);
    ghost var base, next := region + off + prologue, off + size + prologue;
    ghost var more := bases + [base];
    forall k | 0 <= k < i + 1
      ensures Inside(more[k], prologue, size, region, next) && BothAligned(more[k], prologue, align) && more[k] == BaseOf(k, prologue, size, region)
    {
      if k < i { assert Inside(bases[k], prologue, size, region, off) && BothAligned(bases[k], prologue, align); }
    }
    forall k | 0 <= k < i ensures bases[k] + size + prologue <= base { assert Inside(bases[k], prologue, size, region, off); }
  }

  lemma {:induction false} Widened(bases: seq<nat>, n: nat, prologue: nat, size: nat, region: nat, off: nat, regionSize: nat)
    requires Arranged(bases, n, prologue, size, region, off) && off <= regionSize
    ensures Arranged(bases, n, prologue, size, region, regionSize)
  {
    forall i | 0 <= i < n ensures Inside(bases[i], prologue, size, region, regionSize) {
      assert Inside(bases[i], prologue, size, region, off);
    }
  }

  /** A total that does not wrap is what the check compares. */
  lemma {:induction false} TooLongIs(n: nat, size: nat, prologue: nat, regionSize: nat)
    ensures n * (size + prologue) < WORD64 ==> (TooLong(n, size, prologue, regionSize) <==> n * (size + prologue) > regionSize)
  {
    var step := size + prologue;
    if n > 0 && n * step < WORD64 {
      assert step < WORD64 by { if step >= WORD64 { Fits(0, n, step); } }
    }
  }

  /** One more buffer of a total that fits: nothing wraps, and it is aligned. */
  lemma {:induction false} StepFits(i: nat, n: nat, size: nat, prologue: nat, off: nat, region: nat, regionSize: nat, align: nat)
    requires i < n && off == i * (size + prologue) && n * (size + prologue) <= regionSize && region + regionSize <= WORD64
    requires region > 0 && size > 0 && Aligned(off, align) && Aligned(region, align) && Aligned(size, align) && Aligned(prologue, align)
    ensures off + size + prologue == (i + 1) * (size + prologue) <= regionSize
    ensures (off + size + prologue) % WORD64 == off + size + prologue && (region + off + prologue) % WORD64 == region + off + prologue
    ensures Aligned(off + size + prologue, align) && Aligned(region + off, align) && Aligned(region + off + prologue, align)
  {
    Fits(i, n, size + prologue);
    AlignedSum(region, off, align);
    AlignedSum(region + off, prologue, align);
    AlignedSum(size, prologue, align);
    AlignedSum(off, size + prologue, align);
  }

  lemma {:induction false} Fits(i: nat, n: nat, step: nat)
    requires i < n
    ensures (i + 1) * step == i * step + step <= n * step
  {
    if i + 1 < n {
      Fits(i, n - 1, step);
      assert n * step == (n - 1) * step + step;
    }
  }
}

/** Runs of the small allocator: whole sequences of allocations and releases, and what goes wrong when offsets wrap. */
module VBasicRun {
  import opened Common
  import opened BitRuns
  import opened VBasic
  import Words

  datatype Request = Allocate(size: nat) | Release(ptr: nat)

  /** The live pointers after a request, given its reply: the pointer, or 0 for a failure. */
  function LiveAfter(live: map<nat, nat>, r: Request, reply: nat): map<nat, nat> {
    match r
    case Allocate(size) => if reply == 0 then live else live[reply := size]
    case Release(ptr) => live - {ptr}
  }

  function Live(requests: seq<Request>, replies: seq<nat>): map<nat, nat>
    requires |requests| == |replies|
    decreases |requests|
  {
    var n := |requests| - 1;
    if n < 0 then map[] else LiveAfter(Live(requests[..n], replies[..n]), requests[n], replies[n])
  }

  function IndexOf(l: Layout, ptr: nat): nat { if l.unit > 0 && ptr >= l.base then (ptr - l.base) / l.unit else 0 }

  /** The live pointers are the addresses of the live blocks, which are as long as the sizes call for. */
  ghost predicate Matches(at: nat -> nat, index: nat -> nat, units: nat -> nat, blocks: Blocks, live: map<nat, nat>) {
    && (forall p | p in live ::
          live[p] > 0 && index(p) in blocks && at(index(p)) == p && blocks[index(p)] == units(live[p]))
    && (forall i | i in blocks :: at(i) in live)
  }

  function AddressIn(l: Layout): nat -> nat { (i: nat) => Address(l, i) }

  function IndexIn(l: Layout): nat -> nat { (ptr: nat) => IndexOf(l, ptr) }

  function UnitsIn(l: Layout): nat -> nat { (size: nat) => if l.unit > 0 then Units(size, l.unit) else 0 }

  ghost predicate Serves(a: Allocator, live: map<nat, nat>)
    reads a
  { Matches(AddressIn(a.Map()), IndexIn(a.Map()), UnitsIn(a.Map()), a.live, live) }

  /** Where the live pointer lies: the bytes of its units, aligned and in the region. */
  predicate InPlace(l: Layout, ptr: nat, size: nat)
    requires l.unit > 0 && l.alignment > 0
  {
    && l.base <= ptr && ptr % l.alignment == 0 && ptr + Units(size, l.unit) * l.unit <= l.base + l.size
    && (Ceiling(size, l.unit) < WORD32 ==> size <= Units(size, l.unit) * l.unit)
  }

  /** Live pointers are aligned and have bytes of their own in the region. */
  ghost predicate Separate(l: Layout, live: map<nat, nat>)
    requires l.unit > 0 && l.alignment > 0
  {
    && (forall p | p in live :: InPlace(l, p, live[p]))
    && (forall p, q | p in live && q in live && p < q :: p + Units(live[p], l.unit) * l.unit <= q)
  }

  lemma {:induction false} IndexIs(l: Layout, i: nat)
    requires LayoutOk(l) && Reaches(l) && i < l.nunits
    ensures IndexOf(l, Address(l, i)) == i && Address(l, i) >= l.base && (Address(l, i) - l.base) % l.unit == 0
  {
    AddressIs(l, i);
    Words.QuotientIs(i * l.unit, l.unit, i, 0);
  }

  lemma {:induction false} LivePointer(a: Allocator, live: map<nat, nat>, ptr: nat)
    requires a.Valid() && Reaches(a.Map()) && Serves(a, live) && ptr in live
    ensures a.IsLive(ptr, live[ptr]) && InPlace(a.Map(), ptr, live[ptr]) && ptr < a.regionPtr + a.regionSize
    ensures IndexOf(a.Map(), ptr) in a.live && Address(a.Map(), IndexOf(a.Map(), ptr)) == ptr
    ensures a.live[IndexOf(a.Map(), ptr)] == Units(live[ptr], a.unitSize)
  {
    var l := a.Map();
    var i := IndexOf(l, ptr);
    assert IndexIn(l)(ptr) == i && AddressIn(l)(i) == ptr;
    assert UnitsIn(l)(live[ptr]) == a.live[i];
    IndexIs(l, i);
    BlockPlaced(l, i, a.live[i]);
    UnitsCover(live[ptr], l.unit);
    BlocksApart(l.unit, 0, 1, a.live[i]);
  }

  lemma {:induction false} PointersApart(a: Allocator, live: map<nat, nat>, p: nat, q: nat)
    requires a.Valid() && Reaches(a.Map()) && Serves(a, live) && p in live && q in live && p < q
    ensures p + Units(live[p], a.unitSize) * a.unitSize <= q
  {
    var l := a.Map();
    LivePointer(a, live, p);
    LivePointer(a, live, q);
    IndicesApart(l, a.bitmap, a.live, IndexOf(l, p), IndexOf(l, q));
  }

  lemma {:induction false} IndicesApart(l: Layout, b: Field, blocks: Blocks, i: nat, k: nat)
    requires LayoutOk(l) && Reaches(l) && Accounts(b, l.nunits, blocks) && i in blocks && k in blocks && Address(l, i) < Address(l, k)
    ensures Address(l, i) + blocks[i] * l.unit <= Address(l, k)
  {
    if k < i {
      TwoApart(l, k, blocks[k], i);
    } else {
      TwoApart(l, i, blocks[i], k);
    }
  }

  lemma {:induction false} AllSeparate(a: Allocator, live: map<nat, nat>)
    requires a.Valid() && Reaches(a.Map()) && Serves(a, live)
    ensures Separate(a.Map(), live)
  {
    forall p | p in live ensures InPlace(a.Map(), p, live[p]) { LivePointer(a, live, p); }
    forall p, q | p in live && q in live && p < q ensures p + Units(live[p], a.unitSize) * a.unitSize <= q {
      PointersApart(a, live, p, q);
    }
  }

  // Which requests succeed.

  /** The n units from unit j on are no live pointer's. */
  predicate Vacant(l: Layout, live: map<nat, nat>, j: nat, n: nat) {
    forall p | p in live :: IndexIn(l)(p) + UnitsIn(l)(live[p]) <= j || j + n <= IndexIn(l)(p)
  }

  /** Somewhere there are n units in a row that no live pointer has. */
  ghost predicate Room(l: Layout, live: map<nat, nat>, n: nat) {
    exists j: nat :: j + n <= l.nunits && Vacant(l, live, j, n)
  }

  /** No block has any of the n units from unit j on. */
  predicate Clear(blocks: Blocks, j: nat, n: nat) { forall i | i in blocks :: i + blocks[i] <= j || j + n <= i }

  lemma {:induction false} ClearIsFree(b: Field, nunits: nat, blocks: Blocks, j: nat, n: nat)
    requires Accounts(b, nunits, blocks) && n > 0
    ensures FreeRun(b, j, n) <==> j + n <= nunits && Clear(blocks, j, n)
  {
    if FreeRun(b, j, n) {
      assert !b[j + n - 1];
      forall i | i in blocks ensures i + blocks[i] <= j || j + n <= i {
        if i < j + n && j < i + blocks[i] { LiveUsed(b, nunits, blocks, i, if i < j then j else i); }
      }
    }
    if j + n <= nunits && Clear(blocks, j, n) {
      forall u | j <= u < j + n ensures !b[u] { assert !Covered(blocks, u); }
    }
  }

  lemma {:induction false} VacantIsClear(at: nat -> nat, index: nat -> nat, units: nat -> nat, blocks: Blocks, live: map<nat, nat>, j: nat, n: nat)
    requires Matches(at, index, units, blocks, live) && forall i | i in blocks :: index(at(i)) == i
    ensures Clear(blocks, j, n) <==> forall p | p in live :: index(p) + units(live[p]) <= j || j + n <= index(p)
  {
    if forall p | p in live :: index(p) + units(live[p]) <= j || j + n <= index(p) {
      forall i | i in blocks ensures i + blocks[i] <= j || j + n <= i { assert at(i) in live; }
    }
  }

  lemma {:induction false} VacantIsFree(l: Layout, b: Field, blocks: Blocks, live: map<nat, nat>, j: nat, n: nat)
    requires LayoutOk(l) && Reaches(l) && Accounts(b, l.nunits, blocks) && n > 0
    requires Matches(AddressIn(l), IndexIn(l), UnitsIn(l), blocks, live)
    ensures FreeRun(b, j, n) <==> j + n <= l.nunits && Vacant(l, live, j, n)
  {
    ClearIsFree(b, l.nunits, blocks, j, n);
    forall i | i in blocks ensures IndexIn(l)(AddressIn(l)(i)) == i { IndexIs(l, i); }
    VacantIsClear(AddressIn(l), IndexIn(l), UnitsIn(l), blocks, live, j, n);
  }

  lemma {:induction false} Succeeds(l: Layout, b: Field, blocks: Blocks, live: map<nat, nat>, n: nat)
    requires LayoutOk(l) && Reaches(l) && Accounts(b, l.nunits, blocks)
    requires Matches(AddressIn(l), IndexIn(l), UnitsIn(l), blocks, live)
    ensures MallocCode(b, n) == 0 <==> n > 0 && Room(l, live, n)
  {
    if n > 0 {
      FirstFitIs(b, n, 0);
      if FirstFit(b, n, 0).Some? { VacantIsFree(l, b, blocks, live, FirstFit(b, n, 0).value, n); }
      if j: nat :| j + n <= l.nunits && Vacant(l, live, j, n) { VacantIsFree(l, b, blocks, live, j, n); }
    }
  }

  /** An allocation gives a pointer that is not live, and fails only when there is no room. */
  ghost predicate AnswerFits(l: Layout, live: map<nat, nat>, r: Request, reply: nat) {
    r.Allocate? ==>
      && reply !in live
      && (reply != 0 <==> r.size > 0 && UnitsIn(l)(r.size) > 0 && Room(l, live, UnitsIn(l)(r.size)))
  }

  ghost predicate Answered(l: Layout, requests: seq<Request>, replies: seq<nat>, i: nat) {
    i < |replies| && i < |requests| ==> AnswerFits(l, Live(requests[..i], replies[..i]), requests[i], replies[i])
  }

  /** Any run of requests on an allocator without live blocks. What is no live pointer is not freed. Live pointers
      have bytes of their own, a pointer that is handed out was not live, and an allocation fails only when no run of
      units without a live pointer is long enough. */
  method Run(a: Allocator, requests: seq<Request>) returns (replies: seq<nat>)
    requires a.Valid() && a.live == map[] && Reaches(a.Map()) && a.regionPtr + a.regionSize <= WORD64
    requires forall i | 0 <= i < |requests| && requests[i].Allocate? :: requests[i].size < WORD64
    modifies a
    ensures a.Valid() && a.Map() == old(a.Map()) && |replies| == |requests|
    ensures Serves(a, Live(requests, replies)) && Separate(a.Map(), Live(requests, replies))
    ensures forall i: nat | i < |requests| :: Answered(a.Map(), requests, replies, i)
  {
    var live: map<nat, nat> := map[];
    replies := [];
    var i := 0;
    while i < |requests|
      invariant i <= |requests| && |replies| == i && a.Valid() && a.Map() == old(a.Map()) && Serves(a, live)
      invariant forall p | p in live :: live[p] < WORD64
      invariant live == Live(requests[..i], replies)
      invariant forall k: nat | k < i :: Answered(a.Map(), requests, replies, k)
    {
      var reply := Serve(a, requests[i], live);
      LiveNext(a.Map(), requests, replies, i, reply);
      live := LiveAfter(live, requests[i], reply);
      replies := replies + [reply];
      i := i + 1;
    }
    assert requests[..i] == requests;
    AllSeparate(a, live);
  }

  lemma {:induction false} LiveNext(l: Layout, requests: seq<Request>, replies: seq<nat>, i: nat, reply: nat)
    requires |replies| == i < |requests|
    ensures Live(requests[..i + 1], replies + [reply]) == LiveAfter(Live(requests[..i], replies), requests[i], reply)
    ensures forall k: nat | k < i && Answered(l, requests, replies, k) :: Answered(l, requests, replies + [reply], k)
    ensures AnswerFits(l, Live(requests[..i], replies), requests[i], reply) ==> Answered(l, requests, replies + [reply], i)
  {
    assert requests[..i + 1][..i] == requests[..i] && (replies + [reply])[..i] == replies;
    forall k: nat | k < i && Answered(l, requests, replies, k) ensures Answered(l, requests, replies + [reply], k) {
      assert (replies + [reply])[..k] == replies[..k];
    }
  }

  method Serve(a: Allocator, r: Request, live: map<nat, nat>) returns (reply: nat)
    requires a.Valid() && Reaches(a.Map()) && a.regionPtr + a.regionSize <= WORD64 && Serves(a, live)
    requires (r.Allocate? ==> r.size < WORD64) && forall p | p in live :: live[p] < WORD64
    modifies a
    ensures a.Valid() && a.Map() == old(a.Map()) && Serves(a, LiveAfter(live, r, reply))
    ensures AnswerFits(a.Map(), live, r, reply)
  {
    reply := 0;
    match r
    case Allocate(size) => reply := Allocation(a, size, live);
    case Release(ptr) =>
      if ptr in live { Deallocation(a, ptr, live); } else { assert live - {ptr} == live; }
  }

  method Allocation(a: Allocator, size: nat, live: map<nat, nat>) returns (ptr: nat)
    requires a.Valid() && Reaches(a.Map()) && size < WORD64 && Serves(a, live)
    modifies a
    ensures a.Valid() && a.Map() == old(a.Map()) && Serves(a, LiveAfter(live, Allocate(size), ptr))
    ensures AnswerFits(a.Map(), live, Allocate(size), ptr)
  {
    ghost var before, l := a.live, a.Map();
    Succeeds(l, a.bitmap, before, live, Units(size, a.unitSize));
    ghost var i, n;
    ptr, i, n := NewBlock(a, size);
    if ptr == 0 {
      NullNotLive(a, live);
    } else {
      Taking(AddressIn(l), IndexIn(l), UnitsIn(l), before, live, i, n, ptr, size);
    }
  }

  method NewBlock(a: Allocator, size: nat) returns (ptr: nat, ghost i: nat, ghost n: nat)
    requires a.Valid() && Reaches(a.Map()) && size < WORD64
    modifies a
    ensures a.Valid() && a.Map() == old(a.Map())
    ensures ptr != 0 <==> size > 0 && MallocCode(old(a.bitmap), Units(size, a.unitSize)) == 0
    ensures ptr == 0 ==> a.live == old(a.live)
    ensures ptr != 0 ==> i !in old(a.live) && a.live == old(a.live)[i := n] && n == Units(size, a.unitSize)
    ensures ptr != 0 ==> ptr == Address(a.Map(), i) && IndexOf(a.Map(), ptr) == i
  {
    i, n := 0, Units(size, a.unitSize);
    var rc;
    rc, ptr := a.Malloc(size);
    if rc != 0 {
      ptr := 0;
    } else {
      i := FirstFit(old(a.bitmap), n, 0).value;
      IndexIs(a.Map(), i);
    }
  }

  lemma {:induction false} NullNotLive(a: Allocator, live: map<nat, nat>)
    requires a.Valid() && Serves(a, live)
    ensures 0 !in live
  {
    var l := a.Map();
    assert AddressIn(l)(IndexIn(l)(0)) > 0;
  }

  /** A block has been added, at the index of the new pointer. */
  lemma {:induction false} Taking(at: nat -> nat, index: nat -> nat, units: nat -> nat, blocks: Blocks, live: map<nat, nat>,
                                  i: nat, n: nat, ptr: nat, size: nat)
    requires Matches(at, index, units, blocks, live) && i !in blocks
    requires ptr == at(i) && index(ptr) == i && n == units(size) && size > 0
    ensures ptr !in live && Matches(at, index, units, blocks[i := n], live[ptr := size])
  {}

  method Deallocation(a: Allocator, ptr: nat, live: map<nat, nat>)
    requires a.Valid() && Reaches(a.Map()) && a.regionPtr + a.regionSize <= WORD64 && Serves(a, live) && ptr in live
    requires live[ptr] < WORD64
    modifies a
    ensures a.Valid() && a.Map() == old(a.Map()) && Serves(a, live - {ptr})
  {
    ghost var before, l := a.live, a.Map();
    LivePointer(a, live, ptr);
    forall k | k in before ensures IndexIn(l)(AddressIn(l)(k)) == k { IndexIs(l, k); }
    Dropping(AddressIn(l), IndexIn(l), UnitsIn(l), before, live, ptr);
    FreeBlock(a, ptr, live[ptr]);
  }

  method FreeBlock(a: Allocator, ptr: nat, size: nat)
    requires a.Valid() && a.IsLive(ptr, size) && size < WORD64 && ptr < WORD64
    modifies a
    ensures a.Valid() && a.Map() == old(a.Map()) && a.live == old(a.live) - {IndexOf(a.Map(), ptr)}
  {
    var rc := a.Free(ptr, size);
  }

  lemma {:induction false} Dropping(at: nat -> nat, index: nat -> nat, units: nat -> nat, blocks: Blocks, live: map<nat, nat>, ptr: nat)
    requires Matches(at, index, units, blocks, live) && ptr in live && forall k | k in blocks :: index(at(k)) == k
    ensures Matches(at, index, units, blocks - {index(ptr)}, live - {ptr})
  {}

  // Offsets that wrap.

  /** The first k units, one block each. */
  ghost predicate Singles(live: Blocks, k: nat) { forall i: nat :: (i in live <==> i < k) && (i in live ==> live[i] == 1) }

  lemma {:induction false} NextSingle(b: Field, nunits: nat, live: Blocks, k: nat)
    requires Accounts(b, nunits, live) && Singles(live, k) && k < nunits
    ensures FirstFit(b, 1, 0) == Some(k)
  {
    FirstFitIs(b, 1, 0);
    assert FreeRun(b, k, 1) by { assert !Covered(live, k); }
    forall i: nat | i < k ensures !FreeRun(b, i, 1) { LiveUsed(b, nunits, live, i, i); }
  }

  lemma {:induction false} OneUnit(unit: nat)
    requires unit > 0
    ensures Units(unit, unit) == 1
  {
    Words.QuotientIs(unit, unit, 1, 0);
  }

  /** Allocates so many blocks of one unit. */
  method AllocateSingles(a: Allocator, k: nat) returns (last: nat)
    requires a.Valid() && a.live == map[] && 0 < k <= a.nunits
    modifies a
    ensures a.Valid() && a.Map() == old(a.Map()) && Singles(a.live, k) && last == Address(a.Map(), k - 1)
  {
    OneUnit(a.unitSize);
    var i := 0;
    last := 0;
    while i < k
      invariant i <= k && a.Valid() && a.Map() == old(a.Map()) && Singles(a.live, i)
      invariant i > 0 ==> last == Address(a.Map(), i - 1)
    {
      NextSingle(a.bitmap, a.nunits, a.live, i);
      var rc;
      rc, last := a.Malloc(a.unitSize);
      i := i + 1;
    }
  }

  /** When offsets wrap, filling up an allocator unit by unit gives two live blocks whose bytes overlap. */
  method Overlap(a: Allocator) returns (first: nat, last: nat, k: nat)
    requires a.Valid() && a.live == map[] && !Reaches(a.Map())
    modifies a
    ensures a.Valid() && a.Map() == old(a.Map()) && k == FirstWrapped(a.unitSize) > 0 && Singles(a.live, k + 1)
    ensures first == Address(a.Map(), 0) && last == Address(a.Map(), k) && first <= last < first + a.unitSize
    ensures last - first == k * a.unitSize - WORD32
  {
    FirstWrappedIs(a.Map());
    first, k := a.regionPtr, FirstWrapped(a.unitSize);
    last := AllocateSingles(a, k + 1);
  }

  lemma {:induction false} HalfWord()
    ensures FirstWrapped(0x8000_0000) == 2
  {}

  /** Three units of 2^31 bytes: the first and the third block that are live have one address. */
  method SameAddress() returns (a: Allocator, first: nat, last: nat)
    ensures a.Valid() && 0 in a.live && 2 in a.live && first == last
    ensures first == Address(a.Map(), 0) && last == Address(a.Map(), 2)
  {
    a := new Allocator(0x1000);
    AlignUpIs(0x1000, 1);
    assert OnesIn(1) == 1;
    assert UnitCount(0x1_8000_0000, 0x8000_0000) == 3;
    var rc := a.InitAligned(0x1_8000_0000, 0x8000_0000, 1);
    assert a.nunits == 3 && !Reaches(a.Map());
    HalfWord();
    var k;
    first, last, k := Overlap(a);
  }
}

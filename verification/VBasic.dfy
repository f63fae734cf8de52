/** The small allocator that hands out runs of units of a region, with one bit for each unit. */
module VBasic {
  import opened Common
  import opened BitRuns
  import Words

  const WORD32: nat := Words.WORD32
  const WORD64: nat := Words.WORD64

  /** Regions have a 57-bit size. */
  const REGION_MAX: nat := 0x1ff_ffff_ffff_ffff

  // Sizes in units.

  /** The number of units that hold a size. */
  function Ceiling(size: nat, unit: nat): nat
    requires unit > 0
  { size / unit + if size % unit != 0 then 1 else 0 }

  /** That number as an unsigned int. */
  function Units(size: nat, unit: nat): nat
    requires unit > 0
  { Ceiling(size, unit) % WORD32 }

  lemma {:induction false} CeilingIs(size: nat, unit: nat)
    requires unit > 0 && size > 0
    ensures var n := Ceiling(size, unit);
            n > 0 && (n - 1) * unit < size <= n * unit
  {
    var q, r := size / unit, size % unit;
    assert size == q * unit + r;
    assert (q + 1) * unit == q * unit + unit;
    if q > 0 { assert (q - 1) * unit == q * unit - unit; }
  }

  lemma {:induction false} MultiplyMono(a: nat, b: nat, c: nat)
    requires a <= b
    ensures a * c <= b * c
  {
    if a < b {
      MultiplyMono(a, b - 1, c);
      assert b * c == (b - 1) * c + c;
    }
  }

  /** The units cover the size exactly when their number fits an unsigned int. */
  lemma {:induction false} UnitsCover(size: nat, unit: nat)
    requires unit > 0 && size > 0
    ensures Units(size, unit) * unit >= size <==> Ceiling(size, unit) < WORD32
  {
    var n := Ceiling(size, unit);
    CeilingIs(size, unit);
    if n >= WORD32 {
      MultiplyMono(n % WORD32, n - 1, unit);
    }
  }

  // Alignments.

  function OnesIn(x: nat): nat { if x == 0 then 0 else x % 2 + OnesIn(x / 2) }

  /** A number with a single one bit is a power of two. */
  lemma {:induction false} OneBit(x: nat)
    ensures OnesIn(x) == 1 <==> exists k: nat :: x == Words.Pow2(k)
  {
    if x == 0 {
      assert forall k: nat :: Words.Pow2(k) > 0;
    } else if x % 2 == 1 {
      NoBits(x / 2);
      assert OnesIn(x) == 1 + OnesIn(x / 2);
      if x == 1 { assert x == Words.Pow2(0); }
      if k: nat :| x == Words.Pow2(k) { OddPower(k); }
    } else {
      OneBit(x / 2);
      assert OnesIn(x) == OnesIn(x / 2);
      if k: nat :| x / 2 == Words.Pow2(k) { assert x == Words.Pow2(k + 1); }
      if k: nat :| x == Words.Pow2(k) {
        OddPower(k);
        assert x / 2 == Words.Pow2(k - 1);
      }
    }
  }

  lemma {:induction false} OddPower(k: nat)
    ensures if k == 0 then Words.Pow2(k) == 1 else Words.Pow2(k) % 2 == 0 && Words.Pow2(k) / 2 == Words.Pow2(k - 1)
  {
    if k > 0 { Words.QuotientIs(Words.Pow2(k), 2, Words.Pow2(k - 1), 0); }
  }

  lemma {:induction false} NoBits(x: nat)
    ensures OnesIn(x) == 0 <==> x == 0
  {
    if x > 0 { NoBits(x / 2); }
  }

  function AlignUp(x: nat, alignment: nat): nat
    requires alignment > 0
  { (x + (alignment - 1)) / alignment * alignment }

  lemma {:induction false} AlignUpIs(x: nat, alignment: nat)
    requires alignment > 0
    ensures AlignUp(x, alignment) % alignment == 0 && x <= AlignUp(x, alignment) < x + alignment
  {
    var y := x + (alignment - 1);
    var q := y / alignment;
    assert y == q * alignment + y % alignment;
    MultipleOf(q, alignment);
  }

  lemma {:induction false} MultipleOf(q: nat, a: nat)
    requires a > 0
    ensures q * a % a == 0
  {
    Words.QuotientIs(q * a, a, q, 0);
  }

  // Blocks.

  /** The blocks handed out: the first unit of each, and its number of units. */
  type Blocks = map<nat, nat>

  ghost predicate Covered(live: Blocks, j: nat) { exists i :: i in live && Inside(live, i, j) }

  predicate Inside(live: Blocks, i: nat, j: nat)
    requires i in live
  { i <= j < i + live[i] }

  /** The blocks are disjoint runs of the first nunits units, and these and the missing units are
      the bits in use. */
  ghost predicate Accounts(b: Field, nunits: nat, live: Blocks) {
    && nunits <= FIELD
    && (forall i | i in live :: 0 < live[i] && i + live[i] <= nunits)
    && (forall i, k | i in live && k in live && i < k :: i + live[i] <= k)
    && (forall j: nat | j < FIELD :: b[j] <==> j >= nunits || Covered(live, j))
  }

  lemma {:induction false} LiveUsed(b: Field, nunits: nat, live: Blocks, i: nat, j: nat)
    requires Accounts(b, nunits, live) && i in live && Inside(live, i, j)
    ensures j < nunits && b[j]
  {
    assert Covered(live, j);
  }

  lemma {:induction false} TakeAccounts(b: Field, nunits: nat, live: Blocks, i: nat, n: nat)
    requires Accounts(b, nunits, live) && 0 < n && FreeRun(b, i, n)
    ensures i !in live && Accounts(Taken(b, i, n), nunits, live[i := n])
  {
    var after := live[i := n];
    if i in live { LiveUsed(b, nunits, live, i, i); }
    forall k | k in live ensures k + live[k] <= i || i + n <= k {
      if k < i + n && i < k + live[k] { LiveUsed(b, nunits, live, k, if k < i then i else k); }
    }
    assert !b[i + n - 1];
    forall j: nat | j < FIELD ensures Taken(b, i, n)[j] <==> j >= nunits || Covered(after, j) {
      if k :| k in live && Inside(live, k, j) { assert Inside(after, k, j); }
      if i <= j < i + n { assert Inside(after, i, j); }
      if k :| k in after && Inside(after, k, j) { assert k != i ==> Inside(live, k, j); }
    }
  }

  lemma {:induction false} ClearAccounts(b: Field, nunits: nat, live: Blocks, i: nat)
    requires Accounts(b, nunits, live) && i in live
    ensures UsedRun(b, i, live[i]) && Accounts(Cleared(b, i, live[i]), nunits, live - {i})
  {
    var n, after := live[i], live - {i};
    forall j | i <= j < i + n ensures b[j] { LiveUsed(b, nunits, live, i, j); }
    forall j: nat | j < FIELD ensures Cleared(b, i, n)[j] <==> j >= nunits || Covered(after, j) {
      if k :| k in live && Inside(live, k, j) { assert k != i ==> k in after && Inside(after, k, j); }
      if k :| k in after && Inside(after, k, j) { assert Inside(live, k, j); }
    }
  }

  // Addresses.

  /** What is added to the region's address: the product of an int and a 32-bit unit size. */
  function Displacement(offset: nat, unit: nat): nat { offset * unit % WORD32 }

  /** Every unit is where it should be exactly when the last one is within the reach of 32 bits. */
  lemma {:induction false} DisplacementExact(nunits: nat, unit: nat)
    requires 0 < nunits
    ensures (forall i: nat | i < nunits :: Displacement(i, unit) == i * unit) <==> (nunits - 1) * unit < WORD32
  {
    if (nunits - 1) * unit < WORD32 {
      forall i: nat | i < nunits ensures Displacement(i, unit) == i * unit {
        MultiplyMono(i, nunits - 1, unit);
      }
    } else {
      assert Displacement(nunits - 1, unit) < WORD32;
    }
  }

  lemma {:induction false} BlocksApart(unit: nat, i: nat, n: nat, k: nat)
    requires i + n <= k
    ensures i * unit + n * unit <= k * unit
  {
    assert i * unit + n * unit == (i + n) * unit;
    MultiplyMono(i + n, k, unit);
  }

  // Bytes.

  /** Where the units of an allocator lie. */
  datatype Layout = Layout(base: nat, size: nat, alignment: nat, unit: nat, nunits: nat)

  predicate LayoutOk(l: Layout) {
    && 0 < l.unit < WORD32 && 0 < l.alignment && l.unit % l.alignment == 0 && l.base % l.alignment == 0
    && 0 < l.nunits && l.nunits * l.unit <= l.size
  }

  /** No offset of a unit wraps. */
  predicate Reaches(l: Layout) { (l.nunits - 1) * l.unit < WORD32 }

  function Address(l: Layout, i: nat): nat { l.base + Displacement(i, l.unit) }

  /** The bytes of the block are in the region, and its address is aligned. */
  predicate Placed(l: Layout, i: nat, n: nat)
    requires l.alignment > 0
  { Address(l, i) % l.alignment == 0 && Address(l, i) + n * l.unit <= l.base + l.size }

  /** The bytes of the two blocks do not overlap. */
  predicate Apart(l: Layout, i: nat, n: nat, k: nat, m: nat) {
    Address(l, i) + n * l.unit <= Address(l, k) || Address(l, k) + m * l.unit <= Address(l, i)
  }

  /** Live blocks are aligned, in the region, and disjoint, byte for byte. */
  ghost predicate Laid(l: Layout, live: Blocks)
    requires l.alignment > 0
  {
    && (forall i | i in live :: Placed(l, i, live[i]))
    && (forall i, k | i in live && k in live && i < k :: Apart(l, i, live[i], k, live[k]))
  }

  lemma {:induction false} AddressIs(l: Layout, i: nat)
    requires LayoutOk(l) && Reaches(l) && i < l.nunits
    ensures Address(l, i) == l.base + i * l.unit
  {
    DisplacementExact(l.nunits, l.unit);
    assert Displacement(i, l.unit) == i * l.unit;
  }

  lemma {:induction false} BlockPlaced(l: Layout, i: nat, n: nat)
    requires LayoutOk(l) && Reaches(l) && i + n <= l.nunits && n > 0
    ensures Placed(l, i, n)
  {
    AddressIs(l, i);
    BlocksApart(l.unit, i, n, l.nunits);
    AlignedAt(l.base, i, l.unit, l.alignment);
  }

  lemma {:induction false} AlignedAt(base: nat, i: nat, unit: nat, alignment: nat)
    requires alignment > 0 && base % alignment == 0 && unit % alignment == 0
    ensures (base + i * unit) % alignment == 0
  {
    var q, r := base / alignment, unit / alignment;
    assert base == alignment * q && unit == alignment * r;
    assert i * (alignment * r) == alignment * (i * r);
    Words.QuotientIs(base + i * unit, alignment, q + i * r, 0);
  }

  lemma {:induction false} TwoApart(l: Layout, i: nat, n: nat, k: nat)
    requires LayoutOk(l) && Reaches(l) && i + n <= k < l.nunits
    ensures Address(l, i) <= Address(l, i) + n * l.unit <= Address(l, k)
  {
    AddressIs(l, i);
    AddressIs(l, k);
    BlocksApart(l.unit, i, n, k);
    MultiplyMono(0, n, l.unit);
  }

  lemma {:induction false} LiveLaid(l: Layout, b: Field, live: Blocks)
    requires LayoutOk(l) && Reaches(l) && Accounts(b, l.nunits, live)
    ensures Laid(l, live)
  {
    forall i | i in live ensures Placed(l, i, live[i]) { BlockPlaced(l, i, live[i]); }
    forall i, k | i in live && k in live && i < k ensures Apart(l, i, live[i], k, live[k]) { TwoApart(l, i, live[i], k); }
  }

  lemma {:induction false} NothingLive(nunits: nat)
    requires nunits <= FIELD
    ensures Accounts(Mask(nunits, FIELD - nunits), nunits, map[])
  {}

  /** The first unit whose offset wraps: its bytes overlap those of the first unit of all. */
  function FirstWrapped(unit: nat): (k: nat)
    requires unit > 0
  { Ceiling(WORD32, unit) }

  lemma {:induction false} FirstWrappedIs(l: Layout)
    requires LayoutOk(l) && !Reaches(l)
    ensures 0 < FirstWrapped(l.unit) < l.nunits
    ensures Displacement(FirstWrapped(l.unit), l.unit) < l.unit
    ensures Displacement(FirstWrapped(l.unit), l.unit) == FirstWrapped(l.unit) * l.unit - WORD32
  {
    var k, u := FirstWrapped(l.unit), l.unit;
    CeilingIs(WORD32, u);
    if k > l.nunits - 1 { MultiplyMono(l.nunits - 1, k - 1, u); }
    assert k * u == (k - 1) * u + u;
    Words.QuotientIs(k * u, WORD32, 1, k * u - WORD32);
  }

  lemma {:induction false} Overlapping(l: Layout)
    requires LayoutOk(l) && l.nunits <= FIELD && !Reaches(l)
    ensures exists b, live :: Accounts(b, l.nunits, live) && !Laid(l, live)
  {
    var k := FirstWrapped(l.unit);
    FirstWrappedIs(l);
    var b0 := Mask(l.nunits, FIELD - l.nunits);
    NothingLive(l.nunits);
    TakeAccounts(b0, l.nunits, map[], 0, 1);
    var b1, live1 := Taken(b0, 0, 1), map[0 as nat := 1 as nat];
    assert live1 == map[][0 := 1];
    TakeAccounts(b1, l.nunits, live1, k, 1);
    var live2 := live1[k := 1];
    assert !Apart(l, 0, live2[0], k, live2[k]);
  }

  /** Whatever blocks are live, they are laid out properly: this holds exactly when no offset wraps. */
  lemma {:induction false} LaidExactly(l: Layout)
    requires LayoutOk(l) && l.nunits <= FIELD
    ensures (forall b, live | Accounts(b, l.nunits, live) :: Laid(l, live)) <==> Reaches(l)
  {
    if Reaches(l) {
      forall b, live | Accounts(b, l.nunits, live) ensures Laid(l, live) { LiveLaid(l, b, live); }
    } else {
      Overlapping(l);
    }
  }

  lemma {:induction false} DiffInside(diff: nat, unit: nat, nunits: nat)
    requires unit > 0 && diff % unit == 0 && diff / unit < nunits
    ensures diff < nunits * unit
  {
    var i := diff / unit;
    assert diff == i * unit;
    MultiplyMono(i + 1, nunits, unit);
    assert (i + 1) * unit == i * unit + unit;
  }

  /** The unit size asked for, or one of which about 64 fill the region. */
  function UnitOr(unit: nat, size: nat, alignment: nat): nat
    requires alignment > 0
  { if unit > 0 then unit else size / FIELD % WORD32 / alignment * alignment }

  /** The unit size that is derived is the greatest multiple of the alignment of which 64 fit into the region. The
      mask that rounds it down is 32 bits wide, so this holds up to 64 times 2^32 bytes. */
  lemma {:induction false} DerivedUnit(size: nat, alignment: nat)
    requires alignment > 0 && size / FIELD < WORD32
    ensures var u := UnitOr(0, size, alignment);
            u % alignment == 0 && FIELD * u <= size < FIELD * (u + alignment)
  {
    var n := size / FIELD;
    assert UnitOr(0, size, alignment) == n / alignment * alignment;
    assert n == n / alignment * alignment + n % alignment;
    MultipleOf(n / alignment, alignment);
  }

  /** The units of a region, as far as there are bits for them. */
  function UnitCount(size: nat, unit: nat): nat
    requires unit > 0
  { if size / unit % WORD32 > FIELD then FIELD else size / unit % WORD32 }

  class Allocator {
    const region: nat       // the address of the buffer
    var regionPtr: nat
    var regionSize: nat
    var unitSize: nat
    var alignment: nat
    var nunits: nat
    var bitmap: Field
    ghost var live: Blocks  // the blocks handed out and not yet freed

    ghost predicate Valid()
      reads this
    {
      && 0 < unitSize < WORD32 && 0 < alignment < WORD32 && unitSize % alignment == 0 && regionPtr % alignment == 0
      && 0 < region <= regionPtr && 0 < nunits && nunits * unitSize <= regionSize
      && Accounts(bitmap, nunits, live)
    }

    function Map(): (l: Layout)
      reads this
    { Layout(regionPtr, regionSize, alignment, unitSize, nunits) }

    constructor (address: nat)
      requires 0 < address
      ensures region == address
    {
      region := address;
      regionPtr, regionSize, unitSize, alignment, nunits := 0, 0, 0, 0, 0;
      bitmap, live := Mask(0, 0), map[];
    }

    /** Lays out the part of the buffer of the given size that is aligned. On success every unit lies
        in the buffer, and exactly the bits without a unit are in use. */
    method InitAligned(size: nat, unit: nat, align: nat) returns (rc: int)
      requires 0 < region && size < WORD64 && unit < WORD64 && align < WORD32
      modifies this
      ensures rc != 0 ==> unchanged(this)
      ensures size == 0 || align == 0 ==> rc == EINVAL
      ensures size > REGION_MAX && align > 0 ==> rc == E2BIG
      ensures 0 < size <= REGION_MAX && align > 0 && OnesIn(align) != 1 ==> rc == EDOM
      ensures rc == 0 ==> Valid() && live == map[] && alignment == align && bitmap == Mask(nunits, FIELD - nunits)
      ensures rc == 0 ==> regionPtr == AlignUp(region, align) && regionPtr + regionSize <= region + size
      ensures 0 < size <= REGION_MAX && align > 0 && OnesIn(align) == 1 && region + size <= AlignUp(region, align) ==> rc == ENOSPC
      ensures 0 < size <= REGION_MAX && align > 0 && OnesIn(align) == 1 && AlignUp(region, align) < region + size ==>
                var left := region + size - AlignUp(region, align);
                var u := UnitOr(unit, left, align);
                && rc == (if u == 0 || u >= WORD32 then EINVAL else if u < align then EOVERFLOW else if u % align != 0 then EDOM
                          else if UnitCount(left, u) == 0 then EINVAL else 0)
                && (rc == 0 ==> unitSize == u && nunits == UnitCount(left, u))
                && (rc == 0 ==> regionSize == if left / u % WORD32 > FIELD then FIELD * u else left)
    {
      if size == 0 || align == 0 { return EINVAL; }
      if size > REGION_MAX { return E2BIG; }
      if OnesIn(align) != 1 { return EDOM; }
      var aligned := AlignUp(region, align);
      AlignUpIs(region, align);
      var shifted := aligned - region;
      if shifted >= size { return ENOSPC; }
      var left, u := size - shifted, unit;
      if u == 0 {
        // the mask is 32 bits wide
        u := left / FIELD % WORD32 / align * align;
        assert u == UnitOr(unit, left, align);
      }
      if u == 0 || u > WORD32 - 1 { return EINVAL; }
      if u < align { return EOVERFLOW; }
      if u % align != 0 { return EDOM; }
      var n := left / u % WORD32;
      if n == 0 { return EINVAL; }
      unitSize, alignment, regionPtr, live := u, align, aligned, map[];
      UnitsFit(left, u);
      if n > FIELD {
        MultiplyMono(FIELD, n, u);
        n := FIELD;
        left := n * u;
      }
      bitmap := Mask(n, FIELD - n);
      regionSize, nunits := left, n;
      rc := 0;
    }

    /** A run of units for the size, the first that is free. */
    method Malloc(size: nat) returns (rc: int, ptr: nat)
      requires Valid() && size < WORD64
      modifies this
      ensures Valid() && regionPtr == old(regionPtr) && unitSize == old(unitSize) && nunits == old(nunits)
      ensures rc == if size == 0 then EINVAL else MallocCode(old(bitmap), Units(size, unitSize))
      ensures rc != 0 ==> unchanged(this)
      ensures rc == 0 ==>
                var n := Units(size, unitSize);
                var i := FirstFit(old(bitmap), n, 0).value;
                && live == old(live)[i := n] && i !in old(live) && bitmap == Taken(old(bitmap), i, n)
                && ptr == Address(Map(), i) && (Ceiling(size, unitSize) < WORD32 ==> size <= n * unitSize)
      ensures Map() == old(Map()) && (Reaches(Map()) ==> Laid(Map(), live))
    {
      ghost var l := Map();
      if Reaches(l) { LiveLaid(l, bitmap, live); }
      ptr := 0;
      if size == 0 { return EINVAL, 0; }
      var n := Units(size, unitSize);
      if n > FIELD { return E2BIG, 0; }
      var offset, after := Assign(bitmap, n);
      if offset < 0 { return offset, 0; }
      FirstFitIs(bitmap, n, 0);
      TakeAccounts(bitmap, nunits, live, offset, n);
      UnitsCover(size, unitSize);
      bitmap, live := after, live[offset := n];
      ptr := regionPtr + Displacement(offset, unitSize);
      rc := 0;
      if Reaches(l) { LiveLaid(l, bitmap, live); }
    }

    /** The block of this address and size is live. */
    ghost predicate IsLive(ptr: nat, size: nat)
      requires unitSize > 0
      reads this
    {
      && size > 0 && regionPtr <= ptr && (ptr - regionPtr) % unitSize == 0
      && (ptr - regionPtr) / unitSize in live
      && live[(ptr - regionPtr) / unitSize] == Units(size, unitSize)
    }

    lemma {:induction false} LiveInside(ptr: nat, size: nat)
      requires Valid() && IsLive(ptr, size)
      ensures ptr < regionPtr + regionSize && (ptr - regionPtr) / unitSize < nunits
      ensures UsedRun(bitmap, (ptr - regionPtr) / unitSize, Units(size, unitSize)) && 0 < Units(size, unitSize)
    {
      ClearAccounts(bitmap, nunits, live, (ptr - regionPtr) / unitSize);
      DiffInside(ptr - regionPtr, unitSize, nunits);
    }

    lemma {:induction false} LiveOffset(ptr: nat, size: nat)
      requires Valid() && IsLive(ptr, size)
      ensures 0 < ptr < regionPtr + regionSize
      ensures var i := (ptr - regionPtr) / unitSize; i % WORD32 == i && i in live && live[i] == Units(size, unitSize)
    {
      LiveInside(ptr, size);
    }

    /** Frees a run of units; for a live block and its size this succeeds and frees just that block. */
    method Free(ptr: nat, size: nat) returns (rc: int)
      requires Valid() && size < WORD64 && ptr < WORD64
      modifies this
      ensures Map() == old(Map())
      ensures old(IsLive(ptr, size)) ==> rc == 0 && Valid() && live == old(live) - {(ptr - regionPtr) / unitSize}
      ensures rc != 0 ==> unchanged(this)
      ensures rc == 0 ==>
                var i, n := (ptr - regionPtr) / unitSize % WORD32, Units(size, unitSize);
                UsedRun(old(bitmap), i, n) && bitmap == Cleared(old(bitmap), i, n)
      ensures rc == if ptr == 0 || size == 0 then EINVAL
                    else if ptr < regionPtr || ptr >= regionPtr + regionSize then ERANGE
                    else if (ptr - regionPtr) % unitSize != 0 then EFAULT
                    else FreeCode(old(bitmap), (ptr - regionPtr) / unitSize % WORD32, Units(size, unitSize))
    {
      ghost var wasLive := IsLive(ptr, size);
      if wasLive { LiveOffset(ptr, size); }
      if ptr == 0 || size == 0 { return EINVAL; }
      if ptr < regionPtr || ptr >= regionPtr + regionSize { return ERANGE; }
      var diff := ptr - regionPtr;
      if diff % unitSize != 0 { return EFAULT; }
      var offset, n := diff / unitSize % WORD32, Units(size, unitSize);
      rc := FreeRun(offset, n);
    }

    method FreeRun(offset: nat, n: nat) returns (rc: int)
      requires Valid()
      modifies this`bitmap, this`live
      ensures rc != 0 ==> unchanged(this)
      ensures rc == FreeCode(old(bitmap), offset, n)
      ensures rc == 0 ==> UsedRun(old(bitmap), offset, n) && bitmap == Cleared(old(bitmap), offset, n)
      ensures offset in old(live) && old(live)[offset] == n ==> rc == 0 && Valid() && live == old(live) - {offset}
    {
      var after;
      rc, after := Release(bitmap, offset, n);
      if offset in live && live[offset] == n {
        ClearAccounts(bitmap, nunits, live, offset);
        live := live - {offset};
      }
      bitmap := after;
    }

    /** Zero exactly when so many allocations of the size would all succeed, one after another, and
        exactly when the map has that many disjoint free runs. */
    method SpaceAvailNitems(size: nat, nitems: nat) returns (rc: int)
      requires Valid() && size < WORD64 && nitems < WORD64
      ensures size == 0 || nitems == 0 ==> rc == EINVAL
      ensures size > 0 && nitems > 0 ==>
                var n := Units(size, unitSize);
                && (rc == 0 <==> n > 0 && Assignments(bitmap, n, nitems).Some?)
                && (rc == 0 <==> n > 0 && exists p :: |p| == nitems && Packing(bitmap, n, 0, p))
                && rc in {0, if n * nitems % WORD64 > FIELD then E2BIG else if n == 0 || n > FIELD then EINVAL else ENOSPC}
    {
      if size == 0 || nitems == 0 { return EINVAL; }
      var n := Units(size, unitSize);
      if n > 0 { AssignmentsExist(bitmap, n, nitems); }
      if n * nitems % WORD64 > FIELD {
        TooMany(bitmap, n, nitems);
        return E2BIG;
      }
      rc := TryRuns(bitmap, n, nitems);
    }
  }

  /** Looks for k runs of n bits, each from the end of the last. */
  method TryRuns(b: Field, n: nat, k: nat) returns (rc: int)
    requires k > 0
    ensures rc == 0 <==> n > 0 && Greedy(b, n, k, 0).Some?
    ensures rc in {0, if n == 0 || n > FIELD then EINVAL else ENOSPC}
  {
    ghost var exist := Greedy(b, n, k, 0).Some?;
    var offset: nat := 0;
    var i: nat := 0;
    while i < k
      invariant i <= k && offset <= FIELD
      invariant exist == Greedy(b, n, k - i, offset).Some?
      invariant i > 0 ==> 0 < n <= FIELD
    {
      GreedyStep(b, n, k - i, offset);
      ghost var fit := FirstFit(b, n, offset);
      rc := AvailOffset(b, n, offset);
      assert rc == if n == 0 || n > FIELD then EINVAL else Found(fit);
      if rc < 0 { return; }
      offset := rc + n;
      i := i + 1;
    }
    rc := 0;
  }

  lemma {:induction false} GreedyStep(b: Field, n: nat, k: nat, from: nat)
    requires k > 0
    ensures FirstFit(b, n, from).None? ==> Greedy(b, n, k, from).None?
    ensures FirstFit(b, n, from).Some? ==>
              (Greedy(b, n, k, from).Some? <==> Greedy(b, n, k - 1, FirstFit(b, n, from).value + n).Some?)
    ensures n > FIELD ==> FirstFit(b, n, from).None?
  {}

  function FreeCode(b: Field, i: nat, n: nat): int {
    if n == 0 || n > FIELD || i >= FIELD || n + i > FIELD then EINVAL else if UsedRun(b, i, n) then 0 else EBADSLT
  }

  function MallocCode(b: Field, n: nat): int {
    if n > FIELD then E2BIG else if n == 0 then EINVAL
    else if FirstFit(b, n, 0).Some? then 0 else ENOSPC
  }

  /** What fits is within the size, even when its number is cut to 32 bits. */
  lemma {:induction false} UnitsFit(size: nat, unit: nat)
    requires unit > 0
    ensures size / unit % WORD32 * unit <= size
  {
    MultiplyMono(size / unit % WORD32, size / unit, unit);
  }

  /** Runs that need more bits than there are do not exist. */
  lemma {:induction false} PackingLength(b: Field, n: nat, from: nat, p: seq<nat>)
    requires Packing(b, n, from, p) && p != []
    ensures from + n * |p| <= FIELD
    decreases |p|
  {
    if |p| > 1 {
      PackingLength(b, n, p[0] + n, p[1..]);
      assert n * |p| == n + n * |p[1..]|;
    }
  }

  lemma {:induction false} TooMany(b: Field, n: nat, k: nat)
    requires k > 0 && n * k % WORD64 > FIELD
    ensures !exists p :: |p| == k && Packing(b, n, 0, p)
  {
    if p :| |p| == k && Packing(b, n, 0, p) { PackingLength(b, n, 0, p); }
  }

  // Runs of calls.

  /** So many allocations of one size, one after another, until one fails. */
  method AllocateMany(a: Allocator, size: nat, k: nat) returns (all: bool)
    requires a.Valid() && 0 < size < WORD64
    modifies a
    ensures a.Valid() && a.unitSize == old(a.unitSize)
    ensures k > 0 ==> (all <==> Units(size, a.unitSize) > 0 && Assignments(old(a.bitmap), Units(size, a.unitSize), k).Some?)
  {
    ghost var n, before := Units(size, a.unitSize), a.bitmap;
    var i := 0;
    while i < k
      invariant i <= k && a.Valid() && a.unitSize == old(a.unitSize) && (i > 0 ==> n > 0)
      invariant Assignments(before, n, k).Some? <==> Assignments(a.bitmap, n, k - i).Some?
    {
      var rc, ptr := a.Malloc(size);
      if rc != 0 { return false; }
      i := i + 1;
    }
    all := true;
  }

  lemma {:induction false} PointerOf(base: nat, ptr: nat, i: nat, unit: nat, nunits: nat)
    requires 0 < unit && i < nunits <= FIELD && (nunits - 1) * unit < WORD32 && ptr == base + Displacement(i, unit)
    ensures base <= ptr < base + WORD32 && i % WORD32 == i
    ensures (ptr - base) % unit == 0 && (ptr - base) / unit == i
  {
    DisplacementExact(nunits, unit);
    var d := ptr - base;
    assert d == i * unit;
    Words.QuotientIs(d, unit, i, 0);
  }

  /** Freeing the live block at this address gives this map and these blocks. */
  ghost predicate FreesTo(a: Allocator, before: Field, blocks: Blocks, ptr: nat, size: nat)
    requires a.unitSize > 0
    reads a
  {
    && a.IsLive(ptr, size)
    && var i := (ptr - a.regionPtr) / a.unitSize;
       i % WORD32 == i && a.live - {i} == blocks && Cleared(a.bitmap, i, Units(size, a.unitSize)) == before
  }

  lemma {:induction false} TakenIsLive(a: Allocator, before: Field, blocks: Blocks, ptr: nat, size: nat, i: nat, n: nat)
    requires a.unitSize > 0 && size > 0 && n == Units(size, a.unitSize) && i % WORD32 == i
    requires a.live == blocks[i := n] && blocks[i := n] - {i} == blocks && Cleared(a.bitmap, i, n) == before
    requires ptr >= a.regionPtr && (ptr - a.regionPtr) % a.unitSize == 0 && (ptr - a.regionPtr) / a.unitSize == i
    ensures FreesTo(a, before, blocks, ptr, size)
  {}

  lemma {:induction false} FirstTaken(before: Field, blocks: Blocks, nunits: nat, n: nat, i: nat)
    requires 0 < n && FirstFit(before, n, 0) == Some(i) && i !in blocks && Accounts(Taken(before, i, n), nunits, blocks[i := n])
    ensures i < nunits <= FIELD && Cleared(Taken(before, i, n), i, n) == before && blocks[i := n] - {i} == blocks
  {
    FirstFitIs(before, n, 0);
    TakenCleared(before, i, n);
    LiveUsed(Taken(before, i, n), nunits, blocks[i := n], i, i);
  }

  /** An allocation that is freed at once leaves everything as it was. */
  method AllocateAndFree(a: Allocator, size: nat) returns (rc: int)
    requires a.Valid() && size < WORD64 && (a.nunits - 1) * a.unitSize < WORD32 && a.regionPtr + WORD32 <= WORD64
    modifies a
    ensures a.Valid() && a.bitmap == old(a.bitmap) && a.live == old(a.live)
    ensures rc == if size == 0 then EINVAL else MallocCode(old(a.bitmap), Units(size, a.unitSize))
  {
    ghost var before, blocks := a.bitmap, a.live;
    var ptr;
    rc, ptr := a.Malloc(size);
    if rc == 0 {
      ghost var n := Units(size, a.unitSize);
      ghost var i := FirstFit(before, n, 0).value;
      FirstTaken(before, blocks, a.nunits, n, i);
      PointerOf(a.regionPtr, ptr, i, a.unitSize, a.nunits);
      TakenIsLive(a, before, blocks, ptr, size, i, n);
      FreeTaken(a, before, blocks, ptr, size);
    }
  }

  method FreeTaken(a: Allocator, ghost before: Field, ghost blocks: Blocks, ptr: nat, size: nat)
    requires a.Valid() && size < WORD64 && ptr < WORD64 && FreesTo(a, before, blocks, ptr, size)
    modifies a
    ensures a.Valid() && a.bitmap == before && a.live == blocks && a.unitSize == old(a.unitSize)
  {
    var rc := a.Free(ptr, size);
  }
}

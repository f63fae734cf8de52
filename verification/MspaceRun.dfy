/** Whole runs of allocations and releases, and what they mean for the bytes handed out. */
module MspaceRun {
  import opened Segment
  import opened HeapState
  import opened BinIndex
  import opened Mspace
  import Words

  datatype Request = Allocate(bytes: nat, grant: nat) | Release(mem: int)

  /** The pointers handed out and not yet freed, with the sizes asked for: one for each chunk in use. */
  ghost predicate Serves(g: Seg, live: map<int, nat>) {
    && (forall p | p in Used(g) :: p + 16 in live)
    && AllGranted(g, live)
  }

  ghost predicate AllGranted(g: Seg, live: map<int, nat>) { forall mem | mem in live :: Granted(g, mem, live[mem]) }

  /** The chunk is big enough, and not by a chunk too big. */
  ghost predicate Granted(g: Seg, mem: int, bytes: nat) {
    && mem - 16 in Used(g) && bytes < Words.WORD64
    && RequestSize(bytes) <= Used(g)[mem - 16] < RequestSize(bytes) + MIN_CHUNK_SIZE
  }

  /** The bytes of a request end before the head of the next chunk. */
  lemma {:induction false} BytesFit(g: Seg, mem: int, bytes: nat)
    requires Tiling(g) && g.end - g.base < TREE_INDEX_LIMIT && Granted(g, mem, bytes)
    ensures mem + bytes <= After(g, mem - 16) + 8
  {
    assert TileOk(g, mem - 16);
    assert bytes < MAX_REQUEST ==> bytes + 8 <= RequestSize(bytes);
  }

  /** The bytes of two live pointers do not overlap. */
  lemma {:induction false} BytesApart(g: Seg, a: int, b: int, m: nat, n: nat)
    requires Tiling(g) && g.end - g.base < TREE_INDEX_LIMIT && a < b && Granted(g, a, m) && Granted(g, b, n)
    ensures a + m <= b
  {
    BytesFit(g, a, m);
    assert Apart(g, a - 16, b - 16);
  }

  /** Nor do they touch the head of any chunk, or the size that a free chunk other than the last keeps
      at its end. */
  lemma {:induction false} HeadsApart(g: Seg, mem: int, bytes: nat, r: int)
    requires Tiling(g) && g.end - g.base < TREE_INDEX_LIMIT && Granted(g, mem, bytes) && r in g.tiles
    ensures mem + bytes <= r + 8 || r + 16 <= mem
    ensures !g.tiles[r].used && After(g, r) != g.end ==> mem + bytes <= After(g, r) || After(g, r) + 8 <= mem
  {
    BytesFit(g, mem, bytes);
    assert TileOk(g, mem - 16) && TileOk(g, r);
    assert Apart(g, mem - 16, r) && Apart(g, r, mem - 16);
  }

  /** What the system grants in a run, at most. */
  function Grants(requests: seq<Request>): nat {
    if requests == [] then 0
    else GrantOf(requests[0]) + Grants(requests[1..])
  }

  /** The system refuses, or grants enough for the request that it is asked for. */
  predicate Proper(r: Request) {
    r.Allocate? ==> r.bytes < Words.WORD64 && (r.grant == 0 || r.grant >= RequestSize(r.bytes) + SYS_ALLOC_PADDING)
  }

  /** The live pointers after a request, given its reply: the pointer, or 0 for a failure. */
  function LiveAfter(live: map<int, nat>, r: Request, reply: int): map<int, nat> {
    match r
    case Allocate(bytes, _) => if reply == 0 then live else live[reply := bytes]
    case Release(mem) => live - {mem}
  }

  function Live(requests: seq<Request>, replies: seq<int>): map<int, nat>
    requires |requests| == |replies|
    decreases |requests|
  {
    var n := |requests| - 1;
    if n < 0 then map[] else LiveAfter(Live(requests[..n], replies[..n]), requests[n], replies[n])
  }

  /** An allocation that the system grants memory for succeeds, and no pointer is handed out while it is live. */
  ghost predicate ReplyOk(requests: seq<Request>, replies: seq<int>, i: nat) {
    i < |replies| && i < |requests| && requests[i].Allocate? ==>
      && (requests[i].grant != 0 ==> replies[i] != 0)
      && replies[i] !in Live(requests[..i], replies[..i])
  }

  /** Any run of requests on an mspace without live pointers. What is no live pointer is not freed; the
      segment stays within the sizes that the bins tell apart. */
  method Run(m: Mspace, requests: seq<Request>) returns (replies: seq<int>)
    requires m.Valid() && Used(m.g) == map[]
    requires (forall i | 0 <= i < |requests| :: Proper(requests[i])) && m.g.end - m.g.base + Grants(requests) < TREE_INDEX_LIMIT
    modifies m, m.small, m.trees
    ensures m.Valid() && |replies| == |requests| && Serves(m.g, Live(requests, replies))
    ensures forall i: nat | i < |requests| :: ReplyOk(requests, replies, i)
  {
    var live: map<int, nat> := map[];
    replies := [];
    var i := 0;
    assert requests[0..] == requests;
    while i < |requests|
      invariant i <= |requests| && |replies| == i && m.Valid() && Serves(m.g, live)
      invariant live == Live(requests[..i], replies)
      invariant forall k: nat | k < i :: ReplyOk(requests, replies, k)
      invariant m.g.end - m.g.base + Grants(requests[i..]) < TREE_INDEX_LIMIT
    {
      GrantsNext(requests, i);
      var reply := Serve(m, requests[i], live);
      LiveNext(requests, replies, i, reply);
      live := LiveAfter(live, requests[i], reply);
      replies := replies + [reply];
      i := i + 1;
    }
    assert requests[..i] == requests;
  }

  lemma {:induction false} LiveNext(requests: seq<Request>, replies: seq<int>, i: nat, reply: int)
    requires |replies| == i < |requests|
    ensures Live(requests[..i + 1], replies + [reply]) == LiveAfter(Live(requests[..i], replies), requests[i], reply)
    ensures forall k: nat | k < i && ReplyOk(requests, replies, k) :: ReplyOk(requests, replies + [reply], k)
    ensures (requests[i].Allocate? ==> (requests[i].grant != 0 ==> reply != 0) && reply !in Live(requests[..i], replies)) ==>
              ReplyOk(requests, replies + [reply], i)
  {
    assert requests[..i + 1][..i] == requests[..i] && (replies + [reply])[..i] == replies;
    forall k: nat | k < i && ReplyOk(requests, replies, k) ensures ReplyOk(requests, replies + [reply], k) {
      assert (replies + [reply])[..k] == replies[..k];
    }
  }

  function GrantOf(r: Request): nat { if r.Allocate? then r.grant else 0 }

  lemma {:induction false} GrantsNext(requests: seq<Request>, i: nat)
    requires i < |requests|
    ensures Grants(requests[i..]) == GrantOf(requests[i]) + Grants(requests[i + 1..])
  {
    assert requests[i..][1..] == requests[i + 1..];
  }

  method Serve(m: Mspace, r: Request, live: map<int, nat>) returns (reply: int)
    requires m.Valid() && Serves(m.g, live) && Proper(r) && m.g.end + GrantOf(r) - m.g.base < TREE_INDEX_LIMIT
    modifies m, m.small, m.trees
    ensures m.Valid() && Serves(m.g, LiveAfter(live, r, reply)) && m.g.base == old(m.g.base) && m.g.end <= old(m.g.end) + GrantOf(r)
    ensures r.Allocate? ==> (r.grant != 0 ==> reply != 0) && reply !in live
  {
    reply := 0;
    if r.Allocate? {
      reply := Allocation(m, r.bytes, r.grant, live);
    } else if r.mem in live {
      Deallocation(m, r.mem, live);
    } else {
      assert live - {r.mem} == live;
    }
  }

  method Allocation(m: Mspace, bytes: nat, grant: nat, live: map<int, nat>) returns (mem: int)
    requires m.Valid() && Serves(m.g, live) && Proper(Allocate(bytes, grant))
    requires m.g.end + grant - m.g.base < TREE_INDEX_LIMIT
    modifies m, m.small, m.trees
    ensures m.Valid() && Serves(m.g, LiveAfter(live, Allocate(bytes, grant), mem))
    ensures m.g.base == old(m.g.base) && m.g.end <= old(m.g.end) + grant
    ensures (grant != 0 ==> mem != 0) && mem !in live
  {
    ghost var before := m.g;
    mem := m.Malloc(bytes, grant);
    if mem != 0 {
      ServesMore(before, m.g, live, mem, bytes);
    } else {
      NullNotLive(before, live);
    }
  }

  lemma {:induction false} ServesMore(g: Seg, g': Seg, live: map<int, nat>, mem: int, bytes: nat)
    requires Serves(g, live) && bytes < Words.WORD64 && HandedOut(g, g', mem - 16, RequestSize(bytes))
    ensures mem !in live && Serves(g', live[mem := bytes])
  {
    assert mem in live ==> Granted(g, mem, live[mem]);
    var after, used, used' := live[mem := bytes], Used(g), Used(g');
    MoreGranted(g, g', live, mem, bytes);
    forall p | p in used' ensures p + 16 in after {
      assert p == mem - 16 || p in used;
    }
  }

  lemma {:induction false} MoreGranted(g: Seg, g': Seg, live: map<int, nat>, mem: int, bytes: nat)
    requires Serves(g, live) && bytes < Words.WORD64 && HandedOut(g, g', mem - 16, RequestSize(bytes))
    ensures AllGranted(g', live[mem := bytes])
  {
    var after := live[mem := bytes];
    forall a | a in after ensures Granted(g', a, after[a]) {
      if a != mem { assert Granted(g, a, live[a]); }
    }
  }

  lemma {:induction false} NullNotLive(g: Seg, live: map<int, nat>)
    requires Tiling(g) && Serves(g, live)
    ensures 0 !in live
  {
    assert 0 in live ==> Granted(g, 0, live[0]);
    assert -16 in g.tiles ==> TileOk(g, -16);
  }

  method Deallocation(m: Mspace, mem: int, live: map<int, nat>)
    requires m.Valid() && Serves(m.g, live) && mem in live
    modifies m, m.small, m.trees
    ensures m.Valid() && Serves(m.g, live - {mem})
    ensures m.g.base == old(m.g.base) && m.g.end == old(m.g.end)
  {
    ghost var before := m.g;
    m.Free(mem);
    var after := live - {mem};
    forall a | a in after ensures Granted(m.g, a, after[a]) { assert Granted(before, a, live[a]); }
  }
}

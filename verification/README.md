# Verified models of niova-core

This project models the parts of niova-core that keep state or arithmetic of their own, and proves what they
are for. Operating system and library calls appear as values that a caller chooses (what a socket call reports,
whether memory is found), so every theorem holds for all of their outcomes. Each module has a file of its own
name, and `dafny verify dfyconfig.toml` checks them all together.

| part of the system | modules |
|---|---|
| dlmalloc mspace | `Words`, `BinIndex`, `BinMap`, `Ring`, `Trie`, `TrieMemory`, `TrieUpdate`, `TreeKey`, `TreeBin`, `TreeUnlink`, `TreeSearch`, `TreeBins`, `SmallBins`, `Segment`, `HeapState`, `BestFit`, `Coalescing`, `Mspace`, `MspaceRun` |
| erasure coding | `Gf2`, `Gf256`, `Gf256Field`, `ErasureMatrix`, `ErasureBuffers`, `ErasureDecoder`, `ErasureRebuild`, `ErasureEncoder` |
| CRC-24Q | `Crc24`, `Crc24Table`, `Crc24Literal`, `Crc24Hash`, `Crc24Detection`, `Crc24Errors`, `Crc24Order`, `Primes`, `Crc24Period` |
| epoll manager | `EpollState`, `EpollSteps`, `EpollCounts`, `EpollHandles`, `EpollManager`, `EpollRuns`, `EpollResults`, `EpollExamples`, `EpollLate`, `EpollReap`, `EpollOps` |
| reference-counted tree | `RefTree`, `RefTreeGet` |
| bit allocators | `BitRuns`, `VBasic`, `VBasicRun`, `BitWords`, `Bitmap` |
| lists, vectors, buffers | `CircleQueue`, `TailQueue`, `IoVec`, `BufferSet` |
| TCP, event pipe | `TcpSend`, `TcpFraming`, `TcpHandoff`, `EvPipe` |

**The allocator.** Memory is what the code sees: `head` and `prev_foot` words, `fd`/`bk` links, tree nodes with
children and parent, two bin maps, `dv` and `top`. Beside it, a ghost tiling says which chunk is where. The
invariant of `Mspace` is what the debug assertions of the file state, for all chunks at once: chunks tile the
segment, no two free chunks touch, PINUSE bits and `prev_foot` agree with the neighbours, every free chunk is
exactly one of top, designated victim and one bin entry, the maps say which bins are empty, and every tree is
ordered by the bits of the sizes. `mspace_malloc` and `mspace_free` keep it. An allocation refines best fit over
all chunks at once (`BestFit.Chosen`), with no bins in sight, and says what becomes of the chunk
(`BestFit.Served`); a release turns the free space around the chunk into one free chunk and touches nothing else
(`Coalescing.Freed`).

**Erasure coding.** GF(2^8) is built from polynomials over GF(2); that it is a field is proved. The library that
generates and inverts matrices is a pair of functions assumed to do what the comments of `src/ec.c` say of it
(`ErasureMatrix.Sound`). From this the whole path is proved: survivors, decode matrix, slots, accumulation.

**CRC-24Q.** The literal table is the one that `crc_init` builds, the table holds remainders, a table step is
eight steps of polynomial division, and a check passes exactly when the polynomial divides the message.

**Epoll manager and reference-counted tree.** Any number of threads interleave at the steps between which a
mutex is held or the user's code runs; the invariants hold after every interleaving. What each operation gives its
caller is stated beside them (`EpollOps`, `RefTreeGet`).

Some properties hold only under a condition, and the theorems say which:

- `compute_tree_index` is right for every size below 2^40, and beyond only when the narrowed size happens to
  land in the last bin (`BinIndex.TreeIndexExact`).
- The header of `src/contrib/crc24q.c` claims that all double bit errors are detected. The period of x modulo the
  polynomial is 8388607 = 2^23 - 1 (`Crc24Period.UnitExactly`), so two flipped bits go unnoticed exactly when their
  distance is a multiple of that (`Crc24Period.DoubleDetected`). The claim holds for code words of at most 8388607
  bits and for no longer ones (`Crc24Period.DoubleClaim`, `Crc24Period.Undetected`).
- A close of the epoll manager during a deletion leaves the handle installed (`EpollExamples.CloseStrands`), and
  a callback accepted after the decision to delete outlives its handle in the epoll set
  (`EpollExamples.LateCallback`); `EpollResults.CloseLeaves` and `EpollLate.LateExactly` say exactly when.
- The event pipe can hold three bytes, but only if two resets begin between the count and the write of one
  notification (`EvPipe.EveryRun`, `EvPipe.ThenThree`).
- The blocks of `niova_vbasic_malloc` are aligned, inside the region and disjoint if and only if the last unit
  starts below 2^32 bytes (`VBasic.LaidExactly`, `VBasicRun.Run`); otherwise live blocks overlap
  (`VBasicRun.Overlap`, `VBasicRun.SameAddress`). The unit count covers the size if and only if it fits 32 bits
  (`VBasic.UnitsCover`).
- `buffer_set_initx` compares a wrapping product with the size of the region. The buffers lie apart in the region
  if and only if the product does not wrap and fits (`BufferSet.InitLayout`).
- `niova_io_iovs_advance` reports EXFULL for consuming everything only when the last entry is not empty
  (`IoVec.Advance`).

## Model

| member | source | states |
|---|---|---|
| BinIndex.TreeIndexBracket | src/contrib/dlmalloc.c:2926-2928 | every chunk size in [256, 2^40) falls in the tree bin i with minsize(i) <= size < minsize(i+1); the last bin has no upper bound |
| BinIndex.TreeIndexExact | src/contrib/dlmalloc.c:2854-2865 | for every size from 256 up, the bin is the right one if and only if the size is below 2^40 or its 32-bit narrowing lands in the last bin anyway |
| BinIndex.BracketUnique | src/contrib/dlmalloc.c:3326-3327 | no size lies between the bounds of two different bins |
| BinIndex.TreeIndexMonotone | src/contrib/dlmalloc.c:2854-2865 | a larger chunk is never in an earlier bin |
| BinMap.MarkIs | src/contrib/dlmalloc.c:2937-2943 | marking and clearing a bin change the bit of that bin and no other |
| BinMap.LeastBitIs | src/contrib/dlmalloc.c:2946 | x & -x keeps exactly the lowest set bit |
| BinMap.LeftBitsIs | src/contrib/dlmalloc.c:2949 | left_bits of one bit is every bit above it |
| BinMap.FirstMarked | src/contrib/dlmalloc.c:2957-2962 | the index found from the least bit is the lowest marked bin |
| BinMap.AboveIs | src/contrib/dlmalloc.c:4491 | the masked map holds exactly the marked bins after the given one |
| BinMap.ShiftIs | src/contrib/dlmalloc.c:5551-5571 | shifting the map right and left again keeps exactly the marked bins from the index on |
| TreeKey.KeyStart | src/contrib/dlmalloc.c:2921-2923 | shifting a size by the amount of its bin leaves its distance from the least size of the bin at the top of the word |
| TreeKey.KeyDescend | src/contrib/dlmalloc.c:3682-3683 | the top bit of the key says in which half of its range a size lies, and shifting by one gives the key for that half |
| Ring.InsertAfterHead | src/contrib/dlmalloc.c:3698-3702 | splicing a chunk in after the first leaves a ring that reads first, new chunk, the rest |
| Ring.RemoveFromRing | src/contrib/dlmalloc.c:3736-3741 | taking a chunk out leaves the ring of the others in their order |
| Trie.InsertStores | src/contrib/dlmalloc.c:3664-3713 | descending by the bits of the size keeps the tree ordered by bits, adds the one chunk and its size, and nothing else |
| Trie.DropLeafStores | src/contrib/dlmalloc.c:3748-3756 | taking the rightmost leaf off keeps the order and removes exactly the chunks of that leaf |
| Trie.UnlinkStores | src/contrib/dlmalloc.c:3715-3730 | unlinking a chunk, by its chain or by a leaf that takes its place, keeps the order and removes exactly that chunk |
| TrieUpdate.AdoptRep | src/contrib/dlmalloc.c:3776-3799 | a leaf that takes over parent and children of a chunk represents the tree with that chunk replaced |
| TreeUnlink.RelinkRoot | src/contrib/dlmalloc.c:3764-3799 | replacing the root of a bin by a detached chunk removes exactly the root chunk from the bin |
| TreeUnlink.RelinkChild | src/contrib/dlmalloc.c:3768-3799 | replacing an inner node by a detached chunk removes exactly that chunk and touches no node outside the tree |
| TreeUnlink.CutChained | src/contrib/dlmalloc.c:3735-3741 | a chunk inside a chain of equal sizes leaves the ring only |
| TreeBins.TreeBins.constructor | src/contrib/dlmalloc.c:5431-5442 | a new mspace has empty tree bins |
| TreeBins.TreeBins.Insert | src/contrib/dlmalloc.c:3664-3713 | keeps all that the debug walk of the trees asserts, and adds exactly one chunk to the bins |
| TreeBins.TreeBins.Unlink | src/contrib/dlmalloc.c:3732-3801 | keeps the same, and removes exactly one chunk from the bins |
| TreeBins.TreeBins.TakeReplacement | src/contrib/dlmalloc.c:3735-3761 | detaches what will stand in the place of the chunk: its predecessor in the chain, the rightmost leaf below, or nothing |
| TreeBins.TreeBins.TakeLeaf | src/contrib/dlmalloc.c:3748-3760 | walks to the rightmost leaf and detaches it from its own parent |
| TreeBins.TreeBins.ReplaceInParent | src/contrib/dlmalloc.c:3762-3800 | hooks the replacement in for the chunk, and clears the bin when nothing is left |
| TreeSearch.DescendStep | src/contrib/dlmalloc.c:4471-4488 | one step of the descent loses no better candidate: each is the best so far, ahead, or in the deepest untaken right subtree |
| TreeSearch.LeftmostStep | src/contrib/dlmalloc.c:4500-4507 | one step to the leftmost child loses no better candidate |
| TreeBins.TreeBins.DescendBin | src/contrib/dlmalloc.c:4467-4489 | the descent ends with the best fit seen, and a subtree that holds every better one |
| TreeBins.TreeBins.NextBin | src/contrib/dlmalloc.c:4490-4498 | otherwise the next non-empty bin holds the best fit |
| TreeBins.TreeBins.FindLarge | src/contrib/dlmalloc.c:4461-4507 | finds a chunk of the least size >= nb in any tree bin; finds none only if there is none |
| TreeBins.TreeBins.FindSmall | src/contrib/dlmalloc.c:4532-4547 | finds the smallest chunk of all tree bins |
| SmallBins.SmallBins.constructor | src/contrib/dlmalloc.c:3927-3934 | a new mspace has empty small bins |
| SmallBins.SmallBins.Insert | src/contrib/dlmalloc.c:3586-3602 | adds exactly one chunk, at the front of the list of its bin; the map bit of each bin says whether it is empty, and each list is a ring of chunks of its size |
| SmallBins.SmallBins.Unlink | src/contrib/dlmalloc.c:3605-3628 | removes exactly one chunk and keeps the same |
| SmallBins.SmallBins.UnlinkFirst | src/contrib/dlmalloc.c:3631-3646 | removes the first chunk of the list of a marked bin |
| Segment.Covered | src/contrib/dlmalloc.c:3439-3467 | every address of the segment lies in exactly one chunk |
| Segment.SplitTiling | src/contrib/dlmalloc.c:4519-4520 | splitting a chunk leaves a tiling of the segment |
| Segment.MergeTiling | src/contrib/dlmalloc.c:5679-5681 | merging two neighbours leaves a tiling of the segment |
| HeapState.FreeChunk | src/contrib/dlmalloc.c:3286-3294 | a free chunk has used neighbours, and its size stands at its end too |
| HeapState.TakeWhole | src/contrib/dlmalloc.c:3075-3077 | handing out a whole free chunk restores the invariant |
| HeapState.TakeSplit | src/contrib/dlmalloc.c:4519-4521 | handing out the front of a free chunk leaves a rest that is free and in no bin |
| HeapState.PutInBin | src/contrib/dlmalloc.c:3805-3807 | binning a loose chunk restores the invariant; it was in no bin before |
| HeapState.ReplaceDv | src/contrib/dlmalloc.c:3650-3659 | the loose chunk becomes the designated victim and the old victim goes to its small bin |
| HeapState.TakeTop | src/contrib/dlmalloc.c:5629-5634 | splitting top restores the invariant |
| HeapState.Grow | src/contrib/dlmalloc.c:3912-3924 | top enlarged at its end keeps the invariant |
| HeapState.Release | src/contrib/dlmalloc.c:5668-5672 | a chunk given back becomes the loose chunk; its PINUSE bit says whether the chunk before it is free |
| HeapState.MergeBack | src/contrib/dlmalloc.c:5679-5685 | prev_foot leads to the free chunk before, and the two merged are again one loose chunk |
| HeapState.MergeForward | src/contrib/dlmalloc.c:5717-5720 | the free chunk after is taken in |
| HeapState.MergeTop | src/contrib/dlmalloc.c:5698-5705 | a loose chunk before top becomes the start of top |
| HeapState.MergeDv | src/contrib/dlmalloc.c:5710-5714 | a loose chunk before the designated victim takes over its role |
| HeapState.WriteFree | src/contrib/dlmalloc.c:5727-5728 | rewriting head and foot of the loose chunk agrees with its neighbours |
| Mspace.RequestLeast | src/contrib/dlmalloc.c:2245-2250 | below MAX_REQUEST the chunk size of a request is the least multiple of 16 that is at least 32 and holds the request with its overhead; from there on it is MAX_SIZE_T |
| BestFit.ExactSize | src/contrib/dlmalloc.c:5551-5561 | what fits into the small bin of a request or the next has exactly the size of the request |
| BestFit.ServedIs | src/contrib/dlmalloc.c:4512-4527 | what becomes of the chunk that serves a request: all of it is in use if the rest is too small for a chunk; otherwise the rest of top is top, the rest of the victim and that after a small request is the victim, any other is binned, and so is a victim that is replaced; no other chunk changes |
| Mspace.Mspace.constructor | src/contrib/dlmalloc.c:5426-5480 | a new mspace is valid, has nothing handed out and nothing in a bin, and covers the given space, from its first aligned address up to the trailing fake chunk; all but the mspace itself is top |
| Mspace.Mspace.FromSmallBin | src/contrib/dlmalloc.c:5553-5591 | a chunk of that small bin is handed out; the new heap is the old one with this chunk split or used up, the rest being the designated victim |
| Mspace.Mspace.TmallocSmall | src/contrib/dlmalloc.c:4532-4567 | hands out (part of) the smallest chunk of all tree bins; the rest is the designated victim |
| Mspace.Mspace.TmallocLarge | src/contrib/dlmalloc.c:4461-4529 | hands out (part of) a tree chunk of the least size that fits when the designated victim does not fit as tightly, and puts the rest into its bin; otherwise returns 0 and changes nothing |
| Mspace.Mspace.FromDv | src/contrib/dlmalloc.c:5609-5627 | the designated victim is split or used up, and no other chunk changes |
| Mspace.Mspace.FromTop | src/contrib/dlmalloc.c:5629-5639 | top is split, and no other chunk changes |
| Mspace.Mspace.SysAlloc | src/contrib/dlmalloc.c:4053-4258 | fails and changes nothing, or extends top and serves the request from it |
| Mspace.Mspace.Malloc | src/contrib/dlmalloc.c:5537-5649 | keeps the whole invariant and refines best fit over all chunks: a small request takes an exact fit if there is one, else the victim if it fits, else a least fit; a large one a least fit among tree chunks and victim, the victim on a tie; top serves only when nothing else fits, and the system is asked only when top does not either; the heap afterwards is exactly the old one with that chunk split or used up; 0 if and only if nothing fits and the system refuses |
| Mspace.Mspace.Free | src/contrib/dlmalloc.c:5651-5752 | keeps the whole invariant; the freed chunk and its free neighbours become one free chunk, which is top or the designated victim if one of its parts was and is binned otherwise; no other chunk changes |
| Mspace.Mspace.ConsolidateBack | src/contrib/dlmalloc.c:5673-5692 | the free chunk before is unlinked or was the designated victim, and absorbs the freed chunk; nothing else changes |
| Mspace.Mspace.ConsolidateForward | src/contrib/dlmalloc.c:5695-5741 | the freed chunk is merged with what follows and put where it belongs |
| Coalescing.FreedIs | src/contrib/dlmalloc.c:5668-5741 | marking a chunk free, merging it with a free chunk before it and then with what follows comes to the free space around it becoming one free chunk |
| MspaceRun.Run | src/contrib/dlmalloc.c:5537-5752 | after any sequence of allocations and releases the invariant holds; the live pointers are those the replies say, each in a chunk of its own of the right size; every allocation that the system backs succeeds, with a pointer that was not live |
| MspaceRun.BytesApart | src/contrib/dlmalloc.c:3303-3314 | the bytes asked for by two live pointers never overlap |
| MspaceRun.HeadsApart | src/contrib/dlmalloc.c:2305-2306 | nor do they touch the head of a chunk or the size a free chunk keeps at its end |
| Gf2.RingLaws | src/ec.c:242-244 | multiplication of polynomials over GF(2) modulo a fixed polynomial is commutative, associative, distributive, with one and zero |
| Gf256.SumSwap | src/ec.c:236-246 | a double sum over GF(2^8) may be summed in either order |
| Gf256Field.InverseIs | src/ec.c:242-244 | every byte other than zero has a multiplicative inverse: with the polynomial 0x11d of the library the bytes are a field |
| ErasureMatrix.Associative | src/ec.c:236-246 | applying one matrix after another is applying their product |
| ErasureMatrix.IdentityTimes | src/ec.c:224-225 | a left inverse undoes its matrix |
| ErasureMatrix.DataFragment | src/ec.c:229-234 | a fragment numbered below k is the data itself |
| ErasureMatrix.RowRebuilds | src/ec.c:227-249 | a decode row made from the inverse, for a data or a parity fragment, gives that fragment back from the chosen survivors |
| ErasureMatrix.SelectionInverts | src/ec.c:196-205 | any k rows in increasing order have an inverse, from the assumption on the generated matrix |
| ErasureBuffers.FoldRow | src/ec.c:327-330 | one output buffer gains coefficient times source in its first len bytes and nothing else |
| ErasureBuffers.FoldSource | src/ec.c:327-330 | every output buffer gains its coefficient times the source |
| ErasureBuffers.CombineSources | src/ec.c:168-171 | every output buffer becomes the combination of all sources by its row |
| ErasureBuffers.PartialRowAll | src/ec.c:313-330 | once every source has been folded in, the partial sum is the row product, whatever the order |
| ErasureDecoder.SelectSurvivors | src/ec.c:218-228 | finds exactly the first k fragments that are not erased, in increasing order, and copies their rows; fails if and only if fewer than k are left |
| ErasureDecoder.LivingMarks | src/ec.c:216-217 | marking n fragments leaves at least m - n |
| ErasureDecoder.FillDecodeMatrix | src/ec.c:233-252 | each decode row is the row of the inverse, or the parity row times the inverse |
| ErasureDecoder.GenDecodeMatrix | src/ec.c:206-254 | succeeds if and only if k fragments are left; then each decode row rebuilds its erased fragment for all data |
| ErasureRebuild.CheckErasures | src/ec.c:266-275 | accepts a list if and only if it names different fragments below m |
| ErasureRebuild.FillSlots | src/ec.c:297-299 | slot_of_frag is the inverse of decode_index and marks every other fragment |
| ErasureRebuild.Decoder.Prepare | src/ec.c:256-310 | EINVAL exactly for arguments outside 1..p different erasures of k + p fragments, else ENOMEM exactly without memory, and then nothing changes; else 0, and the context rebuilds every erased fragment |
| ErasureRebuild.Decoder.Update | src/ec.c:312-331 | a fragment with a slot is folded into every output; one without is refused and nothing changes; so is every fragment when the context is not ready |
| ErasureRebuild.UpdateReleased | src/ec.c:312-342 | after a release every fragment number is answered with ENOENT and no buffer changes |
| ErasureRebuild.Decoder.Release | src/ec.c:333-342 | a released context has no tables, and its counts are 0 |
| ErasureRebuild.RebuildStripe | src/ec.c:196-331 | for all k, p, erasures and data, feeding each chosen survivor once in any order into zeroed buffers gives every erased fragment, data or parity |
| ErasureEncoder.EncodeCache.Init | src/ec.c:45-83 | fills the tables of every k in range exactly when there is memory for all of them, and otherwise leaves the cache empty; a second call changes nothing |
| ErasureEncoder.EncodeCache.Destroy | src/ec.c:86-100 | leaves an empty cache |
| ErasureEncoder.EncodeCache.Encode | src/ec.c:156-173 | writes every parity fragment of the stripe, or refuses and writes nothing |
| ErasureEncoder.EncodeCache.EncodeUpdate | src/ec.c:175-194 | folds one data fragment into the running parity |
| ErasureEncoder.EncodeStream | src/ec.c:156-194 | folding in every data fragment once, in any order, equals one-shot encoding |
| Crc24Table.EntryIsRemainder | src/contrib/crc24q.c:46-60 | entry i of the table is i times x^24 modulo the polynomial, in its low 24 bits |
| Crc24Hash.CrcInit | src/contrib/crc24q.c:46-60 | building by doubling fills all 256 entries of the linear table |
| Crc24Hash.BuildTable | src/contrib/crc24q.c:54-59 | the same for any polynomial word |
| Crc24Literal.LiteralTable | src/contrib/crc24q.c:78-143 | the literal table is the one that crc_init builds |
| Crc24.FeedAllIsRemainder | src/contrib/crc24q.c:145-152 | feeding bits from the top is polynomial division with 24 zero bits appended |
| Crc24Hash.SteppedIsFed | src/contrib/crc24q.c:150-152 | one table step on the 32-bit register feeds eight bits into its low 24, whatever its high bits hold |
| Crc24Hash.HashNext | src/contrib/crc24q.c:150-152 | the hash of a message with one more byte |
| Crc24Hash.Hash | src/contrib/crc24q.c:145-158 | for every byte string the hash is the remainder of the message times x^24, the high byte clear |
| Crc24Detection.PassesExactly | src/contrib/crc24q.c:174-180 | a message with its CRC passes the check if and only if the polynomial divides it |
| Crc24Detection.SignedPasses | src/contrib/crc24q.c:164-180 | a signed message passes, and hashing message and CRC together gives 0 |
| Crc24Detection.Sign | src/contrib/crc24q.c:164-171 | writes the three CRC bytes after the message and nothing else; the result passes |
| Crc24Detection.Check | src/contrib/crc24q.c:174-180 | true if and only if the message passes |
| Crc24Errors.ErrorPasses | src/contrib/crc24q.c:174-180 | a corrupted message passes if and only if the polynomial divides the error |
| Crc24Errors.BurstDetected | src/contrib/crc24q.c:15-16 | every non-zero burst of at most 24 bits anywhere, CRC included, makes the check fail (single bits included) |
| Crc24Errors.OddDetected | src/contrib/crc24q.c:14 | every odd number of flipped bits makes the check fail |
| Crc24Errors.DoubleAtDistance | src/contrib/crc24q.c:13 | two flipped bits at a distance d go unnoticed if and only if x^d is 1 modulo the polynomial |
| Crc24Period.UnitExactly | src/contrib/crc24q.c:7-13 | x^n is 1 modulo the polynomial if and only if n is a multiple of 8388607 = 2^23 - 1 |
| Crc24Period.DoubleDetected | src/contrib/crc24q.c:13 | two flipped bits, anywhere in a signed message, go unnoticed if and only if their distance is a multiple of 8388607 |
| Crc24Period.DoubleClaim | src/contrib/crc24q.c:13 | every double error in messages of n bytes is noticed if and only if 8n <= 8388607 |
| Crc24Period.ShortDouble | src/contrib/crc24q.c:13 | so no double error in a message of at most 8388607 bits passes the check |
| Crc24Period.Undetected | src/contrib/crc24q.c:13 | for every signed message of 2^20 bytes or more there is a double error, given outright, that passes the check |
| EpollRuns.StepKeeps | src/epoll_mgr.c:205-588 | every step of any thread keeps the invariant of handles, lists, counters and closing |
| EpollResults.RunInv | src/epoll_mgr.c:205-588 | so it holds after every interleaving from a new manager |
| EpollResults.CallbacksCounted | src/epoll_mgr.c:472-588 | epm_ctx_cb_num counts the handles with a callback; a callback is set exactly while the handle is queued, drained or running, once in all; each accepted callback has been started once or still waits |
| EpollResults.QueuedIsKept | src/epoll_mgr.c:380-452 | when a thread decides to take a handle out of the epoll set, its callback is neither queued nor drained |
| EpollResults.ReferencesBalance | src/epoll_mgr.c:249-558 | the references held are exactly those of the uses under way: each GET gets one PUT, at the end of its use |
| EpollResults.HandlesCounted | src/epoll_mgr.c:262-342 | epm_num_handles is the number of installed handles, and each of them is in exactly one place |
| EpollResults.CloseLeaves | src/epoll_mgr.c:151-170 | after an undisturbed close no callback is queued, and a handle is still installed if and only if its deletion was in mid-flight |
| EpollExamples.CloseStrands | src/epoll_mgr.c:305-342 | a run in which a close during a deletion leaves a handle installed for good |
| EpollExamples.LateCallback | src/epoll_mgr.c:434-452 | a run in which a callback accepted after the decision to delete outlives the handle in the epoll set |
| EpollOps.InitAndAdd | src/epoll_mgr.c:205-277 | a handle with nothing under way that is initialised and then added is installed as initialised, or refused without a file descriptor |
| EpollOps.Add | src/epoll_mgr.c:229-277 | without other threads: the code for each case, and on success the handle is installed, referenced, counted, and first on the active list; on failure all is as before |
| EpollOps.Delete | src/epoll_mgr.c:354-419 | without other threads: the code for each case; an active handle is taken out of the epoll set and released at once, or left to the loop exactly when another thread must release it or its callback is queued |
| EpollOps.AddCallback | src/epoll_mgr.c:471-524 | without other threads: the code for each case, and on success the callback is queued first and the handle referenced |
| EpollOps.Close | src/epoll_mgr.c:150-178 | without other threads: closed if and only if no callback is counted and no handle is on a list |
| EpollOps.RunCallbacks | src/epoll_mgr.c:556-588 | without other threads the loop ends; every queued callback has been started once more, its handle released, the list is empty and the counter lower by its length |
| EpollOps.Pass | src/epoll_mgr.c:590-646 | one undisturbed pass of the loop runs every queued callback and completes every deletion that was left to it |
| EpollLate.LateExactly | src/epoll_mgr.c:380-461 | up to and including its removal, a handle has a callback queued if and only if one has been accepted since the decision to take it out |
| EpollReap.ReapDestroyList | src/epoll_mgr.c:422-469 | without other threads the loop ends, removes exactly the handles without a queued callback, and puts the delayed ones back |
| EpollReap.ReapOne | src/epoll_mgr.c:433-461 | one round removes the first handle or parks it |
| RefTree.StepKeeps | src/include/ref_tree_proto.h:122-205 | every step of GET, LOOKUP and PUT, with GET in two critical sections, keeps the invariant, the answers of gets included |
| RefTreeGet.Get | src/include/ref_tree_proto.h:145-205 | a whole GET, whatever other threads do between its critical sections: the answer has the key asked for; if the key is in the tree when it decides, that element gains exactly one reference; if not and add is set, one new element is in the tree with the initial count; otherwise nothing changes; with the code of each case |
| RefTree.EveryRun | src/include/ref_tree_proto.h:122-205 | in every interleaving keys are unique, an element is in the tree if and only if its count is at least 1 and equals the references held, and it is destroyed at most once, when nobody holds it |
| RefTree.NothingLost | src/include/ref_tree_proto.h:122-205 | when all is quiet every constructed element is in the tree or destroyed, losers of a race included |
| RefTree.PutAndDestroy | src/include/ref_tree_proto.h:125-143 | a PUT lowers one count; the last one removes and destroys the element |
| RefTree.Min | src/include/ref_tree_proto.h:105-114 | finds an element if and only if the tree is not empty, and takes a reference to it |
| RefTree.ReleaseOne | src/ctl_svc.c:1123-1127 | MIN takes a reference and two PUTs return two, so that the count of the element is one lower in all |
| RefTree.NodesRelease | src/ctl_svc.c:1115-1135 | the loop ends with an empty tree and every node destroyed once |
| BitRuns.AvailOffset | src/include/common.h:203-227 | finds the first free run from an offset on, or that there is none, and refuses bad arguments |
| BitRuns.Assign | src/include/common.h:235-272 | takes the first free run, or changes nothing |
| BitRuns.Release | src/include/common.h:275-305 | clears a run that is all in use, or changes nothing |
| BitRuns.TakenCleared | src/include/common.h:235-305 | releasing what was just assigned restores the field |
| BitRuns.GreedyOptimal | src/include/alloc.h:284-294 | if that many disjoint free runs exist at all, first fit finds them |
| BitRuns.AssignmentsExist | src/include/alloc.h:271-297 | that many allocations in a row succeed if and only if that many disjoint free runs exist |
| VBasic.UnitsCover | src/include/alloc.h:279-281 | the unit count covers the size if and only if it fits 32 bits |
| VBasic.OneBit | src/include/common.h:198-201 | a number has one bit set if and only if it is a power of two |
| VBasic.DisplacementExact | src/include/alloc.h:307-331 | 32-bit products keep all addresses exact if and only if the last one fits |
| VBasic.LiveLaid | src/include/alloc.h:323-329 | when no offset wraps, live blocks are aligned, inside the region, and disjoint byte for byte |
| VBasic.LaidExactly | src/include/alloc.h:323-329 | all that can be live is laid out like that if and only if (nunits - 1) * unit_size is below 2^32 |
| VBasic.Allocator.InitAligned | src/include/alloc.h:150-268 | the code for each refusal; exactly when a layout succeeds, with a given unit size or a derived one; its aligned start, its size, and as many units as fit, at most 64 |
| VBasic.DerivedUnit | src/include/alloc.h:191-197 | the derived unit size is the greatest multiple of the alignment of which 64 fit, for regions below 64 times 2^32 bytes |
| VBasic.Allocator.Malloc | src/include/alloc.h:306-331 | takes the first free run of enough units, and its address; when no offset wraps, all live blocks stay aligned, in the region and disjoint in bytes |
| VBasic.Allocator.Free | src/include/alloc.h:333-361 | a live block with its size is freed and nothing else; the code for each other case, EFAULT for a pointer inside a unit included |
| VBasic.Allocator.FreeRun | src/include/alloc.h:352-360 | the run is cleared or nothing changes |
| VBasic.Allocator.SpaceAvailNitems | src/include/alloc.h:271-297 | 0 if and only if that many allocations would all succeed, and if and only if the map has that many disjoint runs; otherwise the code that says why |
| VBasicRun.Run | src/include/alloc.h:306-361 | after any sequence of allocations and releases of live pointers, live pointers are aligned and have bytes of their own inside the region; no reply was live before, and an allocation fails if and only if no run of units that no live pointer has is long enough |
| VBasicRun.AllSeparate | src/include/alloc.h:323-361 | the bytes of two live pointers never overlap, when no offset wraps |
| VBasicRun.Overlap | src/include/alloc.h:323 | whenever offsets can wrap, filling the allocator unit by unit gives two live blocks that overlap |
| VBasicRun.SameAddress | src/include/alloc.h:323 | with three units of 2^31 bytes two live blocks get one address |
| VBasic.AllocateMany | src/include/alloc.h:271-331 | that many calls of malloc succeed exactly when the query says so |
| VBasic.AllocateAndFree | src/include/alloc.h:306-361 | an allocation freed at once restores the bitmap, when no address wraps |
| Bitmap.Bitmap.SetUnset | src/include/bitmap.h:83-111 | changes that bit alone, or says why not |
| Bitmap.Bitmap.CountInUse | src/include/bitmap.h:160-173 | the number of indices in use |
| BitWords.InUseCounts | src/include/bitmap.h:160-173 | adding up the ones of the words counts the used indices below nb_max_idx |
| Bitmap.Bitmap.LowestFreeAssign | src/include/bitmap.h:403-448 | succeeds if and only if some index below nb_max_idx is clear, whatever the hint; takes the lowest free bit of the first word with one from the hint on and around, and changes that bit alone |
| Bitmap.Bitmap.TryWord | src/include/bitmap.h:415-446 | setting the bits without an index for the search and clearing them again leaves no trace |
| Bitmap.Bitmap.LowestUsedRelease | src/include/bitmap.h:450-472 | clears the lowest used bit, or says that there is none |
| Bitmap.Bitmap.Exclusive | src/include/bitmap.h:339-353 | 0 if and only if no index is in use in both |
| Bitmap.Bitmap.Shared | src/include/bitmap.h:356-370 | 0 if and only if everything in use in the second is in use in the first |
| Bitmap.Bitmap.Merge | src/include/bitmap.h:373-385 | succeeds if and only if the bitmaps are disjoint, and then adds what is in use |
| Bitmap.Bitmap.BulkUnset | src/include/bitmap.h:388-401 | succeeds if and only if the second is covered, and then takes it out |
| BitWords.MergeUndone | src/include/bitmap.h:373-401 | merging is union, bulk_unset is difference, and it undoes a merge |
| BitWords.MergeAdds | src/include/bitmap.h:373-385 | a merge of disjoint bitmaps adds the in-use counts |
| Bitmap.Bitmap.Iterate | src/include/bitmap.h:497-539 | reports exactly the maximal runs of set bits, each once, in order |
| BitWords.RunsUnique | src/include/bitmap.h:497-539 | only one sequence of runs meets that description |
| CircleQueue.Lists.constructor | src/include/queue.h:685-688 | heads start empty, pointing at themselves |
| CircleQueue.Lists.InsertHead | src/include/queue.h:710-718 | the queue gains the element in front; every queue keeps its links |
| CircleQueue.Lists.InsertTail | src/include/queue.h:720-728 | the queue gains the element at its end |
| CircleQueue.Lists.Remove | src/include/queue.h:730-743 | the queue loses exactly that element, which is then in no queue |
| CircleQueue.Lists.SpliceTail | src/include/queue.h:760-775 | the second queue becomes the concatenation and the first is empty |
| CircleQueue.Lists.Forward | src/include/queue.h:663-666 | following next from the head meets the elements in order |
| CircleQueue.Lists.Backward | src/include/queue.h:668-671 | following prev meets them in reverse order |
| CircleQueue.Inverse | src/include/queue.h:628-644 | next and prev are inverse to each other around the head |
| TailQueue.Lists.constructor | src/include/queue.h:282-285 | an empty queue has its tail pointer at its own first pointer |
| TailQueue.Lists.InsertTail | src/include/queue.h:299-303 | the queue gains the element at its end, with a valid tail pointer |
| TailQueue.Lists.InsertHead | src/include/queue.h:293-297 | the queue gains the element in front |
| TailQueue.Lists.RemoveHead | src/include/queue.h:327-331 | the queue loses its first element; the tail pointer stays valid even when it was the last |
| TailQueue.Lists.Concat | src/include/queue.h:245-251 | the first queue becomes the concatenation, the second is empty with a valid tail pointer |
| TailQueue.Lists.ConcatToHead | src/include/queue.h:256-266 | the contents of the source come first, and the source is empty with a valid tail pointer |
| TailQueue.Lists.Forward | src/include/queue.h:272-275 | the loop meets the elements in order |
| IoVec.MapConsumed | src/io.c:155-197 | the result is what is left of the source after the consumed bytes, cut to max_bytes |
| IoVec.MapConsumed2 | src/io.c:199-248 | the same with room for num_dest_iovs entries, never more; EOVERFLOW exactly when it would not fit |
| IoVec.MappedFlat | src/io.c:155-197 | as bytes, this is the source with the prefix dropped and cut |
| IoVec.NumToMeetSize2 | src/include/io.h:116-151 | the number of entries between the one the consumed bytes end in and the one the requested bytes end in, and the surplus |
| IoVec.CountsMatch | src/include/io.h:116-151 | when no entry is empty, that number is the number of entries mapped |
| IoVec.Advance | src/io.c:336-406 | one entry is shortened so that the rest denotes the bytes left; each error exactly when it applies, and EXFULL only when the last entry is not empty |
| IoVec.Restore | src/io.c:409-419 | puts the saved entry back |
| IoVec.AdvanceAndRestore | src/io.c:336-419 | advance and then restore is the identity |
| TcpSend.Send | src/tcp.c:289-350 | whatever the system takes at a time, the bytes sent are a prefix of the vector, all of it on success |
| TcpSend.ReplyIs | src/tcp.c:308-350 | without errors the send returns once the system has taken enough, and not before |
| TcpSend.ReplyFails | src/tcp.c:329-350 | the first error ends the send with that error, unless all has been sent by then |
| TcpFraming.FramesOf | src/tcp_mgr.c:607-637 | a stream that begins with given messages has exactly these as its first |
| TcpFraming.Connection.NewMessage | src/tcp_mgr.c:606-637 | what becomes of a header in each case |
| TcpFraming.Connection.BulkProgress | src/tcp_mgr.c:524-557 | bulk is read in pieces into the place where the last one ended |
| TcpFraming.Connection.RecvInline | src/tcp_mgr.c:658-697 | how many bytes a wakeup takes and exactly when it closes the connection: when a header cannot be read or is refused, memory is missing, a bulk read fails or ends, or the callback fails; one with nothing to read, also within a message, leaves it open |
| TcpFraming.Connection.Run | src/tcp_mgr.c:524-697 | for every stream and every fragmentation the messages handed over are the first of the stream in order, and all of them when nothing fails and enough wakeups bring bytes, whatever others in between find nothing |
| TcpHandoff.StepKeeps | src/tcp_mgr.c:88-164 | wakeup, worker and re-enable keep the flag equal to being queued or held |
| TcpHandoff.EveryRun | src/tcp_mgr.c:88-164 | at any time a connection is on the work queue at most once and with at most one worker, never both |
| TcpHandoff.InOrder | src/tcp_mgr.c:118-135 | the work queue is first come, first served |
| TcpHandoff.Served | src/tcp_mgr.c:700-722 | an idle connection that wakes up is the next one taken once the workers have taken all that waited before it |
| TcpHandoff.IdleAgain | src/tcp_mgr.c:88-113 | a connection that a worker has finished with is idle and can be woken up again |
| EvPipe.StepKeeps | src/ev_pipe.c:29-64 | each step of writer and reader keeps the counters within one of each other |
| EvPipe.EveryRun | src/ev_pipe.c:29-133 | 0 <= reader_cnt - writer_cnt <= 1 always; at most 3 bytes in the pipe, and at most 2 if no second reset begins between the count and the write of one notification |
| EvPipe.Readable | src/ev_pipe.c:29-64 | after a notify that completes with no reset in progress the pipe is readable |
| EvPipe.ThenThree | src/ev_pipe.c:29-133 | whenever a second reset does begin there, the pipe can come to hold 3 bytes |
| EvPipe.TwoResets | src/ev_pipe.c:115-133 | a run in which it does |
| BufferSet.BufferSet.AllocateLocked | src/buffer.c:205-242 | takes the first free item, none only if none is available; a revoked item is the earliest cached one |
| BufferSet.BufferSet.AllocateFromPending | src/buffer.c:259-275 | never fails while something is pending |
| BufferSet.BufferSet.PendingAlloc | src/buffer.c:299-323 | reserves if and only if enough is available |
| BufferSet.BufferSet.ReleasePendingAlloc | src/buffer.c:277-297 | gives a reservation back |
| BufferSet.BufferSet.ReleaseItem | src/buffer.c:336-376 | an item in use returns to the front of the free list; a cached one is only uncached |
| BufferSet.BufferSet.UserCacheRelease | src/buffer.c:378-417 | an item goes to the end of the free list and is the latest cached one |
| BufferSet.InitLayout | src/buffer.c:474-660 | each refusal exactly when it applies, ENOMEM only without memory; otherwise it succeeds, or is stopped by an assertion; on success the buffers and prologues are disjoint and in the region if and only if nbufs * (size + prologue) fits without wrapping, and then they follow one another, are aligned as the flags ask for, and no assertion fails |

## Left out

- dlmalloc: sizes from 2^40 up (beyond the statement about the bin index), mmapped chunks, `sys_trim`, several segments and their merging, FOOTERS, locks, realloc, memalign and bulk calls, footprint limits; `should_trim` and `release_unused_segments` do nothing for one segment.
- dlmalloc: the run-time address checks (RTCHECK) never fail here, and the corruption actions are not modelled.
- Mspace.Mspace.SysAlloc: either refuses or gets bytes that continue the segment; the other outcomes of `sys_alloc` make a second segment.
- Mspace.Mspace.constructor: the end of the space is a multiple of 4; otherwise the flag bits of top share bits with its size. The bytes skipped to align the start must leave room for the mspace; the source does not count them when it checks the capacity.
- MspaceRun.Run: a release of what is not live is skipped, because the source leaves it undefined.
- TreeBins: the size of a chunk is kept beside its tree node; in memory it stands in the head word of the chunk, and `Mspace` ties the two.
- isa-l: generation and inversion of matrices are assumed as stated in `ErasureMatrix.Sound`; the 32-byte tables per coefficient are represented by the coefficient. Null pointer checks and the pool of encode caches are not modelled.
- ErasureRebuild.Decoder.Prepare: the sum of k and p is taken without 32-bit wrap-around.
- CRC-24Q: the statistical claim about longer bursts in the header (item 5).
- Epoll: references for the events of one batch in `epoll_mgr_wait_and_process_events`, the wake handle and eventfd, environment variables, logging; `epoll_handle_mod`. Memory is sequentially consistent, the install lock of close is a condition of the steps, and a handle is initialised again only when nothing is under way with it, and added by one thread at a time.
- EpollReap.ReapDestroyList: is about the loop alone, without steps of other threads between its rounds; `EpollRuns.StepKeeps` covers those.
- Reference-counted tree: the red-black tree of `tree.h` is a set of elements searched by key; changes by more than one reference at a time.
- VBasic.Allocator.Free: freeing what is not live with matching bits clears those bits, as in the source; the account of live blocks then no longer holds, and nothing more is claimed.
- VBasicRun.Run: a release of what is not live is skipped.
- VBasic: `niova_vbasic_init` and the count of assigned units.
- Bitmap: attach functions, copies, 32-bit words and the range operations that work within one word.
- CircleQueue: insertion after or before an element, and replacement. TailQueue: insertion and removal after an element, and swaps. An element is in one list at a time.
- IoVec: 64-bit wrap-around of byte counts; `niova_io_iterate_iovs` and the copy functions.
- TcpSend.Send: retries are the entries of a list of outcomes; when they are used up the send is still trying, where the source keeps on calling.
- TcpFraming.Connection.Run: no EAGAIN falls inside a header, and the size callback does not return EAGAIN; the source would lose its place in the stream. Credits for memory are not balanced in the source and not modelled.
- TcpHandoff: epoll events of a connection whose handoff is set are only logged, as in the source; the sockets and the epoll re-arming are not modelled.
- EvPipe: a failing write or a cleanup.
- BufferSet: destruction, registration with the control interface, and the touching of pages. Allocation happens only when space is available or nothing is pending, which the source asserts.
- BufferSet.InitLayout: the size of the region is a multiple of the alignment, which the source asserts.
- Registry, watchdog, fault injection, histograms, configuration tokens, control interface, sockets and files.

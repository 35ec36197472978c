# Shared byte buffers, verified

This project models the byte-buffer library of the repository: the handles `Bytes`, `BytesMut` and
`Vec` that share reference-counted memory, the concurrent promotion of a `Bytes` that many threads
clone, the read and write cursors with their `Chain` and `Take` adapters, `ByteStr`, and the ASCII
integer parsers.  `dafny verify dfyconfig.toml` checks all of it.

## How the model is built

* `Basics.dfy` has what all parts share.
* `Heap.dfy` holds the state as a value: allocations, control blocks (`Shared`), the table of live
  handles and the log of deallocations.  One invariant `Inv` says that every block counts its
  handles, every live allocation has one owner, an unpromoted handle reaches to the end of its
  allocation, and no `BytesMut` window overlaps another handle's window in the same buffer.  Small
  transitions (`Spawn`, `Release`, `Reshape`, `Promote`, `Demote`, `Fork`, `Rename`, `Poke`,
  `Split`) come with a lemma each that they keep `Inv` and what they do to `Views`, the bytes that
  each handle shows.
* `Buffers.dfy` is the library itself: a class `Memory` whose fields are the tables, and one method
  for each operation of `Bytes` and `BytesMut`, updating the tables statement by statement.  A panic
  is a `None` or `false` result that leaves everything as it was.
* `Runs.dfy` composes the methods into arbitrary programs and proves that shared buffers behave as
  private sequences; `Pieces.dfy` cuts and rejoins one buffer; `Streams.dfy` freezes, thaws and
  counts moved bytes.
* `Promotion.dfy` is a step system for any number of threads that split, freeze, clone, convert, reclaim
  and drop the handles of one buffer, one step per atomic access, through any number of take-overs.
* `Cursors.dfy`, `Vectored.dfy`, `Sinks.dfy` and `Ints.dfy` are the cursor algebra over values;
  `Transfer.dfy` puts the read cursors over `Memory` for `put` and `copy_to_bytes`, which call each
  other.  The measure that ends their recursion is the size of the adapter tree, but only while
  the receiving buffer has no capacity; once it has, no call leads back.
* `Words.dfy` is the encoding of the `data` word and the comparison of addresses; `Utf8.dfy` is the
  grammar in section 4 of RFC 3629; `ByteStrs.dfy` runs `ByteStr` operations among all others;
  `Num.dfy` is the parsers.

A cursor tree is an owned value in the source, with no aliasing, so a method that advances one
takes the tree and returns the new one.

## Where the code and its documentation disagree

The model follows the code, and these lemmas say exactly what happens.

* `Take::chunks_vectored` has 32 temporary slots, but `poll_write_buf_vectored` passes 64
  (src/io/write.rs:187).  `Vectored.FaithfulIff`: the slices start the content of every contiguous
  tree if and only if there are at most 32 slots; `Vectored.SocketWriteSkips` gives the tree.
* A buffer with several chunks that relies on the default `chunks_vectored` is skipped over under a
  `Chain`.  `Vectored.DefaultFaithfulIff`: over all trees the slices start the content if and only
  if there is at most one slot; `Vectored.DefaultSkips` gives the tree for any two or more.  If only
  the last leaf has several chunks, 32 slots are safe again (`Vectored.GatheredInOrder`).
* `try_unsplit` compares addresses and tags, not control blocks.  `Words.AddressTestIff`: this
  agrees with comparing places except when one allocation ends where the other begins, and
  comparing the `data` words as well would be exact; `Words.TouchingBuffers` reaches the exception by
  library calls.  `Words.TouchingMerged`: the merge then leaves a window that reaches past its
  allocation, and the invariant is gone.
* The thread that loses the exchange in `promote_ref` releases a block whose count is 2, so the
  block is left with count 1 for good (`Promotion.AtRest`, `Promotion.LostExchangeStrands`).  The
  buffer is freed once all the same.
* `into_vec` and `into_mut` of a shared handle give the count back before they copy.  The copy can
  fail in two ways, each of them exactly when the handle was not unique at the call.
  `Promotion.LateIffShared`: some continuation frees the buffer under the copy (`Promotion.LateCopy` is
  a short schedule).  `Promotion.OverwrittenIffShared`: some continuation overwrites the bytes under
  the copy, because whoever is left sees count 1 and takes the buffer: a `BytesMut` by reclaiming it
  (`Streams.OverwrittenFront` on real bytes), a `Bytes` by a conversion of its own
  (`Streams.OverwrittenByBytes`).  Keeping a second handle until the copy is done is enough if and only
  if that handle is a `Bytes` (`Promotion.KeptIffBytes`).
* `copy_to_bytes` documents a panic only past the end.  A chain that is cut inside its second half
  also panics when the lengths of its halves do not add up in a machine word, even if all the bytes
  asked for remain (`Transfer.OverflowIsReached`); `Transfer.CopyToBytes` and `Transfer.Put` say
  exactly when.
* `advance_unchecked` of a `BytesMut` asserts a strict bound on the offset, which an allocation of
  exactly `isize::MAX` bytes misses when it is advanced to its end (`Words.AdvanceMasks`).
* `try_reclaim` may answer no although the room exists: it insists that the data fits into the gap
  before it.  `Buffers.Memory.TryReclaim` states the answer exactly.
* The data word of a static handle carries the tag of a promoted one, so null has to be tested
  first (`Words.StoredReads`).
* `atoi` refuses inputs longer than 20 bytes, leading zeros included, although the value may fit
  (`Num.AtoiExact`).

## Model

| member | source | states |
|---|---|---|
| `Runs.Run` | src/bytes/bytes_mut.rs:217-945 | value semantics: over any sequence of operations, `put` and `copy_to_bytes` through any adapter tree included, every live handle shows what it would show if all handles owned private sequences, so no in-place write, backward copy or reallocation is visible through another handle |
| `Runs.Do` | src/bytes/bytes.rs:169-755 | one step of any operation keeps the invariant and has its private-sequence meaning, panics included |
| `Runs.RunAndDropAll` | src/bytes/shared.rs:160-194 | any program that drops everything has freed each allocation of its own exactly once and left every count at zero |
| `Heap.ExactlyOneOwner` | src/bytes/shared.rs:109-217 | a live allocation has exactly one owner: one sole handle, or one control block whose count is the number of live handles on the allocation and whose capacity is the allocation's |
| `Heap.LiveIffKept` | src/bytes/bytes.rs:643-658 | an allocation is unfreed exactly while some handle is on it |
| `Heap.ExclusiveWindows` | src/bytes/bytes_mut.rs:637-649 | no byte of the window of a `BytesMut` or vector is in the window of any other handle on the allocation |
| `Heap.NothingLeaks` | src/bytes/shared.rs:160-194 | with no handles left all counts are zero and each allocation was freed once |
| `Heap.ReleaseOk` | src/bytes/bytes_mut.rs:811-824 | dropping a handle keeps the invariant and every other view |
| `Heap.PromoteOk` | src/bytes/shared.rs:109-123 | moving a buffer under a control block keeps the invariant and every view |
| `Heap.DemoteOk` | src/bytes/shared.rs:203-217 | taking a buffer back from a block counted once keeps the invariant and every other view |
| `Heap.SplitOk` | src/bytes/bytes_mut.rs:705-718 | sharing a buffer and narrowing the two handles to disjoint parts of the old window keeps the invariant |
| `Heap.PokeOk` | src/bytes/bytes_mut.rs:735-748 | writing inside an exclusive window, or into a buffer with one handle, changes no other handle's bytes |
| `Buffers.OriginalBufferIsWhole` | src/bytes/bytes_mut.rs:201-209 | rebuilding the vector of an unpromoted handle always yields the base and capacity of the whole allocation |
| `Buffers.UniqueIsAlone` | src/bytes/shared.rs:127-136 | the uniqueness test is true exactly when no other handle is on the allocation |
| `Buffers.NeighboursMeet` | src/bytes/bytes_mut.rs:789-806 | a view that ends where a non-empty mutable window begins has no spare room, and both are on one control block |
| `Buffers.MergedClear` | src/bytes/bytes_mut.rs:789-806 | the joined window overlaps no third handle |
| `Buffers.MergedOk` | src/bytes/bytes_mut.rs:789-806 | joining two windows that meet joins their bytes, drops one count and disturbs nothing else |
| `Buffers.GrowthPays` | src/bytes/bytes_mut.rs:259-306 | the reclaim guard and the doubling rule pay for the moved bytes out of the potential |
| `Buffers.AppendOk` | src/bytes/bytes_mut.rs:735-748 | bytes stored after the view extend it and nothing else |
| `Buffers.Memory.Drop` | src/bytes/bytes.rs:643-658 | the view disappears, the count falls by one, and the buffer is freed exactly by its last handle |
| `Buffers.Memory.CopyNonoverlapping` | src/bytes/bytes_mut.rs:308-340 | every use has disjoint source and destination, both in live memory |
| `Buffers.Memory.NewEmptyWithPtr` | src/bytes/bytes.rs:136-142 | an empty static handle at any place |
| `Buffers.Memory.FromStatic` | src/bytes/bytes.rs:38-44 | a static handle on bytes that are never freed |
| `Buffers.Memory.ShallowClone` | src/bytes/bytes_mut.rs:705-718 | promotes an unpromoted handle with count 2, or counts one more |
| `Buffers.Memory.AdvanceUnchecked` | src/bytes/bytes_mut.rs:682-703 | the window shrinks from the front, and an unpromoted handle counts the distance |
| `Buffers.Memory.BytesFromVec` | src/bytes/bytes.rs:52-81 | empty: nothing kept; full: unpromoted; with slack: promoted at once |
| `Buffers.Memory.IsUnique` | src/bytes/bytes.rs:567-578 | true exactly for the only handle of a heap allocation |
| `Buffers.Memory.CloneInner` | src/bytes/bytes.rs:608-641 | a second handle with the same view; the original keeps its window |
| `Buffers.Memory.SliceBound` | src/bytes/bytes.rs:173-227 | the bytes at exactly the indices that the two bounds admit, in order, in a second handle, or in an uncounted empty one; a panic without effect exactly when the range is reversed or reaches past the view |
| `Buffers.RangeIsPicked` | src/bytes/bytes.rs:173-227 | the computed start and end of a range against the indices that its bounds admit, inclusive, exclusive and open ones |
| `Buffers.Memory.SliceFromRaw` | src/bytes/bytes.rs:252-279 | the sub-view at a given place, a panic without effect when it leaves the view on either side |
| `Buffers.Memory.AdvanceBytes` | src/bytes/bytes.rs:344-403 | drops a prefix of the view, or panics without effect |
| `Buffers.Memory.TrySplitOffBytes` | src/bytes/bytes.rs:460-482 | two handles whose views are the two parts; the exact records at both ends, where nothing is counted, and between them |
| `Buffers.Memory.TrySplitToBytes` | src/bytes/bytes.rs:535-557 | as `TrySplitOffBytes`, the other way round; splitting off everything hands the handle over unchanged, splitting off nothing counts nothing |
| `Buffers.Memory.CutBytes` | src/bytes/bytes.rs:535-557 | a cut strictly inside: a second handle on the buffer, and the two views are the parts |
| `Buffers.Memory.TruncateBytes` | src/bytes/bytes.rs:294-306 | keeps a prefix in its place, promoting first so that no unpromoted handle has a tail gap; a length past the view changes nothing |
| `Buffers.Memory.TruncateOffBytes` | src/bytes/bytes.rs:321-326 | drops a suffix, or nothing when it is too long |
| `Buffers.Memory.ClearBytes` | src/bytes/bytes.rs:330-332 | an empty view, the old share given up |
| `Buffers.Memory.IntoVec` | src/bytes/bytes.rs:665-710 | exactly the view as a vector, reusing the allocation precisely when the handle is unique, and then moving bytes only over a gap |
| `Buffers.Memory.CopyOut` | src/bytes/bytes.rs:665-710 | a shared or static handle gets a fresh vector with exactly its bytes |
| `Buffers.Memory.MoveBackward` | src/bytes/shared.rs:203-217 | closes the head gap correctly for overlapping and disjoint moves |
| `Buffers.Memory.IntoMut` | src/bytes/bytes.rs:717-755 | keeps the bytes; a unique handle also keeps pointer and allocation and gains all room behind it |
| `Buffers.Memory.TakeOver` | src/bytes/bytes.rs:737-750 | the unique handle of a shared buffer becomes an unpromoted `BytesMut` in place, with all room behind it |
| `Buffers.Memory.MutFromVec` | src/bytes/bytes_mut.rs:115-127 | the vector's view, unpromoted with offset 0 |
| `Buffers.Memory.MutWithCapacity` | src/bytes/bytes_mut.rs:105-107 | an empty unpromoted handle on a fresh allocation with at least the room asked for |
| `Buffers.Memory.MutCopyFromSlice` | src/bytes/bytes_mut.rs:111-113 | an unpromoted handle on a fresh allocation that shows exactly the bytes |
| `Buffers.Memory.AdvanceMut` | src/bytes/buf.rs:367-378 | drops a prefix of the view, or panics without effect |
| `Buffers.Memory.TruncateMut` | src/bytes/bytes_mut.rs:423-427 | keeps a prefix and all of the window |
| `Buffers.Memory.Freeze` | src/bytes/bytes_mut.rs:456-466 | same bytes in the same place; unpromoted afterwards exactly when there was no spare room |
| `Buffers.Memory.FreezeSole` | src/bytes/bytes_mut.rs:458-464 | the unpromoted case: the vector is rebuilt, converted and moved forward again |
| `Buffers.Memory.Reallocate` | src/bytes/bytes_mut.rs:259-306 | the view moves to a fresh allocation, and the old one loses a handle |
| `Buffers.Memory.CopyToNew` | src/bytes/bytes_mut.rs:285-297 | the view is in the new allocation before the old one is let go |
| `Buffers.Memory.GrowTail` | src/bytes/bytes_mut.rs:316-325 | the unclaimed tail joins the window of the only handle |
| `Buffers.Memory.SlideBack` | src/bytes/bytes_mut.rs:259-340 | the view moves to the base of a buffer it has to itself, seen by nobody |
| `Buffers.Memory.ReclaimShared` | src/bytes/bytes_mut.rs:308-340 | with count 1 the tail, then the head, is reclaimed; the answer is exact in terms of the allocation |
| `Buffers.Memory.ReserveInner` | src/bytes/bytes_mut.rs:249-372 | succeeds exactly if allocation is allowed or the allocation has the room and nobody else keeps it; allocates exactly if not, then at least doubling; views unchanged on every branch |
| `Buffers.Memory.Reserve` | src/bytes/bytes_mut.rs:217-223 | afterwards the spare room suffices and no view changed; allocates exactly when the allocation lacks the room or is kept by another; otherwise the window reaches to its end, the view in place if the tail suffices |
| `Buffers.RoomRecorded` | src/bytes/bytes_mut.rs:249-340 | what offset, capacity and count record about the room is what the allocation and its handles say |
| `Buffers.Memory.TryReclaim` | src/bytes/bytes_mut.rs:227-233 | yes exactly when the spare room suffices, or nobody else keeps the allocation and the bytes behind the window suffice, or the bytes around the view do and the view fits before itself; nothing is allocated or freed; a no leaves pointer, length and bytes |
| `Buffers.Memory.TryReclaimFull` | src/bytes/bytes_mut.rs:237-244 | a yes means that the window is the whole allocation; the exact condition of the answer |
| `Buffers.Memory.ExtendFromSlice` | src/bytes/bytes_mut.rs:735-748 | the view grows by exactly the bytes given, paid for by the potential |
| `Buffers.Memory.Append` | src/bytes/bytes_mut.rs:735-748 | with the room there, bytes are stored behind the view and only the length changes |
| `Buffers.Memory.Overwrite` | src/bytes/bytes_mut.rs:155-157 | a write through the mutable slice replaces just those bytes of this view, and no other handle sees it |
| `Buffers.InsideCells` | src/bytes/bytes_mut.rs:857-859 | bytes written inside a range replace just those |
| `Buffers.Memory.TrySplitTo` | src/bytes/bytes_mut.rs:541-553 | the exact two records, pointer, length and capacity: the first part leaves in a window without spare room; views are the two parts |
| `Buffers.Memory.TrySplitOff` | src/bytes/bytes_mut.rs:637-649 | the exact two records for every cut up to the capacity: everything from the cut on leaves, spare room included; views are the two parts |
| `Buffers.Memory.TryUnsplit` | src/bytes/bytes_mut.rs:789-806 | merges exactly when the test holds; success on a non-empty window forces a full front on the same block |
| `Buffers.Memory.Unsplit` | src/bytes/bytes_mut.rs:772-781 | the bytes of the second follow those of the first, whether merged, moved in or copied |
| `Pieces.CutAndRejoin` | src/bytes/bytes_mut.rs:772-806 | any number of cuts, rejoined from left to right, gives back the bytes; with no cut in the spare room also pointer, length, capacity and count |
| `Pieces.TiledCut` | src/bytes/bytes_mut.rs:541-649 | a cut leaves the windows of the pieces tiling the original window |
| `Pieces.CutAll` | src/bytes/bytes_mut.rs:541-649 | after any number of cuts, in the spare room too, the windows cover the old one without gap, their capacities add up to the old one, and the bytes are the old ones |
| `Pieces.AdjacentCut` | src/bytes/bytes_mut.rs:637-649 | one cut anywhere in a window keeps the cover |
| `Pieces.TiledJoin` | src/bytes/bytes_mut.rs:789-806 | neighbouring pieces of a tiling always merge without copying |
| `Streams.FreezeThaw` | src/bytes/bytes.rs:717-755 | freezing and thawing keeps the bytes, and for a lone non-empty handle the pointer, with no less capacity and no new allocation |
| `Streams.Stream` | src/bytes/bytes_mut.rs:249-306 | any interleaving of appends and advances moves at most three bytes per byte appended and one per byte consumed, beyond the starting potential |
| `Streams.FreshStream` | src/bytes/bytes_mut.rs:217-223 | the same from a fresh buffer, with no starting potential |
| `Streams.OverwrittenFront` | src/bytes/bytes_mut.rs:308-340 | two halves of a buffer of any bytes: once the frozen front has given its count up, reclaiming through the back puts the back's bytes where the front's were, the back being live throughout and nothing freed |
| `Streams.OverwrittenByBytes` | src/bytes/bytes.rs:665-710 | the same with both halves frozen: `into_vec` of the back puts its bytes where the front's were, with no `BytesMut` about |
| `Promotion.StepOk` | src/bytes/bytes.rs:580-604 | every atomic step of every thread keeps the concurrent invariant |
| `Promotion.SplitOk` | src/bytes/bytes.rs:608-641 | through `&mut self`, one more handle of the same type on the same block, installed if there was none; the invariant is kept |
| `Promotion.Quiet` | src/bytes/bytes.rs:608-641 | when the only handle is held through `&mut self` or by value, nothing is under way but copies made too late |
| `Promotion.TakeOverOk` | src/bytes/bytes.rs:737-750 | `into_mut` of the last handle leaves it unpromoted and its block gone, and keeps the invariant |
| `Promotion.FromVecOk` | src/bytes/bytes_mut.rs:115-127 | a vector that becomes a buffer again keeps the invariant |
| `Promotion.FreezeOk` | src/bytes/bytes_mut.rs:456-466 | freezing keeps the invariant and promotes exactly when there is spare room |
| `Promotion.RunOk` | src/bytes/bytes.rs:772-816 | every reachable state of every interleaving satisfies it |
| `Promotion.OneInstalled` | src/bytes/bytes.rs:772-816 | through any number of take-overs and promotions: an unpromoted handle is alone, promoted handles all carry one installed block that counts them, and an installed block is counted above zero exactly while a handle carries it |
| `Promotion.StepsAreSafe` | src/bytes/shared.rs:139-194 | no increment starts from zero, and giving up a losing block frees nothing |
| `Promotion.FreedOnce` | src/bytes/shared.rs:160-194 | the buffer is freed at most once, and is untouched exactly while a handle lives |
| `Promotion.NoFreeDuringClone` | src/bytes/bytes.rs:580-604 | while a clone is under way nothing is freed and its source is alive |
| `Promotion.AtRest` | src/bytes/bytes.rs:795-816 | when all is quiet the buffer was freed once, every installed count is zero, and each lost exchange left one block with count 1 |
| `Promotion.LostExchangeStrands` | src/bytes/bytes.rs:795-816 | a schedule in which a block is so left |
| `Promotion.LostOnlyInRaces` | src/bytes/bytes.rs:580-604 | if no two clones overlap no exchange is lost, and every block that was ever allocated was installed |
| `Promotion.LoserLoadedFirst` | src/bytes/bytes.rs:795-816 | a thread that loses its exchange loaded before another thread's installation that beat it |
| `Promotion.PromotedClone` | src/bytes/bytes.rs:591-602 | a clone that begins on a promoted handle takes one load and one increment, whatever goes on beside it, and neither allocates nor loses |
| `Promotion.CopiesIffShared` | src/bytes/bytes.rs:665-755 | `into_vec` and `into_mut` copy after their decrement exactly when the count is not 1, that is when other handles live |
| `Promotion.LateIffShared` | src/bytes/bytes.rs:665-755 | from any reachable state, the buffer can be freed under the copy of a conversion, the call still under way, if and only if the handle was not unique at the call |
| `Promotion.OverwrittenIffShared` | src/bytes/bytes.rs:665-755 | from any reachable state, the bytes can be overwritten under the copy, the call still under way, if and only if the handle was not unique at the call |
| `Promotion.DisturbedIffShared` | src/bytes/bytes.rs:665-755 | the bytes can be freed or overwritten under the copy if and only if the handle was not unique at the call |
| `Promotion.KeptIffBytes` | src/bytes/bytes.rs:665-755 | with a second handle kept until the copy, every interleaving leaves the bytes unfreed and as they were if and only if that handle is a `Bytes` |
| `Promotion.KeptCopyIsSafe` | src/bytes/bytes.rs:717-755 | as long as a second handle is kept that is a `Bytes`, or a `BytesMut` that does not reclaim, no interleaving frees or overwrites the bytes before the copy |
| `Promotion.LateCopy` | src/bytes/bytes.rs:665-710 | a schedule in which the buffer is freed before the copy |
| `Cursors.RemainingIsLength` | src/bytes/chain.rs:31-33 | `remaining` is the length of the content, saturated at the word size |
| `Cursors.ChunkIsPrefix` | src/bytes/chain.rs:35-41 | `chunk` is a prefix of the content, empty only when nothing remains |
| `Cursors.ChunkEndsFirst` | src/bytes/take.rs:33-36 | a chunk ends where a piece of memory or a limit does, and none ends inside it |
| `Cursors.MovedContent` | src/bytes/take.rs:38-42 | moving a nested cursor drops exactly a prefix of its content |
| `Cursors.MovedTwice` | src/bytes/chain.rs:43-49 | two moves are one move by the sum, leaf by leaf and limit by limit |
| `Cursors.Advance` | src/bytes/chain.rs:43-49 | `advance` moves the cursor, and panics exactly past the end |
| `Cursors.CopyToSlice` | src/bytes/buf.rs:177-188 | the loop returns the first bytes over any chunking and leaves the rest |
| `Vectored.ChunksVectored` | src/bytes/chain.rs:51-55 | fills the slots it is given with the gathered slices and touches no other slot |
| `Vectored.TakeVectored` | src/bytes/take.rs:44-70 | the temporary slots and the running limit amount to clipping the inner slices |
| `Vectored.ClipKeeps` | src/bytes/take.rs:57-67 | clipping keeps the first `limit` bytes, and drops slices only when it has them all |
| `Vectored.GatheredCovers` | src/bytes/take.rs:44-70 | with at most 32 slots the slices are non-empty, start the content, and fill all slots or cover everything |
| `Vectored.GatheredIterates` | src/bytes/take.rs:44-70 | gathering gives the slices that reading and advancing chunk by chunk would give, for at most 32 slots, and for any number without `Take` |
| `Vectored.GatheredIsBounded` | src/bytes/buf.rs:147-158 | for any tree and any slots: no empty slice, no more bytes than remain, and at least one slice if there is a slot and a byte |
| `Vectored.FaithfulIff` | src/bytes/take.rs:49-54 | the slices start the content of every tree whose last leaf alone may have several chunks, and of every contiguous tree, if and only if there are at most 32 slots |
| `Vectored.SocketWriteSkips` | src/io/write.rs:182-197 | with the 64 slots of the socket write some buffer loses bytes |
| `Vectored.DefaultFaithfulIff` | src/bytes/buf.rs:147-158 | with leaves of several chunks anywhere, the slices start the content of every tree if and only if there is at most one slot |
| `Vectored.DefaultSkips` | src/bytes/buf.rs:147-158 | one tree on which any two or more slots lose bytes |
| `Vectored.GatheredInOrder` | src/bytes/chain.rs:51-55 | if only what comes last has several chunks, at most 32 slots start the content |
| `Vectored.OneSlot` | src/bytes/buf.rs:147-158 | a single slot starts the content of every tree |
| `Vectored.WriteVectored` | src/io/write.rs:182-197 | with one slot, or with at most 32 if only the last leaf has several chunks, what was sent followed by what remains is the content, wherever the writer stopped |
| `Sinks.PlacesArePacked` | src/bytes/chain.rs:76-96 | the memory behind packed chained slices is what was written, then what was there |
| `Sinks.RemainingMutIsRoom` | src/bytes/chain.rs:77-79 | `remaining_mut` is the free room, saturated |
| `Sinks.ChunkLenFits` | src/bytes/chain.rs:81-87 | `chunk_mut` is within the room and empty only without room |
| `Sinks.ChunkIsOneSlice` | src/bytes/chain.rs:81-87 | `chunk_mut` is all that is free of the slice at which writing goes on |
| `Sinks.WriteChunk` | src/bytes/chain.rs:81-87 | storing into `chunk_mut` changes only the next free bytes and moves nothing |
| `Sinks.AdvanceMut` | src/bytes/chain.rs:89-95 | advancing counts the next bytes as written, in order and without gaps |
| `Sinks.PutSlice` | src/bytes/buf_mut.rs:155-170 | writes exactly the slice over any cuts and panics exactly when it does not fit |
| `Sinks.PutBuf` | src/bytes/buf_mut.rs:124-144 | transfers and drains any read cursor, chunk against chunk, and panics exactly when it does not fit |
| `Ints.DecodeEncode` | src/bytes/buf_mut.rs:16-18 | every integer of each width, sign and order is decoded from its bytes |
| `Ints.EncodeDecode` | src/bytes/buf.rs:23-28 | every byte pattern is the encoding of the one number it decodes to |
| `Ints.EncodePlaces` | src/bytes/buf_mut.rs:16-30 | each byte is the digit of its place in base 256, most significant first in big order, and negative numbers count from the top |
| `Ints.DecodeWeighted` | src/bytes/buf.rs:23-28 | what is read is the weighted sum of the bytes, less the modulus for signed patterns in the upper half |
| `Ints.Powers` | src/bytes/buf_mut.rs:16-18 | the moduli of the five widths |
| `Ints.DecodedEncoded` | src/bytes/buf.rs:23-28 | lists of integers are decoded from their concatenated bytes |
| `Ints.PutByte` | src/bytes/buf_mut.rs:192-200 | one byte written, or a panic exactly without room |
| `Ints.PutInt` | src/bytes/buf_mut.rs:16-18 | one integer written as the base 256 digits of its places in the order asked for, or a panic exactly when it does not fit |
| `Ints.PutInts` | src/bytes/buf_mut.rs:155-170 | a list of integers written as its encoding, or a panic exactly when it does not fit |
| `Ints.GetByte` | src/bytes/buf.rs:252-256 | the first byte and the rest, or `None` exactly at the end |
| `Ints.GetInt` | src/bytes/buf.rs:23-28 | the weighted sum of the next bytes in the order asked for, signed if asked, or a panic exactly when they are missing |
| `Ints.GetInts` | src/bytes/buf.rs:177-188 | a list of integers read over any chunking |
| `Ints.RoundTrip` | src/bytes/buf.rs:177-188 | integers written into slices cut anywhere and read through any cursor that holds those bytes, however chunked, come back, and memory past them keeps its bytes |
| `Transfer.CopiedIs` | src/bytes/buf.rs:350-391 | with private sequences, `copy_to_bytes` takes the first bytes from the leaves that hold them, in order, and gives them to a new `Bytes` |
| `Transfer.FullIs` | src/bytes/bytes_mut.rs:920-945 | with private sequences, `put` takes all bytes from the leaves that hold them and appends them in order |
| `Transfer.SrcAdvance` | src/bytes/take.rs:38-42 | advancing a cursor over live handles moves it, panics exactly past the end, and in either case disturbs no other handle |
| `Transfer.SrcChunk` | src/bytes/chain.rs:35-41 | the chunk of a cursor over live handles is that of the cursor over their bytes |
| `Transfer.CopyToBytes` | src/bytes/take.rs:72-77 | a new `Bytes` with exactly the first bytes of any adapter tree, the tree moved past them, no other handle changed; panics exactly when they are not there or a chain cut inside its second half overflows; a handle that gives all of them hands its place over |
| `Transfer.ChainedToBytes` | src/bytes/chain.rs:57-73 | the three ways of a chain agree with the simple sequence, and panic exactly on an overflow or past the end |
| `Transfer.FittingNeverOverflows` | src/bytes/chain.rs:64-67 | nothing overflows while all lengths, sums included, fit a machine word |
| `Transfer.OverflowIsReached` | src/bytes/chain.rs:64-67 | a tree with two bytes remaining on which asking for two overflows |
| `Transfer.OverflowsIff` | src/bytes/chain.rs:64-67 | the overflow in terms of bytes: the cut falls inside the second half of a chain whose content passes a machine word |
| `Transfer.BothToBytes` | src/bytes/chain.rs:68-71 | a chain cut inside its second half is copied through a buffer in two transfers that add up |
| `Transfer.PiecesToBytes` | src/bytes/buf.rs:200-206 | the default method agrees with it |
| `Transfer.PutFirst` | src/bytes/buf.rs:200-206 | putting a limited cursor appends exactly the first bytes and moves the cursor past them |
| `Transfer.HeldToBytes` | src/bytes/buf.rs:350-391 | `Bytes` and `BytesMut` split instead of copying, and only the two records change |
| `Transfer.Put` | src/bytes/bytes_mut.rs:920-945 | terminates for every tree and every buffer, zero capacity included; appends exactly the remaining bytes and drains the source, whichever leaves are passed by value; panics exactly when a buffer without capacity asks for bytes whose lengths overflow, and then has dropped what was passed by value; a buffer without capacity takes the giver's allocation over, in place, exactly if nobody else keeps it |
| `Transfer.HandedUnique` | src/bytes/bytes_mut.rs:928-936 | the copied-out handle is unique exactly if the dropped leaves, and a giver that gave all, were the only others on the buffer |
| `Transfer.GiverGives` | src/bytes/chain.rs:57-73 | the handle whose buffer changes hands is the one leaf that all the bytes come from |
| `Transfer.PutCopied` | src/bytes/bytes_mut.rs:928-936 | dropping the source before the uniqueness test, then taking over or copying |
| `Transfer.Adopt` | src/bytes/bytes_mut.rs:928-936 | the copied-out source replaces the buffer in place when unique; otherwise it is copied, and the buffer ends on another allocation |
| `Transfer.PutChunks` | src/bytes/bytes_mut.rs:937-944 | the copying loop appends the same bytes, in place if they fit, with at most one allocation, exactly when there is no room |
| `Words.MaskExact` | src/bytes/shared.rs:100-107 | masking succeeds exactly for payloads with a clear top bit, and masking and unmasking are inverse both ways |
| `Words.WordSizes` | src/bytes/shared.rs:100-107 | the machine word and its halves as powers |
| `Words.StoredReads` | src/bytes/shared.rs:36-68 | the three readings of the word are told apart, and each word is read as what was stored |
| `Words.AdvanceMasks` | src/bytes/bytes_mut.rs:682-703 | advancing stores the word of the advanced handle and never trips the assertions of the masking; the strict assertion after it trips exactly at the end of an allocation of `isize::MAX` bytes |
| `Words.AddressTestIff` | src/bytes/bytes_mut.rs:789-806 | comparing addresses is comparing places except across allocations that touch |
| `Words.TouchingBuffers` | src/bytes/bytes_mut.rs:789-806 | two buffers never split from one another, made by library calls, on which the comparison holds |
| `Words.TouchingMerged` | src/bytes/bytes_mut.rs:789-806 | merging across allocations that touch leaves a window past the end of its allocation, and the invariant is broken |
| `Num.AtouExact` | src/num/num.rs:13-23 | accepts exactly the non-empty digit strings of at most 20 bytes whose value fits, and returns the value |
| `Num.AtoiExact` | src/num/num.rs:49-68 | the same with an optional sign and the signed range, the least number included |
| `Num.FoldUIs` | src/num/num.rs:17-22 | an intermediate overflow means that the final value overflows |
| `Num.FoldIIs` | src/num/num.rs:60-67 | the same towards both ends of the signed range |
| `Num.WrappingExact` | src/num/num.rs:36-43 | the value modulo 2^64 for any number of digits |
| `Num.ValueSnoc` | src/num/num.rs:17-22 | what a digit string is worth, digit by digit |
| `Num.AgreeIff` | src/num/num.rs:36-43 | the two unsigned parsers agree exactly on non-digit strings and on what the checked one accepts |
| `Num.ShortAgree` | src/num/num.rs:31-34 | they agree on every non-empty input of at most 19 bytes |
| `Num.PrintParse` | src/num/num.rs:13-23 | every 64-bit number is parsed from its decimal digits |
| `Num.PrintParseInt` | src/num/num.rs:49-68 | and every signed one |
| `Utf8.CutValid` | src/bytes/bytestr.rs:109-114 | a cut of valid UTF-8 leaves a valid front, and a valid back, exactly at a character boundary |
| `Utf8.ValidIffText` | src/bytes/bytestr.rs:28-33 | the valid strings are exactly the concatenated encodings of scalar values |
| `Utf8.SliceValid` | src/bytes/bytestr.rs:148-150 | a part between two boundaries is valid |
| `ByteStrs.Truncate` | src/bytes/bytestr.rs:109-114 | panics exactly when the cut would leave invalid text |
| `ByteStrs.Clear` | src/bytes/bytestr.rs:118-120 | the text becomes empty |
| `ByteStrs.FromUtf8` | src/bytes/bytestr.rs:28-33 | accepts exactly valid UTF-8 |
| `ByteStrs.SliceOf` | src/bytes/bytestr.rs:42-44 | a valid `ByteStr` over shared memory, also from a `Bytes` that is not text |
| `ByteStrs.Step` | src/bytes/bytestr.rs:28-150 | one operation on shared memory, of a `ByteStr` or of anything else, leaves every `ByteStr` valid; `from_slice_of` makes one of any `Bytes`, text or not |
| `ByteStrs.Run` | src/bytes/bytestr.rs:109-150 | over every run that mixes `ByteStr` operations with all others on the same memory, each `ByteStr` stays valid until it is dropped |

## Left out

- Buffers.Memory.TryUnsplit: the second handle is dropped before the first is widened, not after; pointers are (allocation, offset) pairs, so it merges only neighbours in one allocation; `Words.AddressTestIff` says when the comparison of addresses in the code means the same.
- Buffers.Memory.Unsplit: as for `TryUnsplit`, neighbours are found by place.
- Buffers.NeighboursMeet: the hypothesis is that the places meet, which is what the addresses say by `Words.AddressTestIff`.
- Buffers.Memory.IntoVec: sequential; the copy of a shared handle after its release is in `Promotion.LateIffShared`.
- Buffers.Memory.IntoMut: sequential, as for `IntoVec`.
- Buffers.Memory.ReserveInner: the panic when `additional + cap` passes `isize::MAX` is not modelled, because memory has no upper bound here.
- Buffers.Memory.Reserve: as for `ReserveInner`.
- Buffers.Memory.TryReclaim: as for `ReserveInner`.
- Buffers.Memory.TryReclaimFull: as for `ReserveInner`.
- Buffers.Memory.ExtendFromSlice: as for `ReserveInner`.
- Sinks.PutBuf: leaves out one case, more bytes than a room of at least the word size, where both saturated lengths agree and the loop in the source never ends.
- Transfer.CopyToBytes: the panic of an overflow is that of a build with overflow checks; without them the sum in src/bytes/chain.rs:65 wraps.
- Transfer.ChainedToBytes: as for `CopyToBytes`.
- Transfer.Put: as for `CopyToBytes`, which it calls.
- Vectored.GatheredCovers: full coverage is for contiguous leaves, because a leaf with several chunks that keeps the default method offers one slice; what such leaves still promise is in `Vectored.GatheredInOrder` and `Vectored.DefaultFaithfulIff`.
- Sizes are unbounded in `Memory`: `isize::MAX`, capacity overflow, the abort on a count overflow and allocation failure are not modelled; cursors and `Words` do bound their sizes.
- Handles are records in a table under a name rather than objects of their own, so that one invariant can speak of all of them; moving a value is a change of name.
- Weak memory orderings and fences: every atomic access is one sequentially consistent step.
- Promotion covers the handles of one buffer that started unpromoted, without sizes: taking the buffer at count 1 is taken to overwrite all pending copies, where the real effect depends on where the bytes lie.
- The growth of `Vec` beyond what was asked, provenance and `MaybeUninit`: an allocation has at least the capacity asked for, and unspecified contents.
- `advance_to_ptr`, `split_to_ptr`, `split_off_ptr` and `from_box`: wrappers that compute an offset or a vector first.
- The `Vec` leaf of `BufMut`, `UninitSlice`, and `&mut T` and `Box<T>` delegation: forwarding and growth only.
- The `None` that `try_get_*` documents for integers of several bytes: the code panics in `copy_to_slice` before it can return it, and the model calls both `None`.
- Native byte order is one of the two orders and has no member of its own.
- The `io`, `tokio`, `either` and `futures` modules, except the one vectored write: forwarding and pollers.
- Formatting, comparison and conversion boilerplate.

# Verified models of SuperCollider's core algorithms

Dafny models of the hardest shared code of SuperCollider, each written in the form of the C or C++ code it
models and proved against what that code is for.

* **The real-time memory pool `AllocPool`** (`Bits`, `Bins`, `BinBlocks`, `Rings`, `Layout`, `FreeLists`,
  `PoolState`, `Searching`, `Growing`, `Carving`, `Resizing`, `Resetting`, `Accounting`, `PoolLemmas`,
  `AllocPool`, `PoolChecks`, `PoolRuns`, `PoolExamples`). Memory is a map from addresses to 32-byte lines
  (`sizeof(AllocChunk)` and `sizeof(AllocAreaHdr)` are 32); the class `AllocPool` reads and writes the boundary tags,
  the links of the 128 bin rings and the four bitmap words in it exactly as the C++ does. Two ghost fields,
  `chunks` (what tiles the areas) and `rings` (what each bin holds), are the one state that headers, rings and bitmap
  all describe. `PoolInv` says how; every operation keeps it, and says what the new tiling is and that no other live
  block's payload changes. On top of that: best fit and completeness of `Alloc`, the exact condition under which
  `Realloc` keeps the payload, conservation of space, and safety over every run of a client.
* **Two lock-free protocols** (`TripleBuffer`, `MsgFifo`) as state machines in which every atomic load, store or
  exchange is a step of its own; the theorems speak of every interleaving.
* **Open Sound Control packets** (`Osc`, `OscDump`, `ScPacket`, `OscTraffic`): the packet writer `scpacket`, the walk of
  `dumpOSCbndl` over a bundle and the bundles in it, and the argument iterator `sc_msg_iter`, with the round trip from
  messages to bytes and back. The
  formats are those of the Open Sound Control 1.0 Specification, sections "Atomic Data Types", "OSC Type Tag String"
  and "OSC Bundles".
* **Help-document trees** (`DocTree`, `DocNode`): the in-place normalisation `doc_node_fixup_tree` over nodes that are
  released as they are merged away, with its meaning on documents as values.
* **The decimal parser `sc_strtod`** (`Strtod`) over exact reals.
* `Wrappers` and `Chars` hold what these parts share.

Some of this code does not always do what it is for. The contracts say exactly when it does, and a concrete input is
given for each case:

* `RequestToSize` leaves room for the request exactly up to 2^64 - 96; above that the sum wraps around, and the size
  is 0 or 128 (`RequestWraps`).
* `Alloc` leaves the pool broken exactly when it cuts a new area so that less than a minimum chunk is left over, or when
  the request has wrapped to a size of 0 and there is any free chunk or new area to cut from (`CutsTooClose`,
  `BreaksPool`); `PoolExamples.ShortSplitExample` and `PoolExamples.ZeroRequestExample` are runs in which it happens.
* For a request that rounds to 2^31 or more `Alloc` hands out a chunk that is too small exactly when some chunk passes
  the `int32` remainder test (`FirstPick`); that test agrees with a comparison of sizes exactly when the rounded request
  is below 2^31 or its low 32 bits lie between 2^31 and 2^31 + 128 (`FitTestExact`, `FitTestFails`,
  `PoolExamples.HugeRequestExample`).
* `Realloc` keeps the payload exactly when no header falls on it (`HeaderHits`, over the state before the call: the
  block moves back into a free chunk and the header of what is left over lands on the old payload) or the line it falls
  on held the same words already (`LineSurvives`); `PoolExamples.LostLineExample` is a run in which a line is lost. For
  a block, a request that has wrapped to a size of 0 leaves the pool broken (`Ruins`); 2^64 - 64 is one
  (`RequestWraps`).
* `sc_msg_iter::geti` counts a blob argument twice, so that tags and arguments are out of step from then on; `gets`,
  `getb` and `skipb` put them out of step exactly on an argument of another type (`GetI`, `GetS`, `GetB`, `SkipB`,
  `CountedTwice`).
* `scpacket` writes the padded tag string exactly when the tags written need as many words as the tags announced
  (`WriteCalls`, `StaleTags`).
* The dump of a bundle shows exactly the messages whose address is not `#bundle`, `/status` or `status` (`RoundTrip`,
  `BundleAddress`).
* `doc_node_fixup_tree` is idempotent exactly on trees in which no node's children end in two or more newlines that no
  text comes right before (`FixupTwice`, `TwoNewlines`).
* `sc_strtod` returns exactly the number written when the digits after the 18th are zero and the power of ten is not
  clamped (or the kept digits are all zero), and only then (`ExactIff`, `NineteenDigits`, `SixHundred`).

Where comments and code disagree the models follow the code: the comment on `scope_buffer`
(common/scope_buffer.hpp:70-84) has the writer write `_out` and the reader read `_in`, and the flag cleared after the
swap, while the code does each the other way round; the comment on `sc_strtod` (common/strtod.c:73-84) rules out an
"E" without an exponent, while the code takes it and reads an exponent of zero.

`dafny verify dfyconfig.toml` checks the whole project.

## Model

| member | source | states |
|---|---|---|
| Bins.RequestToSize | common/SC_AllocPool.h:156-162 | for every size_t: a multiple of 64, and 0 or at least 128; it leaves room for the request after the header if and only if the request is at most 2^64 - 96, and then wastes less than 64 bytes unless it is the minimum; above that the size wraps to 0, and for the last 32 requests to 128 |
| Bins.RequestWraps | common/SC_AllocPool.h:156-162 | 2^64 - 64 rounds to 0 and 2^64 - 1 to 128 |
| Bins.BinIndex | common/SC_AllocPool.h:180-187 | the count-leading-zeroes form equals the ten-way table for every size and stays below 128 |
| Bins.TableRow | common/SC_AllocPool.h:166-187 | row by row, shift and bit count give the table's value |
| Bins.BinOfBits | common/SC_AllocPool.h:166-187 | from 1024 to 262143 the bin is given by the highest bit of the size and the three bits below it |
| Bins.BinIndexMonotone | common/SC_AllocPool.h:166-178 | larger sizes never go to lower bins |
| Bins.SmallBinExact | common/SC_AllocPool.cpp:315-325 | two chunk sizes share a small bin only if they are equal, so small bins need no size check |
| Bins.FitTestExact | common/SC_AllocPool.cpp:329-338 | the int32 remainder test agrees with the comparison of sizes, for every chunk, if and only if the rounded request is below 2^31 or its low 32 bits lie between 2^31 and 2^31 + 128 |
| Bins.FitTestFails | common/SC_AllocPool.cpp:329-338 | a request that a 128-byte chunk passes the test for |
| BinBlocks.MarkBinBlock | common/SC_AllocPool.h:189-194 | sets the bit of one bin, keeps all others and the 32-bit range of the words |
| BinBlocks.ClearBinBlock | common/SC_AllocPool.h:196-201 | clears the bit of one bin, keeps all others and the 32-bit range of the words |
| BinBlocks.NextFullBin | common/SC_AllocPool.h:203-223 | the least marked bin at or above the start, or -1 if there is none, for every bitmap |
| Bits.LowestBit | include/common/clz.h:86-87 | counting trailing zeroes finds the lowest set bit |
| Bits.HighestBit | include/common/clz.h:95-96 | the number of bits less one is the highest set bit |
| Rings.InsertAfterRefines | common/SC_List.h:52-57 | on a ring that reads as a sequence, InsertAfter is insertion after that element and touches only two neighbours |
| Rings.InsertBeforeRefines | common/SC_List.h:59-64 | InsertBefore is insertion before that element |
| Rings.RemoveRefines | common/SC_List.h:42-45 | RemoveLeaveDangling is deletion from the sequence |
| Rings.RemoveDetaches | common/SC_List.h:47-50 | Remove is deletion and leaves the removed link a ring of its own |
| Rings.InsertThenRemove | common/SC_List.h:42-57 | RemoveLeaveDangling after InsertAfter restores the ring and every line of memory but the link's own |
| Rings.CatRefines | common/SC_List.h:145-167 | Cat of two distinct rings is concatenation and empties the second |
| Rings.PopHead | common/SC_List.h:111-122 | takes the first element off, or answers null on an empty ring |
| Rings.PopTail | common/SC_List.h:133-143 | takes the last element off, or answers null on an empty ring |
| Rings.ContainsBuf | common/SC_List.h:169-178 | true if and only if the link is an element of the ring; the walk ends |
| Rings.SanityCheck | common/SC_List.h:189-201 | on any chain of mNext pointers the walk ends, and it throws if and only if some link's neighbours do not both point back to it |
| Rings.RingIsSound | common/SC_List.h:189-201 | on a ring no link is bad, so the check succeeds |
| FreeLists.LinkKeeps | common/SC_AllocPool.cpp:525-540 | inserting a chunk where the size order wants it, and marking the bin, keeps all rings, orders and bits in agreement |
| FreeLists.UnlinkKeeps | common/SC_AllocPool.h:244-251 | deleting a chunk, and clearing the bit of a bin that becomes empty, does too |
| Layout.TagRead | common/SC_AllocPool.h:60-72 | a tag word gives back the size and the in-use flag that were put in it |
| Layout.NextOf | common/SC_AllocPool.h:64-66 | after a chunk's bytes comes the next chunk, or the end marker, and its tag tells whether it is in use |
| Layout.PrevTag | common/SC_AllocPool.h:68-72 | a chunk's mPrevSize is the tag of the chunk that ends where it begins |
| Layout.SpliceTiled | common/SC_AllocPool.cpp:397-415 | cutting a run of chunks into one or two chunks keeps the tiling of every area |
| Layout.SpliceTagged | common/SC_AllocPool.h:74-78 | writing the tags of the pieces makes the boundary tags describe the new tiling |
| PoolState.LeftOf | common/SC_AllocPool.cpp:164-170 | PrevInUse and PrevSize find the free chunk just before, if there is one |
| PoolState.FreeRun | common/SC_AllocPool.cpp:164-177 | a chunk with its free neighbours is a run that touches no other free chunk |
| PoolState.WholeArea | common/SC_AllocPool.h:80 | IsArea holds of a merged free chunk exactly when it fills its area |
| PoolState.DropArea | common/SC_AllocPool.cpp:223-235 | giving an area back keeps the invariant of all that is left |
| PoolState.FreeOutcome | common/SC_AllocPool.cpp:179-185 | merging and then linking, or giving the area back, amounts to the effect stated for Free |
| PoolState.LastLive | common/SC_AllocPool.cpp:179-185 | freeing a block makes its whole area one free chunk if and only if no other block of the area is live |
| Growing.AreaFits | common/SC_AllocPool.cpp:191-198 | the area starts at the first aligned address of the block, and with its header and end marker lies inside size plus kAreaOverhead |
| Growing.AddArea | common/SC_AllocPool.cpp:190-221 | formatting a new area makes it one free chunk and keeps the invariant of the others |
| Searching.BestFound | common/SC_AllocPool.cpp:342-354 | the smallest chunk that passes the test in the first bin that has one is a smallest such chunk of all bins gone through |
| Searching.NoneFound | common/SC_AllocPool.cpp:342-356 | when the bins are exhausted no free chunk in them passes the test |
| Searching.PickIsBestFit | common/SC_AllocPool.cpp:307-354 | below 2^31 what the search takes is a smallest free chunk that fits, in the whole pool |
| Searching.NoPickIsNoFit | common/SC_AllocPool.cpp:307-356 | below 2^31 a search without result means that every free chunk is too small |
| Searching.PickTooSmall | common/SC_AllocPool.cpp:329-352 | from 2^31 on whatever the search takes is too small, and a split would write outside the chunk: past the end of its area, or below the chunk if the address wraps around |
| Searching.PickForNothing | common/SC_AllocPool.cpp:315-354 | for a size of 0 the search finds nothing if and only if no chunk is free |
| Searching.SmallTail | common/SC_AllocPool.cpp:315-325 | the tail of a small bin, or of the next one, fits with less than 128 bytes to spare |
| Carving.ShortSplitBreaks | common/SC_AllocPool.cpp:388-403 | a cut of a new area that leaves 0 or 64 bytes satisfies the invariant for no tiling and no bins whatever |
| Carving.BadMember | common/SC_AllocPool.cpp:397-415 | a chunk that is linked in a bin while its tag is not a free chunk's: the invariant holds for no tiling and no bins whatever |
| Resizing.MoveCopies | common/SC_AllocPool.cpp:516-518 | memmove carries every payload line over and touches nothing outside the destination |
| Resizing.PayloadWrite | common/SC_AllocPool.cpp:493-494 | writing inside one live payload keeps the invariant and every other payload |
| AllocPools.AllocPool.UnlinkFree | common/SC_AllocPool.h:244-251 | the chunk leaves its bin; bins, bitmap and tags stay in agreement |
| AllocPools.AllocPool.LinkFree | common/SC_AllocPool.cpp:525-540 | the chunk enters its bin, at its place by size in a large bin, and the bin is marked |
| AllocPools.AllocPool.FreeArea | common/SC_AllocPool.cpp:223-235 | the area leaves the ring, of which the next area becomes the head, and its memory is given back; everything else is kept |
| AllocPools.AllocPool.Gather | common/SC_AllocPool.cpp:157-177 | finds the run of the block and its free neighbours and unlinks them |
| AllocPools.AllocPool.Free | common/SC_AllocPool.cpp:147-187 | null changes nothing; otherwise the block and its free neighbours become one free chunk or a whole area given back, no other live block is touched, and the invariant holds; a growable pool gives the area back if and only if no other block of it is live, and a fixed one never |
| AllocPools.AllocPool.ScanBin | common/SC_AllocPool.cpp:342-354 | the smallest chunk of the bin that passes the int32 test, with its remainder, or proof that none does, for every size |
| AllocPools.AllocPool.SearchSmall | common/SC_AllocPool.cpp:315-327 | exact fit in the bin or the next one without a size check, or both are empty |
| AllocPools.AllocPool.SearchUp | common/SC_AllocPool.cpp:342-356 | the same over the marked bins from a start upward |
| AllocPools.AllocPool.SearchBins | common/SC_AllocPool.cpp:307-356 | for every size, the smallest free chunk that passes the test in the bins gone through, or there is none |
| AllocPools.AllocPool.Search | common/SC_AllocPool.cpp:307-356 | for every size what SearchBins finds; below 2^31 that is a free chunk of minimum size among all that fit, or none fits |
| AllocPools.AllocPool.Carve | common/SC_AllocPool.cpp:397-415 | the block exceeds the rounded size by less than 128; a larger remainder becomes a linked free chunk |
| AllocPools.AllocPool.NewArea | common/SC_AllocPool.cpp:190-221 | the area joins the list as one unlinked free chunk |
| AllocPools.AllocPool.Alloc | common/SC_AllocPool.cpp:283-416 | fails exactly when the search finds nothing and the pool cannot grow, and then changes nothing; below 2^31 a best fit (or a new area) is cut to size; from 2^31 on what is handed out is always a smaller chunk; the area of a growable pool is as large as mAreaMoreSize or, if that is more, as the request, that of a fixed one as mAreaInitSize; a rounded request of 128 and more leaves the pool broken if and only if nothing fits, memory comes, and the size configured for the area is at least the request but less than 128 bytes more; a request wrapped to 0 does if and only if there is anything to cut from |
| AllocPools.AllocPool.AllocFromNewArea | common/SC_AllocPool.cpp:358-403 | the two exits that take a new area, sound exactly when the cut is neither too short nor of no bytes |
| AllocPools.AllocPool.ShortSplit | common/SC_AllocPool.cpp:388-403 | what the unchecked split leaves behind satisfies no invariant |
| AllocPools.AllocPool.ZeroSplit | common/SC_AllocPool.cpp:397-415 | a cut of no bytes leaves a chunk that is linked as free and tagged as live, which satisfies no invariant |
| AllocPools.AllocPool.Resize | common/SC_AllocPool.cpp:504-514 | the run becomes the block cut to size; the remainder is freed, merged and linked |
| AllocPools.AllocPool.ResizeHere | common/SC_AllocPool.cpp:442-457 | shrinking or growing forward keeps the address and the payload |
| AllocPools.AllocPool.ShiftBack | common/SC_AllocPool.cpp:459-518 | growing backward moves the payload to the chunk before, save the line the remainder's header is written to |
| AllocPools.AllocPool.MoveAway | common/SC_AllocPool.cpp:481-495 | allocate, copy and free: a new block with the payload, or an exception, exactly when Alloc fails, and nothing changed |
| AllocPools.AllocPool.Realloc | common/SC_AllocPool.cpp:419-523 | all five paths: which one is taken, where the block ends up and how large it is, when it fails, that other live blocks are untouched, that the invariant holds afterwards if and only if Ruins did not hold before, and that the payload is kept if and only if HeaderHits, a condition on the state before the call, does not hold or the line that is hit is the same as before |
| AllocPools.AllocPool.ZeroResize | common/SC_AllocPool.cpp:504-511 | resizing a block to a size that has wrapped to 0 leaves it linked in bin 0 with size 0, which satisfies no invariant |
| AllocPools.AllocPool.ReallocBlock | common/SC_AllocPool.cpp:434-523 | the same for a block, without the payload condition spelled out |
| AllocPools.AllocPool.InitBins | common/SC_AllocPool.cpp:83-90 | all bins empty, all bits clear |
| AllocPools.AllocPool.constructor | common/SC_AllocPool.cpp:92-99 | a pool without areas that satisfies the invariant |
| AllocPools.AllocPool.InitAlloc | common/SC_AllocPool.cpp:69-81 | the initial area becomes one linked free chunk |
| AllocPools.NewPool | common/SC_AllocPool.cpp:92-102 | the whole constructor: a valid pool with its initial area as one free chunk, or an exception exactly when there is no memory for it |
| AllocPools.AllocPool.FreeAll | common/SC_AllocPool.cpp:106-120 | no areas and no chunks are left |
| AllocPools.AllocPool.Reinit | common/SC_AllocPool.cpp:142-145 | back to one free chunk of the initial size |
| AllocPools.AllocPool.FreeAllInternal | common/SC_AllocPool.cpp:122-140 | every area becomes one linked free chunk |
| AllocPools.AllocPool.TotalFree | common/SC_AllocPool.cpp:238-249 | the sum of the sizes of all free chunks |
| AllocPools.AllocPool.LargestFreeChunk | common/SC_AllocPool.cpp:251-281 | the size of a largest free chunk, when there is one |
| PoolChecks.DoCheckChunk | common/SC_AllocPool.cpp:584-593 | over any memory, whether the tag is repeated in the next chunk |
| PoolChecks.DoCheckFreeChunk | common/SC_AllocPool.cpp:596-619 | over any memory, whether all assertions about a free chunk hold, spelled out as FreePasses |
| PoolChecks.DoCheckInUseChunk | common/SC_AllocPool.cpp:621-645 | over any memory, whether all assertions about a live chunk and its free neighbours hold, spelled out as InUsePasses |
| PoolChecks.FreeSound | common/SC_AllocPool.cpp:596-619 | in a valid pool every free chunk passes |
| PoolChecks.LiveSound | common/SC_AllocPool.cpp:621-645 | in a valid pool every live chunk passes |
| PoolChecks.CheckedTags | common/SC_AllocPool.cpp:542-645 | over any memory whose headers tile the areas, if every chunk passes then all boundary tags agree, every chunk finds the one before it, no two free chunks touch, and free chunks are aligned and linked both ways |
| PoolChecks.DoCheckArea | common/SC_AllocPool.cpp:542-554 | over any memory in which adding up sizes leads to an end marker, the walk ends there and tells whether nothing free comes before the first chunk and every chunk on the way passes |
| PoolChecks.DoCheckBin | common/SC_AllocPool.cpp:556-564 | over any memory in which the mNext pointers lead back to the head, the walk ends and tells whether every chunk of the bin belongs there and passes |
| PoolChecks.DoCheckPool | common/SC_AllocPool.cpp:567-581 | whether every area of the list and every one of the 128 bins passes |
| PoolChecks.PoolWalks | common/SC_AllocPool.cpp:542-554 | in a valid pool the walk of each area meets exactly its chunks, and all pass |
| PoolChecks.CheckValid | common/SC_AllocPool.cpp:567-581 | in a valid pool no assertion fails, in any area or any bin |
| Accounting.Conservation | common/SC_AllocPool.cpp:238-249 | free sizes plus live sizes add up to the area sizes in every state |
| Accounting.SumsCount | common/SC_AllocPool.cpp:237-249 | the sums are 0 for an empty pool and grow by the size of every chunk or area that is added |
| Accounting.BinAdds | common/SC_AllocPool.cpp:240-247 | adding up bin by bin counts every free chunk once |
| Accounting.AllFreed | common/SC_AllocPool.cpp:147-187 | with no live block left, each area is a single free chunk of its full size |
| PoolRuns.LivePayloads | common/SC_AllocPool.h:57-86 | live payloads are 64-byte aligned, inside their area, disjoint from one another and from every header and end marker |
| PoolRuns.AllocRoom | common/SC_AllocPool.cpp:647-659 | a block has room for its request if and only if the request is at most 2^64 - 96, and exceeds the rounded request by less than 128 |
| PoolRuns.CarriedLines | common/SC_AllocPool.cpp:499-518 | of what the client wrote before a Realloc exactly the lines beyond the new size and the line hit by a header are no longer relied on |
| Resizing.ReallocPayload | common/SC_AllocPool.cpp:499-518 | the first min(old, new) payload bytes survive if and only if HeaderHits does not hold or the line that is hit is the same as before; when it holds, the place of that line has the remainder's tag word |
| PoolRuns.Step | common/SC_AllocPool.cpp:147-523 | one client operation, a realloc of null among them: its effect on the pool, the pointer it returns, and what the client may rely on afterwards, by cases of the operation; the invariant and the contents of all live blocks are kept |
| PoolRuns.Run | common/SC_AllocPool.cpp:122-523 | for any sequence of allocations, frees, reallocations (also of null), stores and resets, in a fixed-size or a growing pool and with whatever memory the area callback supplies, up to the first operation that would break the pool, or leave the model, in the state it has come to: every operation has its stated effect, and at every moment the invariant holds, the live blocks are those the client owns, each is at least as large as was asked for (if that was below 2^31) and holds what was last written to it, and space is conserved |
| PoolRuns.FreeEach | common/SC_AllocPool.cpp:147-187 | freeing all live blocks of a fixed-size pool in any order gives each area back as one free chunk |
| PoolExamples.ShortSplitExample | common/SC_AllocPool.cpp:366-403 | a growable pool in order that one request breaks |
| PoolExamples.ZeroRequestExample | common/SC_AllocPool.cpp:283-416 | a 1024-byte pool in order that a request for 2^64 - 64 bytes breaks |
| PoolExamples.HugeRequestExample | common/SC_AllocPool.cpp:303-354 | a request above 2^32 for which Alloc turns the pool before the call into the pool after it by handing out a chunk of 262144 bytes |
| PoolExamples.LostLineExample | common/SC_AllocPool.cpp:419-518 | a Realloc, from a state with HeaderHits and a stored line to one in which the new block does not hold that line |
| TripleBuffer.StepInv | common/scope_buffer.hpp:86-159 | every single load, store or exchange keeps the protocol's invariant |
| TripleBuffer.RunInv | common/scope_buffer.hpp:86-159 | so does every interleaving of the two sides |
| TripleBuffer.AlwaysExclusive | common/scope_buffer.hpp:86-98 | _in, _stage and _out are always a permutation of 0, 1, 2 |
| TripleBuffer.EveryPullFresh | common/scope_buffer.hpp:137-159 | in every run pushes and pulls are those of a register, read off the list of events alone, one for each exchange of the writer and each return of the reader; and a pull swaps only for an unread push, gets the latest push completed at its exchange with that push's frame count, and misses no push completed before it began |
| TripleBuffer.PushedFrames | common/scope_buffer.hpp:137-141 | a push has the frames of the last StoreFrames event before its exchange |
| TripleBuffer.PushedData | common/scope_buffer.hpp:135-141 | a push has the data of the last WriteData event since the push before |
| TripleBuffer.PulledPush | common/scope_buffer.hpp:149-159 | a pull returns the frames and data of the push that was the latest at the reader's last exchange, or 0 frames if there was none |
| TripleBuffer.PullBegan | common/scope_buffer.hpp:149-151 | the pushes a pull must not miss are those with an exchange before its load of the stage |
| TripleBuffer.NeverBlocked | common/scope_buffer.hpp:137-159 | both sides have a next step in every state |
| TripleBuffer.PushGoesThrough | common/scope_buffer.hpp:137-141 | a push that is not interrupted completes in three steps with its frames and data |
| TripleBuffer.PullGoesThrough | common/scope_buffer.hpp:149-159 | a pull that is not interrupted takes the latest push in five steps, or in three if the reader has it |
| TripleBuffer.SwapOnlyUnread | common/scope_buffer.hpp:149-156 | whenever the reader exchanges, an unread push is staged |
| TripleBuffer.ReaderUndisturbed | common/scope_buffer.hpp:135-147 | no writer step touches the region the reader reads |
| TripleBuffer.PullsMonotone | common/scope_buffer.hpp:149-159 | pulls never go back to an older push |
| TripleBuffer.AddressesApart | common/scope_buffer.hpp:111-147 | the samples at write_address and at read_address never overlap and lie in the memory of the three regions |
| MsgFifo.AndMask | common/MsgFifo.h:76 | masking with N - 1 is the remainder modulo N, for every number and every power of two N |
| MsgFifo.NextPosIsSlot | common/MsgFifo.h:76 | NextPos is the slot of the next message number |
| MsgFifo.SlotsApart | common/MsgFifo.h:76-79 | fewer than N message numbers in a row have different slots |
| MsgFifo.StepInv | common/MsgFifo.h:47-73 | every atomic step of writer, performer and freer keeps the invariant |
| MsgFifo.RunInv | common/MsgFifo.h:47-73 | so does every interleaving |
| MsgFifo.PublishedAt | common/MsgFifo.h:47-56 | the message that a PublishWrite event publishes is that of the last CallWrite event before it, and there is one for each such event |
| MsgFifo.Histories | common/MsgFifo.h:47-73 | in every run the accepted messages are those of the published Writes, read off the list of events alone, and the other histories have one entry for each event of their kind |
| MsgFifo.OnceInOrder | common/MsgFifo.h:47-73 | the performed messages are the first of the published ones and the freed ones the first of those, one for each PerformItem and FreeItem event: each at most once, in order, freed after performed |
| MsgFifo.Drained | common/MsgFifo.h:58-73 | Perform ends exactly when every accepted message has been performed, and Free exactly when every message published as performed has been freed |
| MsgFifo.NoOverwrite | common/MsgFifo.h:47-56 | a message that is not yet freed still sits unchanged in its slot |
| MsgFifo.RefusesIffFull | common/MsgFifo.h:48-50 | Write refuses if and only if N - 1 more heads had been published by writes than by frees when it read the free head |
| MsgFifo.NeverBlocked | common/MsgFifo.h:47-73 | every side has a next step in every state |
| MsgFifo.WriteGoesThrough | common/MsgFifo.h:47-56 | a Write that finds room and is not interrupted takes four steps and its message is accepted |
| MsgFifo.PerformGoesThrough | common/MsgFifo.h:58-65 | so does Perform with the next message, if there is one |
| MsgFifo.FreeGoesThrough | common/MsgFifo.h:66-73 | so does Free |
| MsgFifo.Refines | common/MsgFifo.h:43-80 | event by event: publishing a write appends its message to a bounded queue of capacity N - 1, publishing a read counts the next message as performed, publishing a free drops the oldest, and every other step leaves the queue alone; what is performed and freed is the next message of the queue |
| MsgFifo.QueueOfRun | common/MsgFifo.h:43-80 | after every run the queue holds the published messages that no free has been published for, of which as many are performed as reads have been published |
| Osc.Int32RoundTrip | include/plugin_interface/sc_msg_iter.h:48 | an int32 written big-endian reads back the same |
| Osc.BytesRoundTrip | include/plugin_interface/sc_msg_iter.h:48 | any four bytes are the big-endian bytes of the int32 they read as |
| Osc.BE32Order | common/scsynthsend.h:44-48 | big-endian: the bytes of a smaller word come first in lexicographic order, and a negative number has the bytes of the word 2^32 above it |
| Osc.BE64Order | common/scsynthsend.h:49-55 | the same order for 64-bit words |
| Osc.OscString | common/scsynthsend.h:71-79 | a string is followed by at least one NUL and padded with NULs to a multiple of four |
| Osc.StringBytes | common/scsynthsend.h:71-79 | bytes holding the characters and then only NULs up to that length are the padded string |
| Osc.AppendArg | common/scsynthsend.h:44-109 | encoded arguments followed by one more encoded argument are the longer list encoded |
| Osc.ElementsAppend | common/scsynthsend.h:135-145 | a bundle grows by a size and a body |
| OscDump.WalkBundle | common/SC_OscUtils.hpp:144-167 | the loop with its recursion, over any bytes, is the walk Walked, or stops where the bytes run out |
| OscDump.LookAt | common/SC_OscUtils.hpp:30-37 | the string comparisons that decide what an element is taken for, and the walk into an inner bundle |
| OscDump.Spelling | common/SC_OscUtils.hpp:32-33 | the addresses and tags compared with, letter by letter |
| OscDump.DumpShows | common/SC_OscUtils.hpp:144-167 | of every packet laid out as OSC, with bundles nested to any depth, the dump is the same tree: every bundle with its time and exactly its elements in order, every message as a message, status messages skipped |
| OscDump.TimeWraps | include/plugin_interface/sc_msg_iter.h:50-52 | a time tag keeps the time modulo 2^64 |
| OscDump.TimeRoundTrip | include/plugin_interface/sc_msg_iter.h:50-52 | any eight bytes are the bytes of the time tag they read as |
| ScPackets.ScPacket.constructor | common/scsynthsend.h:38-43 | an empty packet with room for whole words only |
| ScPackets.ScPacket.AddI | common/scsynthsend.h:44-48 | appends the big-endian word, or overflows and changes nothing |
| ScPackets.ScPacket.AddII | common/scsynthsend.h:49-55 | appends both words of a 64-bit value; an overflow after the first half leaves that half behind |
| ScPackets.ScPacket.AddD | common/scsynthsend.h:63-70 | appends both words of a double |
| ScPackets.ScPacket.AddS | common/scsynthsend.h:71-79 | appends the padded string exactly when it fits |
| ScPackets.ScPacket.AddSSlPre | common/scsynthsend.h:80-91 | appends the padded string with a slash in front |
| ScPackets.ScPacket.AddB | common/scsynthsend.h:100-109 | appends size, data and unspecified pad bytes of a blob; an empty blob clears the word before it |
| ScPackets.ScPacket.AddTag | common/scsynthsend.h:110 | stores the next tag character and nothing else |
| ScPackets.ScPacket.MakeTags | common/scsynthsend.h:116-121 | makes room for n tags and a terminator; clears the last word only |
| ScPackets.ScPacket.OpenBundle | common/scsynthsend.h:125-129 | appends the bundle marker and the time tag |
| ScPackets.ScPacket.CloseBundle | common/scsynthsend.h:130-133 | counts down, not below zero |
| ScPackets.ScPacket.BeginMsg | common/scsynthsend.h:135-140 | leaves a word for the size inside a bundle |
| ScPackets.ScPacket.EndMsg | common/scsynthsend.h:141-145 | puts the number of bytes that followed into that word |
| OscTraffic.WriteCalls | common/scsynthsend.h:44-121 | maketags(n), then at most n addtag calls and any argument writes in any order, over any buffer: tags and arguments end up in their places, and the tag area is the padded tag string if and only if the tags written need as many words as those announced |
| OscTraffic.StaleTags | common/scsynthsend.h:110-121 | five tags announced and one written leave bytes of the old buffer in the tag string |
| OscTraffic.WriteMessage | common/scsynthsend.h:44-121 | address, then tags and arguments in any interleaving; succeeds exactly when it fits, and is the encoded message if and only if the tags were announced well |
| OscTraffic.LiteralMessage | common/scsynthsend.h:44-109 | a message with an int of four different bytes, a string and a blob, byte by byte |
| OscTraffic.WriteElement | common/scsynthsend.h:135-145 | BeginMsg, message and EndMsg append a size that is right and the body |
| OscTraffic.WriteBundle | common/scsynthsend.h:125-145 | a single-level bundle of any messages, each written in any interleaving; succeeds exactly when it fits |
| OscTraffic.OSCstrskip | include/plugin_interface/sc_msg_iter.h:29-36 | ends right after the padded string |
| OscTraffic.MsgIter.constructor | include/plugin_interface/sc_msg_iter.h:85-97 | tags after the comma, arguments after the padded tag string |
| OscTraffic.MsgIter.GetI | include/plugin_interface/sc_msg_iter.h:121-151 | an int argument's value; for a string the default, moving past it; at the end the default; for a blob the default, with one tag too many counted, after which tags and arguments no longer fit |
| OscTraffic.MsgIter.GetS | include/plugin_interface/sc_msg_iter.h:224-241 | a string argument, or null at the end; for any other the default, without moving past its bytes, after which tags and arguments no longer fit |
| OscTraffic.MsgIter.GetBSize | include/plugin_interface/sc_msg_iter.h:262-273 | the size of a blob argument, else zero |
| OscTraffic.MsgIter.SkipB | include/plugin_interface/sc_msg_iter.h:293-303 | past a blob argument and its pad bytes; anything else is counted without moving, after which tags and arguments no longer fit |
| OscTraffic.MsgIter.GetB | include/plugin_interface/sc_msg_iter.h:275-291 | nothing if the array is smaller than the blob; else the array is filled with the blob and what follows it, and the position moves past the pad bytes; from anything else it copies without moving |
| OscTraffic.CountedTwice | include/plugin_interface/sc_msg_iter.h:121-151 | a blob and an int: after geti on the blob all tags are counted and the four bytes of the int are still unread |
| OscTraffic.ReadMessage | common/SC_OscUtils.hpp:37-58 | address and arguments of an encoded message |
| OscTraffic.ReadPacket | common/SC_OscUtils.hpp:170-189 | every packet of any nesting, dumped and read, comes back as the same tree, with its times and, as they were, exactly the messages that the dump shows |
| OscTraffic.RoundTrip | common/scsynthsend.h:125-145 | messages written as a bundle that fits, walked and read, come back as they were, exactly those whose address is not one that the dump takes for a bundle or skips; the time comes back modulo 2^64 |
| OscTraffic.BundleAddress | common/SC_OscUtils.hpp:160-163 | a message a client can write that the dump takes for a bundle |
| DocTrees.FixupWellFormed | SCDoc/SCDoc.cpp:119-155 | normalising keeps what the grammar guarantees of text and newline nodes |
| DocTrees.FixupKeepsMeaning | SCDoc/SCDoc.cpp:119-155 | the normalised tree reads, event by event, as the tree without final newlines and trailing white space does; newlines read as one space |
| DocTrees.TidyShape | SCDoc/SCDoc.cpp:119-129 | the tree compared with lacks one final newline child of each node and trailing white space of element texts, and nothing else |
| DocTrees.FixupSettles | SCDoc/SCDoc.cpp:119-146 | afterwards no text child is followed by a text or newline child, and no element text of two or more characters ends in one of the six white space characters, anywhere |
| DocTrees.FixupTwice | SCDoc/SCDoc.cpp:123-146 | normalising again changes nothing if and only if no node's children end in two or more newlines that no text comes right before |
| DocTrees.TwoNewlines | SCDoc/SCDoc.cpp:123-129 | an element with two newlines, which loses one each time |
| DocTrees.Stripped | SCDoc/SCDoc.cpp:53-60 | what is left is a prefix and not empty unless all was, what went is one of the six white space characters, and the last of two or more characters left is none |
| DocTrees.StripTwice | SCDoc/SCDoc.cpp:53-60 | stripping yields a prefix and is idempotent |
| DocNodes.StripTrailingWs | SCDoc/SCDoc.cpp:53-60 | drops exactly the trailing white space, spelled out as six characters, down to the first character |
| DocNodes.DocNode.constructor | SCDoc/SCDoc.cpp:62-69 | a node without text and children |
| DocNodes.DocNode.AddChild | SCDoc/SCDoc.cpp:72-79 | the child becomes the last child and is owned by the node |
| DocNodes.DocNode.MoveChildren | SCDoc/SCDoc.cpp:82-92 | the children change owner and the old owner is released once |
| DocNodes.DocNode.FreeTree | SCDoc/SCDoc.cpp:107-117 | every node of the tree is released exactly once |
| DocNodes.DocNode.TakeText | SCDoc/SCDoc.cpp:135-141 | the merged child's text, or a space, is at the end of the text before it, and the child is released |
| DocNodes.DocNode.MergeChild | SCDoc/SCDoc.cpp:131-146 | a text or newline child goes into the text child before it and its slot is cleared; the other children are as before |
| DocNodes.DocNode.FixChildren | SCDoc/SCDoc.cpp:131-146 | the merging pass clears exactly the slots of the children that are merged away |
| DocNodes.DocNode.Compact | SCDoc/SCDoc.cpp:147-153 | the children that are left are at the front, in order |
| DocNodes.DocNode.FixupTree | SCDoc/SCDoc.cpp:119-155 | the objects become the normalised document; the surviving children keep their order; every node no longer in the tree was released exactly once |
| DocNodes.Make | SCDoc/SCDoc.cpp:94-99 | a node with a text and at most one child |
| DocNodes.MakeTakeChildren | SCDoc/SCDoc.cpp:101-105 | a node with a text and the children of another, which is released |
| DocNodes.NormaliseAndFree | SCDoc/SCDoc.cpp:107-155 | over normalisation and final release, every node of the parsed tree is released exactly once |
| Strtod.ParsesWritten | common/strtod.c:112-211 | the parts of every well-written numeral are found, and the scan ends right after it |
| Strtod.ScanStart | common/strtod.c:111-123 | past white space and one sign |
| Strtod.ScanMantissa | common/strtod.c:130-140 | length of the mantissa with its point, and where the point is |
| Strtod.ReadDigits | common/strtod.c:168-187 | up to nine digits into an int that never exceeds 999999999, stepping over the point |
| Strtod.DigitPlace | common/strtod.c:176 | a digit's value is its place in 0123456789 |
| Strtod.ReadMantissa | common/strtod.c:149-189 | the two accumulators make up the first 18 digits, with the exponent that goes with them |
| Strtod.ReadExponent | common/strtod.c:195-211 | sign and value of the exponent field, and the end of the numeral |
| Strtod.ReadInt | common/strtod.c:207-210 | the exponent accumulator stays an int when the field is one |
| Strtod.TableEnough | common/strtod.c:236-240 | the loop over the exponent's bits never goes past the ninth table entry |
| Strtod.PowerByBits | common/strtod.c:235-240 | repeated squaring gives ten to the exponent |
| Strtod.ScStrtod | common/strtod.c:107-255 | sign times the first 18 digits times ten to the clamped exponent, with the end position and the range error; without digits, zero and the start |
| Strtod.Truncates | common/strtod.c:142-189 | within range the result is the number denoted, cut toward zero by less than one unit of the 18th digit; with at most 18 digits it is that number |
| Strtod.ExactIff | common/strtod.c:142-245 | the result is the number denoted if and only if the digits after the 18th are all zero and the exponent is not clamped or the kept digits are all zero |
| Strtod.ResultWritten | common/strtod.c:107-255 | for every well-written numeral the result is the signed number written if and only if the digits after the 18th are all zero and the exponent is within 511 or the kept digits are all zero; it is negative if and only if a minus stands in front of kept digits that are not all zero |
| Strtod.TenDigits | common/strtod.c:107-255 | a literal numeral with all ten digits, a point and two signs, and its value |
| Strtod.NineteenDigits | common/strtod.c:156-158 | a 19-digit numeral that is not returned exactly |
| Strtod.SixHundred | common/strtod.c:231-234 | a numeral whose exponent is clamped and that is not returned exactly |

## Left out

- AllocPools.AllocPool.NewArea: the ring of areas is a sequence; `AllocAreaHdr::mNext`, `mPrev` and the other fields of the area header are not in memory.
- AllocPools.AllocPool.FreeArea: the same; the order of the ring, with the area after the freed one at its head, is kept.
- AllocPools.AllocPool.constructor: up to the call of `InitAlloc`; `NewPool` is the whole of it, without the callbacks.
- `mAllocArea` and `mFreeArea` are a parameter of the operation that may need an area (`Block`) and a removal of the area's lines; the block is required not to overlap what the pool uses.
- AllocPools.AllocPool.Alloc: areas are smaller than 2^31 bytes, so no area is had for a larger request (with one, the size plus `kAreaOverhead` may wrap as well); a request from 2^31 on for which the split would write outside the chunk (`Strays`) is kept out, since that memory is not the pool's (`PickTooSmall`), and so is a new area for a pool that was configured with none and gets a request wrapped to a size of 0.
- AllocPools.AllocPool.Realloc: of a block, a rounded size from 2^31 on only where `Alloc` fails (`Refused`), since the copy into the too-small chunk that `Alloc` hands out otherwise may leave the pool; on the allocate-and-copy path `Alloc` must not break the pool, since what the `Free` inside `Realloc` does to a broken pool is not defined by anything.
- AllocPools.AllocPool.MoveAway: the same.
- AllocPools.AllocPool.ReallocBlock: the same; a size of 0 is in `ZeroResize`.
- AllocPools.AllocPool.LargestFreeChunk: assumes a free chunk exists; with none it takes the logarithm of an empty word.
- PoolRuns.Run: ends before an operation that would break the pool or leave the model at that moment (`Allowed`), since no operation is defined on a broken pool; a payload line that `Realloc` loses is forgotten by the client's record.
- PoolRuns.FreeEach: fixed-size pools; a growing pool gives an area back when its last block is freed, which `Free` states.
- The operations of `Link` are functions from memory to memory; the methods of the pool apply them to its memory in place.
- Resizing.ReallocPayload: payloads are compared by 32-byte lines, the unit of the memory model.
- `DISABLE_MEMORY_POOLS`, garbage filling, and `DoCheckAllocedChunk` as a method; its size assertions are `AllocRoom`, and its last one (`PrevInUse`, which the source itself doubts) is not claimed.
- `MakeListEmpty`, `PushHead`, `PushTail` and `DebugDump` of `Link`: the pushes are `InsertAfter` and `InsertBefore` of the list head.
- Memory orders weaker than sequential consistency, in both protocols.
- scope_buffer: `allocate` and `release` as operations on `_status`, and the pool they take memory from; the layout of the regions is in `AddressesApart`.
- MsgFifo.StepInv: each side's reload of the head only it writes is one step with the load before; `MakeEmpty` and `MsgFifoNoFree` are left out.
- ScPackets.ScPacket.AddD: requires two free words when there is one, since the code checks for one.
- ScPackets.ScPacket.AddB: requires something written before an empty blob, since the code clears the word before it; pad bytes are unspecified.
- `addf`, `skip` and the length-taking `adds` of `scpacket` repeat `addi`, `maketags` and `adds`.
- OscTraffic.WriteBundle: bundles of one level, since there is one `msgsizepos`.
- OscDump.WalkBundle: a walk that runs out of an element's bytes stops (None), where the code would go on reading behind them; printing.
- OscTraffic.MsgIter.GetI: the tags it meets are those of int, string and blob arguments.
- OscTraffic.MsgIter.GetB: requires that the bytes it copies lie within the message.
- OscTraffic.ReadPacket: packets in which no message has the address `#bundle`; what the dump shows of such a message depends on its bytes (`RoundTrip` covers them in a written bundle).
- OscTraffic.MsgIter.constructor: the tagged form of `init`.
- OscTraffic.ReadMessage: messages with an address and int, string and blob arguments.
- The text buffers of document nodes are values; their release is not tracked, that of the nodes is.
- DocNodes.DocNode.FixupTree: requires of text nodes a text and no children and of newline nodes neither, as the grammar builds them (SCDoc/SCDoc.y:307-311).
- DocNodes.DocNode.MoveChildren: what a node held before it takes over other children is dropped without being released, as in the code.
- Strtod.ScStrtod: rounding of binary floating point is left out, and the exponent arithmetic is required to fit an int, outside of which it is undefined.
- Strtod.ReadExponent: the same.
- Strtod.ReadInt: the same.
- Everything else in the repository: operating system and audio plumbing, FFT, user interface, generated parsers.

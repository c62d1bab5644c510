/** The real-time memory pool. Fields hold what the C++ object and its areas hold; `chunks` and `rings`
    are the ghost view that the headers, the bin lists and the bitmap all describe. */
module AllocPools {
  import opened Wrappers
  import opened Bits
  import opened Bins
  import opened BinBlocks
  import opened Rings
  import opened Layout
  import opened FreeLists
  import opened PoolState
  import opened Carving
  import opened Searching
  import opened Growing
  import opened Resizing
  import opened Resetting
  import opened Accounting
  import opened PoolLemmas

  class AllocPool {
    var mem: Mem
    var mBinBlocks: seq<nat>
    var mAreas: seq<int>
    var areaSize: Areas
    const mAreaInitSize: nat
    const mAreaMoreSize: nat
    ghost var chunks: Chunks
    ghost var rings: seq<seq<int>>

    ghost predicate Valid()
      reads this
    {
      PoolInv(mem, mBinBlocks, mAreas, areaSize, chunks, rings)
    }

    /** Some view of the pool satisfies the invariant. */
    ghost predicate Sound()
      reads this
    {
      exists c, r :: PoolInv(mem, mBinBlocks, mAreas, areaSize, c, r)
    }

    /** UnlinkFree: takes the free chunk x out of its bin, and unmarks the bin if that empties it. */
    method UnlinkFree(x: int, ghost limbo: set<int>)
      requires BinsOk(mem, mBinBlocks, rings) && Binned(chunks, rings, limbo) && FreeIn(chunks, limbo, x)
      requires x in mem && mem[x].size == chunks[x].size >= 0 && x in rings[BinIndex(mem[x].size)]
      modifies this`mem, this`mBinBlocks, this`rings
      ensures BinsOk(mem, mBinBlocks, rings) && Binned(chunks, rings, limbo + {x})
      ensures SameTags(old(mem), mem) && Frame(old(mem), mem, chunks.Keys)
    {
      hide BinIndex, BinIndex2, Marked, ClearBinBlock, SizeBits;
      ghost var i := BinIndex(mem[x].size);
      assert BinOk(mem, i, rings[i]) && Member(mem, i, x);
      AlignedBits(mem[x].size);
      ghost var k :| 0 <= k < |rings[i]| && rings[i][k] == x;
      RemoveRefines(mem, BinHead(i), rings[i], k);
      assert forall y :: y in rings[i] ==> FreeIn(chunks, limbo, y);
      ghost var m0, blocks0 := mem, mBinBlocks;
      mem := RemoveLeaveDangling(mem, x);
      var size := SizeBits(mem[x].size);
      var index := BinIndex(size);
      var bin := BinHead(index);
      assert Marked(blocks0, i);
      if mem[bin].next == bin {
        assert Removed(rings[i], k) == [];
        mBinBlocks := ClearBinBlock(mBinBlocks, index);
      }
      UnlinkKeeps(m0, mem, blocks0, mBinBlocks, rings, i, k);
      BinnedUnlink(m0, blocks0, chunks, rings, limbo, i, k);
      rings := rings[i := Removed(rings[i], k)];
    }

    /** LinkFree: puts x into the bin of its size, keeping the bin ordered, and marks the bin. */
    method LinkFree(x: int) returns (ghost k: nat)
      requires BinsOk(mem, mBinBlocks, rings)
      requires x in mem && mem[x].size >= 0 && Member(mem, BinIndex(mem[x].size), x)
      requires x !in rings[BinIndex(mem[x].size)]
      modifies this`mem, this`mBinBlocks, this`rings
      ensures BinsOk(mem, mBinBlocks, rings) && SameTags(old(mem), mem)
      ensures var i := BinIndex(old(mem)[x].size);
        && k <= |old(rings)[i]| && rings == old(rings)[i := Inserted(old(rings)[i], k, x)]
        && forall y :: y in old(mem) && y != x && y != BinHead(i) && y !in old(rings)[i] ==> mem[y] == old(mem)[y]
    {
      hide BinIndex, BinIndex2, Marked, MarkBinBlock, SizeBits;
      AlignedBits(mem[x].size);
      var size := SizeBits(mem[x].size);
      var index := BinIndex(size);
      var bin := BinHead(index);
      ghost var s := rings[index];
      ghost var m0, blocks0 := mem, mBinBlocks;
      assert BinOk(mem, index, s);
      assert Marked(blocks0, index) <==> s != [];
      k := 0;
      if index < NUM_SMALL_BINS || mem[bin].next == bin {
        InsertAfterRefines(mem, bin, s, 0, x);
        SmallBinEqual(mem, index, s, x);
        mem := InsertAfter(mem, x, bin);
        mBinBlocks := MarkBinBlock(mBinBlocks, index);
      } else {
        var link: int;
        link, k := InsertionPoint(mem, index, size, s);
        InsertBeforeRefines(mem, bin, s, k, x);
        mem := InsertBefore(mem, x, link);
      }
      LinkKeeps(m0, mem, blocks0, mBinBlocks, rings, index, k, x);
      rings := rings[index := Inserted(s, k, x)];
    }

    /** p is the header address of a live block. */
    ghost predicate IsLive(p: int)
      reads this
    {
      p in chunks && chunks[p].inUse
    }

    /** FreeArea: gives back an area whose only chunk is free and unlinked. */
    method FreeArea(chunk: int)
      requires Shape(areaSize, chunks) && Coalesced(chunks) && Tagged(mem, areaSize, chunks) && Mapped(mem, areaSize)
      requires BinsOk(mem, mBinBlocks, rings) && Binned(chunks, rings, {chunk}) && AreaList(mAreas, areaSize)
      requires chunk in areaSize && chunk in chunks && chunks[chunk].size == areaSize[chunk]
      modifies this`mem, this`mAreas, this`areaSize, this`chunks
      ensures Valid()
      ensures areaSize == old(areaSize) - {chunk} && chunks == old(chunks) - {chunk}
      ensures mem == Unmap(old(mem), chunk - HEADER, End(old(areaSize), chunk) + 1)
      ensures forall x :: x in mem <==> x in old(mem) && !(chunk - HEADER <= x <= chunk + old(areaSize)[chunk])
      ensures forall k :: 0 <= k < |old(mAreas)| && old(mAreas)[k] == chunk ==>
        mAreas == old(mAreas)[k + 1..] + old(mAreas)[..k]
    {
      hide PoolInv, BinsOk, Binned, Tagged, Shape, Coalesced, Mapped;
      var k :| 0 <= k < |mAreas| && mAreas[k] == chunk;
      DropArea(mem, mBinBlocks, mAreas, k, areaSize, chunks, rings, chunk);
      mem := Unmap(mem, chunk - HEADER, End(areaSize, chunk) + 1);
      mAreas := mAreas[k + 1..] + mAreas[..k];
      areaSize := areaSize - {chunk};
      chunks := chunks - {chunk};
    }

    /** The first half of Free: extends the chunk over its free neighbours, unlinking them. */
    method Gather(p: int) returns (chunk: int, size: int)
      requires Valid() && IsLive(p)
      modifies this`mem, this`mBinBlocks, this`rings
      ensures Gathered(old(mem), mem, mBinBlocks, rings, chunks, p)
      ensures chunk == FreeLeft(chunks, p) && chunk + size == FreeRight(chunks, p)
    {
      hide BinsOk, Tagged, Coalesced, Mapped, Binned, Shape, BinIndex, BinIndex2, SizeBits, InUseBit, AreaList;
      ghost var m0, c := mem, chunks;
      chunk := p;
      LeftOf(mem, areaSize, c, p);
      NextOf(mem, areaSize, c, p);
      ChunkSize(mem, areaSize, c, p);
      size := SizeBits(mem[chunk].size);
      ghost var limbo: set<int> := {};
      if !InUseBit(mem[chunk].prevSize) {
        var prevSize := SizeBits(mem[chunk].prevSize);
        chunk := chunk - prevSize;
        size := size + prevSize;
        FreeIsMember(mem, areaSize, c, rings, {}, chunk);
        UnlinkFree(chunk, limbo);
        limbo := limbo + {chunk};
        TaggedFrame(m0, mem, areaSize, c);
      }
      var next := chunk + size;
      if !InUseBit(mem[next].size) {
        ChunkSize(mem, areaSize, c, next);
        size := size + SizeBits(mem[next].size);
        FreeIsMember(mem, areaSize, c, rings, limbo, next);
        UnlinkFree(next, limbo);
        TaggedFrame(m0, mem, areaSize, c);
        limbo := limbo + {next};
      }
      assert limbo == FreeNeighbours(c, p);
    }

    /** The last step of Free: a free chunk that fills its area leaves a growable pool with it, any other
        is linked. */
    method Settle(chunk: int)
      requires Unsettled(mem, mBinBlocks, mAreas, areaSize, chunks, rings, chunk)
      modifies this
      ensures Valid()
      ensures Settled(mAreaMoreSize != 0, chunk, old(mem), old(chunks), old(areaSize), mem, chunks, areaSize)
      ensures mAreaMoreSize == 0 ==> mAreas == old(mAreas)
    {
      hide BinsOk, Tagged, Coalesced, Shape, BinIndex, BinIndex2, SizeBits, Member, AreaList, Unmap;
      ghost var m1, c, size := mem, chunks, chunks[chunk].size;
      WholeArea(mem, areaSize, chunks, chunk);
      ChunkSize(mem, areaSize, chunks, chunk);
      if mAreaMoreSize != 0 && mem[chunk].prevSize == 1 && mem[chunk + SizeBits(mem[chunk].size)].size == 1 {
        FreeArea(chunk);
      } else {
        LinkReady(mem, areaSize, chunks, rings, {chunk}, chunk);
        assert forall y :: y in rings[BinIndex(size)] ==> FreeIn(chunks, {chunk}, y);
        ghost var k := LinkFree(chunk);
        BinnedLink(chunks, old(rings), {chunk}, k, chunk);
        assert {chunk} - {chunk} == {};
        TaggedFrame(m1, mem, areaSize, chunks);
      }
    }

    /** The middle of Free: one free header over the block and its unlinked neighbours. */
    method MergeFree(p: int) returns (chunk: int)
      requires Valid() && IsLive(p)
      modifies this`mem, this`mBinBlocks, this`rings, this`chunks
      ensures Unsettled(mem, mBinBlocks, mAreas, areaSize, chunks, rings, chunk)
      ensures chunk == FreeLeft(old(chunks), p) && Merged(old(mem), old(chunks), mem, chunks, areaSize, p)
    {
      hide PoolInv, Gathered, PoolState.Unsettled, Splice, FreeLeft, FreeRight, Frame, Coalesced, Shape;
      ghost var m0, blocks0, rings0, c := mem, mBinBlocks, rings, chunks;
      var size: int;
      chunk, size := Gather(p);
      FreeMerge(m0, blocks0, rings0, mem, mBinBlocks, rings, mAreas, areaSize, c, p, chunk, chunk + size);
      mem := SetSizeFree(mem, chunk, size);
      chunks := Splice(c, chunk, chunk + size, size, false, false);
    }

    /** Free: joins the block with its free neighbours and links the result, or gives the area back. */
    method Free(inPtr: int)
      requires Valid()
      requires inPtr == 0 || IsLive(inPtr - HEADER)
      modifies this
      ensures Valid()
      ensures inPtr == 0 ==> unchanged(this)
      ensures inPtr != 0 ==> FreeEffect(mAreaMoreSize != 0, inPtr - HEADER,
        old(mem), old(chunks), old(areaSize), mem, chunks, areaSize)
      ensures mAreaMoreSize == 0 ==> areaSize == old(areaSize) && mAreas == old(mAreas)
      ensures inPtr != 0 && mAreaMoreSize != 0 ==>
        var p, c := inPtr - HEADER, old(chunks);
        areaSize == if LastInArea(c, p) then old(areaSize) - {c[p].area} else old(areaSize)
    {
      if inPtr == 0 { return; }
      hide PoolInv, PoolState.Unsettled, Settled, FreeEffect, Merged, FreeLeft, FreeRight;
      ghost var m0, blocks0, rings0, list0, c, areas := mem, mBinBlocks, rings, mAreas, chunks, areaSize;
      assert Shape(areas, c) && Coalesced(c) && Tagged(m0, areas, c) by {
        InvParts(m0, blocks0, list0, areas, c, rings0);
      }
      LastLive(mAreaMoreSize != 0, m0, areas, c, inPtr - HEADER);
      var chunk := MergeFree(inPtr - HEADER);
      ghost var m2, c2 := mem, chunks;
      Settle(chunk);
      FreeOutcome(mAreaMoreSize != 0, blocks0, rings0, list0, m0, m2, mem, areas, areaSize, c, c2, chunks,
                  inPtr - HEADER);
      FreedAreas(mAreaMoreSize != 0, inPtr - HEADER, m0, c, areas, mem, chunks, areaSize);
    }

    /** The inner search loop of Alloc: from the tail of bin i, where the smallest chunks are, to the first
        chunk that fits. Returns the bin head if there is none. */
    method ScanBin(i: nat, size: int) returns (candidate: int, remainder: int)
      requires i < NUM_BINS && BinsOk(mem, mBinBlocks, rings)
      ensures candidate == BinHead(i) ==> TooSmall(mem, rings[i], size)
      ensures candidate != BinHead(i) ==>
        BestInBin(mem, rings[i], size, candidate) && remainder == ToInt32(mem[candidate].size - size)
    {
      hide BinIndex, BinIndex2, SizeBits, Marked;
      var bin := BinHead(i);
      ghost var s := rings[i];
      assert BinOk(mem, i, s);
      candidate := mem[bin].prev;
      remainder := 0;
      ghost var k := |s|;
      while candidate != bin
        invariant 0 <= k <= |s| && candidate == Before(bin, s, k)
        invariant forall j :: k <= j < |s| ==> s[j] in mem && !Passes(mem[s[j]].size, size)
        decreases k
      {
        assert candidate == s[k - 1] && candidate in s && Member(mem, i, candidate);
        AlignedBits(mem[candidate].size);
        var candidate_size := SizeBits(mem[candidate].size);
        remainder := ToInt32(candidate_size - size);
        if remainder >= MIN_ALLOC { return; } // split
        else if remainder >= 0 { return; }    // exact fit
        AtLinks(mem, bin, s, k - 1);
        candidate := mem[candidate].prev;
        k := k - 1;
      }
    }

    /** The search of Alloc: the smallest free chunk that passes the test, if there is one. Below 2^31 that is
        a best fit, if any free chunk fits. */
    method Search(size: nat) returns (found: bool, candidate: int, remainder: int)
      requires Valid() && size % ALIGN == 0
      ensures found ==> FirstPick(chunks, size, candidate) && remainder == ToInt32(chunks[candidate].size - size)
      ensures found && size < INT31 ==> BestFit(chunks, size, candidate) && remainder == chunks[candidate].size - size
      ensures !found ==> NoPick(chunks, size)
      ensures !found && size < INT31 ==> NoFit(chunks, size)
    {
      hide BinIndex, BinIndex2, SizeBits, Marked, PoolInv, TooSmallBelow, BestFit, NoFit, BestInBin, FirstPick, NoPick;
      found, candidate, remainder := SearchBins(size);
      assert Shape(areaSize, chunks) by { InvShape(mem, mBinBlocks, mAreas, areaSize, chunks, rings); }
      if size < INT31 {
        if found {
          PickIsBestFit(areaSize, chunks, size, candidate);
          PickSize(areaSize, chunks, size, candidate);
        } else {
          NoPickIsNoFit(areaSize, chunks, size);
        }
      }
    }

    method SearchBins(size: nat) returns (found: bool, candidate: int, remainder: int)
      requires Valid() && size % ALIGN == 0
      ensures found ==> FirstPick(chunks, size, candidate) && remainder == ToInt32(chunks[candidate].size - size)
      ensures !found ==> NoPick(chunks, size)
    {
      hide BinIndex, BinIndex2, SizeBits, Marked, Shape, Tagged, Coalesced;
      hide Mapped, BinsOk, Binned, TooSmallBelow, BestInBin, FirstPick, NoPick;
      BinCount(mem, mBinBlocks, rings);
      NothingScanned(mem, rings, size);
      var index := BinIndex(size);
      if index < NUM_SMALL_BINS - 1 {
        found, candidate, remainder := SearchSmall(size, index);
        if found { return; }
        index := index + 2;
      } else {
        candidate, remainder := ScanBin(index, size);
        if candidate != BinHead(index) {
          if remainder >= MIN_ALLOC {
            index := index - 1;
          } else {
            BestFound(mem, mBinBlocks, mAreas, areaSize, chunks, rings, index, size, candidate);
            return true, candidate, remainder;
          }
        } else {
          NextBin(mem, rings, index, size);
        }
        index := index + 1;
      }
      found, candidate, remainder := SearchUp(size, index);
    }

    /** The small-request part: the bin for exactly this size, and the one above it. */
    method SearchSmall(size: nat, index: nat) returns (found: bool, candidate: int, remainder: int)
      requires Valid() && size % ALIGN == 0
      requires index == BinIndex(size) < NUM_SMALL_BINS - 1
      ensures found ==> FirstPick(chunks, size, candidate)
      ensures found ==> remainder == chunks[candidate].size - size == ToInt32(chunks[candidate].size - size) < MIN_ALLOC
      ensures !found ==> TooSmallBelow(mem, rings, index + 2, size)
    {
      hide BinIndex, BinIndex2, SizeBits, Marked, Shape, Tagged;
      hide Coalesced, Mapped, BinsOk, Binned, TooSmallBelow, BestInBin, FirstPick;
      var bin := index;
      NothingScanned(mem, rings, size);
      SmallSize(size);
      BinCount(mem, mBinBlocks, rings);
      SmallTail(mem, mBinBlocks, mAreas, areaSize, chunks, rings, bin, size);
      candidate := mem[BinHead(bin)].prev;
      if candidate == BinHead(bin) {
        NextBin(mem, rings, bin, size);
        bin := bin + 1;
        SmallTail(mem, mBinBlocks, mAreas, areaSize, chunks, rings, bin, size);
        candidate := mem[BinHead(bin)].prev;
      }
      found := candidate != BinHead(bin);
      if found {
        BestFound(mem, mBinBlocks, mAreas, areaSize, chunks, rings, bin, size, candidate);
        PickSize(areaSize, chunks, size, candidate);
        ChunkSize(mem, areaSize, chunks, candidate);
        remainder := SizeBits(mem[candidate].size) - size;
      } else {
        remainder := 0;
        NextBin(mem, rings, bin, size);
      }
    }

    /** The bin scan: upwards over the marked bins. */
    method SearchUp(size: nat, start: nat) returns (found: bool, candidate: int, remainder: int)
      requires Valid() && BinIndex(size) <= start <= NUM_BINS && TooSmallBelow(mem, rings, start, size)
      ensures found ==> FirstPick(chunks, size, candidate) && remainder == ToInt32(chunks[candidate].size - size)
      ensures !found ==> NoPick(chunks, size)
    {
      hide BinIndex, BinIndex2, SizeBits, Marked, Shape, Tagged;
      hide Coalesced, Mapped, Binned, TooSmallBelow, BestInBin, FirstPick, NoPick;
      BinCount(mem, mBinBlocks, rings);
      var index: int := start;
      while true
        invariant BinIndex(size) <= index <= NUM_BINS && TooSmallBelow(mem, rings, index, size)
        decreases NUM_BINS - index
      {
        var next := NextFullBin(mBinBlocks, index);
        if next < 0 {
          EmptyBins(mem, mBinBlocks, rings, index, NUM_BINS, size);
          NoneFound(mem, mBinBlocks, mAreas, areaSize, chunks, rings, size);
          return false, 0, 0;
        }
        EmptyBins(mem, mBinBlocks, rings, index, next, size);
        index := next;
        candidate, remainder := ScanBin(index, size);
        if candidate != BinHead(index) {
          BestFound(mem, mBinBlocks, mAreas, areaSize, chunks, rings, index, size, candidate);
          return true, candidate, remainder;
        }
        NextBin(mem, rings, index, size);
        index := index + 1;
      }
    }

    /** found_bigger_fit, found_exact_fit and return_chunk: tags the candidate as a live block, after
        splitting off and linking what it leaves. */
    method Carve(cand: int, size: int)
      requires Unsettled(mem, mBinBlocks, mAreas, areaSize, chunks, rings, cand)
      requires MIN_ALLOC <= size <= chunks[cand].size && size % ALIGN == 0
      modifies this`mem, this`mBinBlocks, this`rings, this`chunks
      ensures Valid() && CarveEffect(cand, size, old(mem), old(chunks), mem, chunks)
    {
      hide BinIndex, BinIndex2, PoolInv, PoolState.Unsettled, CarveEffect;
      hide Splice, BinsOk, SizeBits, Frame, SameTags, Marked;
      ghost var m, blocks, c, r := mem, mBinBlocks, chunks, rings;
      CarveReady(mem, mBinBlocks, mAreas, areaSize, chunks, rings, cand, size);
      var candidate_size := SizeBits(mem[cand].size);
      if candidate_size - size >= MIN_ALLOC {
        var remainder := cand + size;
        var remainder_size := candidate_size - size;
        RemainderReady(m, SetSizeFree(m, remainder, remainder_size), blocks, mAreas, areaSize, c, r, cand, size);
        mem := SetSizeFree(mem, remainder, remainder_size);
        ghost var m1 := mem;
        candidate_size := candidate_size - remainder_size;
        ghost var k := LinkFree(remainder);
        ghost var m2 := mem;
        LinkFrame(m, m1, m2, blocks, mAreas, areaSize, c, r, cand, BinIndex(remainder_size), remainder);
        assert cand in m2 && cand + candidate_size in m2 by { assert m2.Keys == m.Keys by { LinkKeys(m1, m2); } }
        mem := SetSizeInUse(mem, cand, candidate_size);
        chunks := Splice(c, cand, cand + c[cand].size, size, true, false);
        CarveSplit(m, m1, m2, mem, blocks, mBinBlocks, mAreas, areaSize, c, r, rings, cand, size, k);
      } else {
        mem := SetSizeInUse(mem, cand, candidate_size);
        chunks := Splice(c, cand, cand + c[cand].size, c[cand].size, true, false);
        CarveWhole(m, mem, blocks, mAreas, areaSize, c, r, cand, size);
      }
    }

    /** NewArea: enters a new area, one free chunk not linked yet, at the head of the area ring. */
    method NewArea(n: int, block: Block) returns (a: int)
      requires Valid() && n % ALIGN == 0 && MIN_ALLOC <= n < INT31
      requires GoodBlock(areaSize, block, n) && block.Memory?
      modifies this`mem, this`mAreas, this`areaSize, this`chunks
      ensures Unsettled(mem, mBinBlocks, mAreas, areaSize, chunks, rings, a)
      ensures Grown(old(mem), old(chunks), old(areaSize), mem, chunks, areaSize, a, n)
      ensures a == AreaChunk(block.ptr) && mAreas == [a] + old(mAreas)
    {
      hide PoolInv, PoolState.Unsettled, Evolves;
      a := AreaChunk(block.ptr);
      AddArea(mem, mBinBlocks, mAreas, areaSize, chunks, rings, block, a, n);
      mem := FormatArea(mem + block.lines, a, n);
      mAreas := [a] + mAreas;
      areaSize := areaSize[a := n];
      chunks := AddedChunks(chunks, a, n);
    }

    /** Whether the pool may ask for an area to serve a rounded request, and of which size. */
    predicate CanGrow(size: int)
      reads this
    {
      mAreaMoreSize != 0 || (mAreas == [] && size <= mAreaInitSize)
    }

    function GrowSize(size: int): int {
      if mAreaMoreSize == 0 then mAreaInitSize
      else if size > mAreaMoreSize then size
      else mAreaMoreSize
    }

    /** The new area is cut to size, leaving less than a minimum chunk. */
    predicate BadSplit(size: int) {
      !(mAreaMoreSize != 0 && size > mAreaMoreSize) && GrowSize(size) - size < MIN_ALLOC
    }

    /** Serving the rounded request leaves the pool broken: it takes a cut of a new area that is too close to
        its end or, wrapped to nothing, a cut of no bytes from any chunk or area there is. */
    ghost predicate BreaksPool(size: int, block: Block)
      reads this
    {
      if size == 0 then !NoneFree(chunks) || (CanGrow(0) && block.Memory?)
      else NoFit(chunks, size) && CanGrow(size) && block.Memory? && BadSplit(size)
    }

    /** Sizes the pool was configured with: multiples of the alignment, large enough for a chunk, and
        within the range of `int32`. */
    predicate Configured() {
      && (mAreaInitSize == 0 || (MIN_ALLOC <= mAreaInitSize < INT31 && mAreaInitSize % ALIGN == 0))
      && (mAreaMoreSize == 0 || (MIN_ALLOC <= mAreaMoreSize < INT31 && mAreaMoreSize % ALIGN == 0))
    }

    /** The search takes a chunk smaller than the request for one with room to split. */
    ghost predicate Strays(size: nat)
      reads this
    {
      size >= INT31 && exists p :: FirstPick(chunks, size, p) && ToInt32(chunks[p].size - size) >= MIN_ALLOC
    }

    /** The rounded request stays within the pool: from 2^31 on the split does not leave the chunk, and the
        callback has no area of that size to give; nor has it one for a pool that is to have none. */
    ghost predicate InModel(size: nat, block: Block)
      reads this
    {
      && (size >= INT31 ==> !Strays(size) && (!CanGrow(size) || block.NoMemory?))
      && (size == 0 && GrowSize(0) == 0 && CanGrow(0) ==> block.NoMemory?)
    }

    /** When a request of at least a minimum chunk leaves the pool broken: nothing fits, memory comes, and the
        size of a new area lies less than a minimum chunk above the request. */
    ghost predicate CutsTooClose(size: int, block: Block)
      reads this
    {
      && NoFit(chunks, size) && block.Memory?
      && if mAreaMoreSize != 0 then mAreaMoreSize - MIN_ALLOC < size <= mAreaMoreSize
         else mAreas == [] && mAreaInitSize - MIN_ALLOC < size <= mAreaInitSize
    }

    /** Alloc. The result is null or an exception (None), or the payload address of a new block.
        The pool keeps its invariant exactly when it does not cut a new area too close to its end, and the
        request has not wrapped to nothing with something to cut from. From 2^31 on no block is ever large
        enough: what is handed out is a smaller chunk, or nothing. */
    method Alloc(inReqSize: SizeT, block: Block) returns (r: Option<int>)
      requires Valid() && Configured() && InModel(RequestToSize(inReqSize), block)
      requires GoodBlock(areaSize, block, GrowSize(RequestToSize(inReqSize)))
      modifies this
      ensures r.None? ==> unchanged(this)
      ensures if old(BreaksPool(RequestToSize(inReqSize), block)) then !Sound() else Valid()
      ensures var size := RequestToSize(inReqSize);
        r.None? <==> NoPick(old(chunks), size) && (!old(CanGrow(size)) || block.NoMemory?)
      ensures var size := RequestToSize(inReqSize);
        size < INT31 ==> (r.None? <==> NoFit(old(chunks), size) && (!old(CanGrow(size)) || block.NoMemory?))
      ensures var size := RequestToSize(inReqSize);
        size < INT31 && r.Some? && !old(BreaksPool(size, block)) ==>
          AllocEffect(r.value - HEADER, size, GrowSize(size), old(mem), old(chunks), old(areaSize),
                      mem, chunks, areaSize)
      ensures var size := RequestToSize(inReqSize);
        size >= INT31 && r.Some? ==> (
          && areaSize == old(areaSize) && mAreas == old(mAreas)
          && FirstPick(old(chunks), size, r.value - HEADER)
          && ShortChange(r.value - HEADER, size, old(mem), old(chunks), mem, chunks))
      ensures mAreaMoreSize == 0 && old(mAreas) != [] ==> areaSize == old(areaSize) && mAreas == old(mAreas)
      ensures forall a :: a in areaSize && a !in old(areaSize) ==>
        var size := RequestToSize(inReqSize);
        if mAreaMoreSize == 0 then old(mAreas) == [] && areaSize[a] == mAreaInitSize
        else
          && areaSize[a] >= mAreaMoreSize && areaSize[a] >= size
          && (areaSize[a] == mAreaMoreSize || areaSize[a] == size)
      ensures var size, c := RequestToSize(inReqSize), old(chunks);
        r.Some? ==> if NoPick(c, size) then block.Memory? && r.value == AreaChunk(block.ptr) + HEADER
                    else FirstPick(c, size, r.value - HEADER)
      ensures var size := RequestToSize(inReqSize);
        size >= MIN_ALLOC ==> (!Sound() <==> old(CutsTooClose(size, block)))
    {
      hide PoolInv, PoolState.Unsettled, Evolves, AllocEffect, CarveEffect, BestFit, NoFit, Grown, Sound, GoodBlock;
      hide FirstPick, NoPick, NoneFree, ShortChange;
      var size := RequestToSize(inReqSize);
      var found, candidate, remainder := Search(size);
      ghost var m, c, areas := mem, chunks, areaSize;
      assert Shape(areas, c) by { InvShape(mem, mBinBlocks, mAreas, areaSize, chunks, rings); }
      PickForNothing(areas, c);
      if found {
        PickIsChunk(areas, chunks, size, candidate);
        FoundPick(chunks, size, candidate);
        if size < INT31 { FitExists(c, size, candidate); }
        TakeFree(candidate);
        ghost var m1 := mem;
        if remainder >= MIN_ALLOC { // found_bigger_fit
          if size == 0 {
            ZeroSplit(candidate);
            return Some(candidate + HEADER);
          }
          Carve(candidate, size);
        } else {                    // found_exact_fit
          CarveReady(mem, mBinBlocks, mAreas, areaSize, chunks, rings, candidate, 0);
          var candidate_size := SizeBits(mem[candidate].size);
          Carve(candidate, candidate_size);
          if size < INT31 { CarveExact(candidate, size, m1, c, mem, chunks); }
        }
        ValidSound();
        if size < INT31 {
          FitEffect(candidate, size, GrowSize(size), m, m1, areas, c, mem, chunks);
        } else {
          ShortChanged(candidate, size, m, m1, areas, c, mem, chunks);
        }
        return Some(candidate + HEADER);
      }
      ValidSound();
      if mAreaMoreSize == 0 && (mAreas != [] || size > mAreaInitSize) { return None; } // found_nothing
      if block.NoMemory? { return None; }
      r := AllocFromNewArea(size, block);
    }

    lemma ValidSound()
      requires Valid()
      ensures Sound()
    {
      hide PoolInv;
    }

    /** whole_new_area and split_new_area. */
    method AllocFromNewArea(size: int, block: Block) returns (r: Option<int>)
      requires Valid() && Configured() && 0 <= size < INT31 && size % ALIGN == 0
      requires if size == 0 then GrowSize(0) != 0 else MIN_ALLOC <= size
      requires NoFit(chunks, size) && CanGrow(size) && block.Memory? && GoodBlock(areaSize, block, GrowSize(size))
      modifies this
      ensures r.Some? && areaSize == old(areaSize)[r.value - HEADER := GrowSize(size)]
      ensures r.value == AreaChunk(block.ptr) + HEADER
      ensures if size == 0 || BadSplit(size) then !Sound() else
        && Valid() && Sound()
        && AllocEffect(r.value - HEADER, size, GrowSize(size), old(mem), old(chunks), old(areaSize),
                       mem, chunks, areaSize)
    {
      hide PoolInv, PoolState.Unsettled, Evolves, AllocEffect, CarveEffect, NoFit, Sound, GoodBlock;
      ghost var m, c, areas := mem, chunks, areaSize;
      var n := GrowSize(size);
      var candidate := NewArea(n, block);
      ghost var m1, c1 := mem, chunks;
      if size == 0 {
        ZeroSplit(candidate);
      } else if (mAreaMoreSize != 0 && size > mAreaMoreSize) // whole_new_area
        || n - size >= MIN_ALLOC {                           // split_new_area
        Carve(candidate, size);
        ValidSound();
        GrowEffect(candidate, size, n, m, c, areas, m1, c1, areaSize, mem, chunks);
      } else {
        ShortSplit(candidate, size);
      }
      return Some(candidate + HEADER);
    }

    /** found_bigger_fit with a size of 0: the remainder is the candidate itself, which is linked as a free
        chunk and then tagged as a live one of size 0. */
    method ZeroSplit(cand: int)
      requires Unsettled(mem, mBinBlocks, mAreas, areaSize, chunks, rings, cand)
      modifies this`mem, this`mBinBlocks, this`rings
      ensures !Sound()
    {
      hide BinIndex, BinIndex2, PoolInv, PoolState.Unsettled, BinsOk, Marked;
      ghost var m := mem;
      CarveReady(mem, mBinBlocks, mAreas, areaSize, chunks, rings, cand, 0);
      var candidate_size := SizeBits(mem[cand].size);
      ZeroReady(m, SetSizeFree(m, cand, candidate_size), mBinBlocks, mAreas, areaSize, chunks, rings, cand);
      mem := SetSizeFree(mem, cand, candidate_size);
      ghost var k := LinkFree(cand);
      ghost var i, m2 := BinIndex(candidate_size), mem;
      assert cand in rings[i];
      mem := SetSizeInUse(mem, cand, 0);
      StaysLinked(m2, mem, mBinBlocks, rings, i, cand);
      forall c, rs
        ensures !PoolInv(mem, mBinBlocks, mAreas, areaSize, c, rs)
      {
        BadMember(mem, mBinBlocks, mAreas, areaSize, i, rings[i], cand, c, rs);
      }
    }

    /** UnlinkFree of the chosen candidate. */
    method TakeFree(candidate: int)
      requires Valid() && FreeIn(chunks, {}, candidate)
      modifies this`mem, this`mBinBlocks, this`rings
      ensures Unsettled(mem, mBinBlocks, mAreas, areaSize, chunks, rings, candidate)
      ensures SameTags(old(mem), mem) && Frame(old(mem), mem, chunks.Keys)
    {
      hide BinIndex, BinIndex2, BinsOk, Tagged, Shape, Coalesced, Binned, AreaList;
      ghost var m := mem;
      FreeIsMember(mem, areaSize, chunks, rings, {}, candidate);
      UnlinkFree(candidate, {});
      assert {} + {candidate} == {candidate};
      TaggedFrame(m, mem, areaSize, chunks);
    }

    /** split_new_area when the remainder is too small for a chunk. */
    method ShortSplit(cand: int, size: int)
      requires Unsettled(mem, mBinBlocks, mAreas, areaSize, chunks, rings, cand)
      requires cand in areaSize && chunks[cand].size == areaSize[cand]
      requires MIN_ALLOC <= size <= chunks[cand].size < size + MIN_ALLOC && size % ALIGN == 0
      modifies this`mem, this`mBinBlocks, this`rings
      ensures !Sound()
    {
      hide BinIndex, BinIndex2, PoolInv, PoolState.Unsettled, BinsOk, Marked;
      ghost var m := mem;
      CarveReady(mem, mBinBlocks, mAreas, areaSize, chunks, rings, cand, size);
      var remainder := cand + size;
      var remainder_size := SizeBits(mem[cand].size) - size;
      ShortReady(m, SetSizeFree(m, remainder, remainder_size), mBinBlocks, mAreas, areaSize, chunks, rings, cand, size);
      mem := SetSizeFree(mem, remainder, remainder_size);
      ghost var k := LinkFree(remainder);
      mem := SetSizeInUse(mem, cand, size);
      forall c, rs
        ensures !PoolInv(mem, mBinBlocks, mAreas, areaSize, c, rs)
      {
        ShortSplitBreaks(mem, mBinBlocks, mAreas, areaSize, cand, size, c, rs);
      }
    }

    /** `split`: tags the run as the resized block, cutting off and freeing what is too much. */
    method Resize(ghost p: int, lo: int, hi: int, size: int)
      requires Ready(mem, mBinBlocks, mAreas, areaSize, chunks, rings, p, lo, hi)
      requires MIN_ALLOC <= size <= hi - lo && size % ALIGN == 0
      modifies this
      ensures Valid() && areaSize == old(areaSize) && (mAreaMoreSize == 0 ==> mAreas == old(mAreas))
      ensures ResizeEffect(p, lo, hi, size, old(mem), old(chunks), mem, chunks)
    {
      hide PoolInv, PoolState.Unsettled, Evolves, FreeEffect, Ready, ResizeEffect, Splice;
      ghost var m, c, blocks, r, list := mem, chunks, mBinBlocks, rings, mAreas;
      ReadyMapped(mem, mBinBlocks, mAreas, areaSize, chunks, rings, p, lo, hi, size);
      var newsize := hi - lo;
      if newsize - size >= MIN_ALLOC {
        var remainder_size := newsize - size;
        var remainder := lo + size;
        mem := SetSizeInUse(mem, remainder, remainder_size);
        mem := SetSizeInUse(mem, lo, size);
        chunks := Splice(c, lo, hi, size, true, true);
        ResizeStep(m, mem, mBinBlocks, mAreas, areaSize, c, rings, p, lo, hi, size);
        ghost var m1, c1, areas := mem, chunks, areaSize;
        assert remainder in chunks && chunks[remainder].inUse by { SplitLive(c, lo, hi, size); }
        Free(remainder + HEADER);
        SplitEffect(m, m1, mem, blocks, list, areas, areaSize, blocks, r, mAreas, mBinBlocks, rings, c, c1, chunks, r,
                    p, lo, hi, size, mAreaMoreSize != 0);
      } else {
        mem := SetSizeInUse(mem, lo, newsize);
        chunks := Splice(c, lo, hi, newsize, true, true);
        ResizeStep(m, mem, mBinBlocks, mAreas, areaSize, c, rings, p, lo, hi, newsize);
        WholeEffect(m, mem, blocks, list, areaSize, c, r, chunks, p, lo, hi, size);
      }
    }

    /** Realloc of a block that stays where it is: the run is [p, hi). */
    method ResizeHere(p: int, hi: int, size: int)
      requires Valid() && IsLive(p) && MIN_ALLOC <= size <= hi - p && size % ALIGN == 0
      requires hi == p + chunks[p].size || hi == FreeRight(chunks, p)
      modifies this
      ensures mAreaMoreSize == 0 ==> mAreas == old(mAreas)
      ensures Valid() && areaSize == old(areaSize) && ReallocEffect(p, p, size, old(mem), old(chunks), mem, chunks)
    {
      hide BinIndex, BinIndex2, PoolInv, Evolves, ReallocEffect, ResizeEffect;
      hide BinsOk, Binned, Ready, Splice, Tagged, Shape;
      ghost var m, c, blocks, r, areas := mem, chunks, mBinBlocks, rings, areaSize;
      InvParts(mem, mBinBlocks, mAreas, areaSize, chunks, rings);
      FreeInRunIs(mem, areaSize, chunks, p, p, hi);
      ChunkSize(mem, areaSize, chunks, p);
      var next := p + SizeBits(mem[p].size);
      if hi != next { // into next chunk
        NextIsFree(mem, mBinBlocks, mAreas, areaSize, chunks, rings, p);
        UnlinkFree(next, {});
        assert {} + {p + chunks[p].size} == FreeInRun(chunks, p, hi);
      } else {
        assert {} == FreeInRun(chunks, p, hi);
        StartsClean(mem, mBinBlocks, mAreas, areaSize, chunks, rings);
      }
      MakeReady(m, blocks, r, mem, mBinBlocks, rings, mAreas, areaSize, c, p, p, hi);
      ghost var m1 := mem;
      Resize(p, p, hi, size);
      UnlinkThenResize(m, m1, areas, p, p, hi, size, c, mem, chunks);
      HereEffect(p, hi, size, m, c, mem, chunks);
    }

    /** Unlinks the free chunk before p, and the one after it if there is one. */
    method TakeNeighbours(p: int, prev: int, next: int, nextFree: bool, ghost hi: int)
      requires Valid() && IsLive(p) && prev == FreeLeft(chunks, p) < p && hi == FreeRight(chunks, p)
      requires next == p + chunks[p].size && (nextFree <==> hi != next)
      modifies this`mem, this`mBinBlocks, this`rings
      ensures Ready(mem, mBinBlocks, mAreas, areaSize, chunks, rings, p, prev, hi) && Frame(old(mem), mem, chunks.Keys)
    {
      hide BinIndex, BinIndex2, PoolInv, BinsOk, Binned, Ready, Tagged, Shape, FreeLeft, FreeRight;
      ghost var m, c, blocks, r := mem, chunks, mBinBlocks, rings;
      InvParts(mem, mBinBlocks, mAreas, areaSize, chunks, rings);
      FreeInRunIs(mem, areaSize, chunks, p, prev, hi);
      StartsClean(mem, mBinBlocks, mAreas, areaSize, chunks, rings);
      LeftOf(mem, areaSize, chunks, p);
      BlockGrid(areaSize, chunks, p);
      ghost var limbo: set<int> := {};
      if nextFree {
        NextIsFree(mem, mBinBlocks, mAreas, areaSize, chunks, rings, p);
        UnlinkFree(next, limbo);
        limbo := limbo + {next};
        TaggedFrame(m, mem, areaSize, c);
      }
      FreeIsMember(mem, areaSize, c, rings, limbo, prev);
      UnlinkFree(prev, limbo);
      assert limbo + {prev} == FreeInRun(c, prev, hi);
      MakeReady(m, blocks, r, mem, mBinBlocks, rings, mAreas, areaSize, c, p, prev, hi);
    }

    /** Realloc of a block that shifts backward into the free chunk before it, taking the free chunk after
        it along if there is one, and then moves its payload. */
    method ShiftBack(p: int, prev: int, next: int, nextFree: bool, hi: int, size: int)
      requires Valid() && IsLive(p) && prev == FreeLeft(chunks, p) < p && hi == FreeRight(chunks, p)
      requires next == p + chunks[p].size && (nextFree <==> hi != next)
      requires MIN_ALLOC <= size <= hi - prev && size % ALIGN == 0 && chunks[p].size < size
      modifies this
      ensures mAreaMoreSize == 0 ==> mAreas == old(mAreas)
      ensures Valid() && areaSize == old(areaSize) && ReallocEffect(p, prev, size, old(mem), old(chunks), mem, chunks)
    {
      hide BinIndex, BinIndex2, PoolInv, Evolves, ReallocEffect, ResizeEffect, Ready, Tagged, Shape, Frame, FreeRight;
      ghost var m, c, areas := mem, chunks, areaSize;
      var oldsize := next - p;
      InvParts(mem, mBinBlocks, mAreas, areaSize, chunks, rings);
      LeftOf(mem, areaSize, chunks, p);
      BlockGrid(areaSize, chunks, p);
      BlockGrid(areaSize, chunks, prev);
      TakeNeighbours(p, prev, next, nextFree, hi);
      ghost var m1 := mem;
      Resize(p, prev, hi, size);
      UnlinkThenResize(m, m1, areas, p, prev, hi, size, c, mem, chunks);
      ShiftEffect(m, mem, mBinBlocks, mAreas, areaSize, c, chunks, rings, p, prev, hi, size);
      mem := MovePayload(mem, prev, p, oldsize);
    }

    /** A rounded request of 2^31 or more for which Alloc finds nothing and gets nothing. */
    ghost predicate Refused(size: nat, block: Block)
      reads this
    {
      size >= INT31 ==> NoPick(chunks, size) && (!CanGrow(size) || block.NoMemory?)
    }

    /** Realloc of a block that moves away: allocate, copy, free. */
    method MoveAway(p: int, inReqSize: SizeT, block: Block) returns (r: Option<int>)
      requires Valid() && Configured() && IsLive(p) && Refused(RequestToSize(inReqSize), block)
      requires chunks[p].size < RequestToSize(inReqSize)
      requires FreeRight(chunks, p) - FreeLeft(chunks, p) < RequestToSize(inReqSize)
      requires GoodBlock(areaSize, block, GrowSize(RequestToSize(inReqSize)))
      requires !BreaksPool(RequestToSize(inReqSize), block)
      modifies this
      ensures var size := RequestToSize(inReqSize);
        r.None? <==> NoPick(old(chunks), size) && (!old(CanGrow(size)) || block.NoMemory?)
      ensures var size := RequestToSize(inReqSize);
        size < INT31 ==> (r.None? <==> NoFit(old(chunks), size) && (!old(CanGrow(size)) || block.NoMemory?))
      ensures r.None? ==> unchanged(this)
      ensures Valid()
      ensures mAreaMoreSize == 0 && old(mAreas) != [] ==> areaSize == old(areaSize) && mAreas == old(mAreas)
      ensures r.Some? ==> RequestToSize(inReqSize) < INT31
      ensures r.Some? ==>
        ReallocEffect(p, r.value - HEADER, RequestToSize(inReqSize), old(mem), old(chunks), mem, chunks)
      ensures r.Some? ==> !ShiftedBack(old(chunks), p, r.value - HEADER, RequestToSize(inReqSize))
    {
      hide BinIndex, BinIndex2, PoolInv, Evolves, ReallocEffect, BreaksPool, FirstPick;
      hide NoFit, BestFit, GoodBlock, CanGrow, Splice, Copied, MovePayload;
      ghost var m, c, areas := mem, chunks, areaSize;
      var size := RequestToSize(inReqSize);
      InvParts(mem, mBinBlocks, mAreas, areaSize, chunks, rings);
      BlockGrid(areaSize, chunks, p);
      ChunkSize(mem, areaSize, chunks, p);
      var oldsize := SizeBits(mem[p].size);
      if size >= INT31 { NothingPicked(chunks, size); }
      r := Alloc(inReqSize, block);
      if r.None? { return; }
      var q := r.value - HEADER;
      ghost var c1 := chunks;
      NewBlock(q, size, GrowSize(size), m, c, areas, mem, chunks, areaSize, p);
      InvParts(mem, mBinBlocks, mAreas, areaSize, chunks, rings);
      BlockGrid(areaSize, chunks, q);
      AwayCopied(m, mem, mBinBlocks, mAreas, areaSize, c, chunks, rings, p, q, size);
      mem := MovePayload(mem, q, p, oldsize);
      ghost var m2, areas2 := mem, areaSize;
      Free(p + HEADER);
      assert Evolves(m2, c1, mem, chunks, {p}, {}) by {
        FreeEvolved(mAreaMoreSize != 0, p, m2, c1, areas2, mem, chunks, areaSize);
      }
      AwayEffect(m, m2, mem, c, c1, chunks, areas2, p, q, size);
    }

    /** The block and the free space around it cannot hold the request, so Realloc must allocate. */
    ghost predicate MustMove(p: int, size: int)
      requires p in chunks
      reads this
    {
      chunks[p].size < size && FreeRight(chunks, p) - FreeLeft(chunks, p) < size
    }

    /** Realloc leaves the pool broken: of null when Alloc does, of a block when the request has wrapped to
        nothing. */
    ghost predicate Ruins(inPtr: int, size: int, block: Block)
      reads this
    {
      if inPtr == 0 then BreaksPool(size, block) else size == 0
    }

    /** Realloc. Null acts as Alloc; otherwise the block stays, grows forward, shifts backward or moves
        away, in this order of preference, and its payload comes along, except that the line hit by the
        header of what is left over becomes that header. */
    method Realloc(inPtr: int, inReqSize: SizeT, block: Block) returns (r: Option<int>)
      requires Valid() && Configured()
      requires GoodBlock(areaSize, block, GrowSize(RequestToSize(inReqSize)))
      requires if inPtr == 0 then InModel(RequestToSize(inReqSize), block)
        else IsLive(inPtr - HEADER) && Refused(RequestToSize(inReqSize), block)
      requires inPtr != 0 && MustMove(inPtr - HEADER, RequestToSize(inReqSize)) ==>
        !BreaksPool(RequestToSize(inReqSize), block)
      modifies this
      ensures if old(Ruins(inPtr, RequestToSize(inReqSize), block)) then !Sound() else Valid()
      ensures var size := RequestToSize(inReqSize);
        r.None? <==>
          && (inPtr == 0 || old(MustMove(inPtr - HEADER, size)))
          && NoPick(old(chunks), size) && (!old(CanGrow(size)) || block.NoMemory?)
      ensures var size := RequestToSize(inReqSize);
        size < INT31 ==>
          (r.None? <==>
             && (inPtr == 0 || old(MustMove(inPtr - HEADER, size)))
             && NoFit(old(chunks), size) && (!old(CanGrow(size)) || block.NoMemory?))
      ensures r.None? ==> unchanged(this)
      ensures var size := RequestToSize(inReqSize);
        r.Some? && inPtr == 0 && size < INT31 && !old(BreaksPool(size, block)) ==>
          AllocEffect(r.value - HEADER, size, GrowSize(size), old(mem), old(chunks), old(areaSize),
                      mem, chunks, areaSize)
      ensures var size := RequestToSize(inReqSize);
        r.Some? && inPtr == 0 && size >= INT31 ==> (
          && areaSize == old(areaSize) && mAreas == old(mAreas)
          && FirstPick(old(chunks), size, r.value - HEADER)
          && ShortChange(r.value - HEADER, size, old(mem), old(chunks), mem, chunks))
      ensures var size, p, c := RequestToSize(inReqSize), inPtr - HEADER, old(chunks);
        r.Some? && inPtr != 0 && size != 0 ==>
          var q := r.value - HEADER;
          && size < INT31 && ReallocEffect(p, q, size, old(mem), c, mem, chunks)
          && (HeaderHits(c, p, size) ==> q == FreeLeft(c, p) && HeaderFound(p, q, size, mem))
          && (PayloadKept(p, q, old(mem), c, mem, chunks) <==>
                (HeaderHits(c, p, size) ==> LineSurvives(p, q, size, old(mem), mem)))
      ensures var size, p, c := RequestToSize(inReqSize), inPtr - HEADER, old(chunks);
        inPtr != 0 && size != 0 && !old(MustMove(p, size)) ==>
          && r == Some((if size <= c[p].size || size <= FreeRight(c, p) - p then p else FreeLeft(c, p)) + HEADER)
          && areaSize == old(areaSize)
      ensures mAreaMoreSize == 0 && old(mAreas) != [] ==> areaSize == old(areaSize) && mAreas == old(mAreas)
    {
      hide PoolInv, Evolves, AllocEffect, ReallocEffect, NoFit, NoPick, FirstPick, ShortChange, Sound, InModel, Refused;
      hide GoodBlock, Shape, Tagged, FreeLeft, FreeRight, BreaksPool;
      hide CanGrow, HeaderHits, PayloadKept, LineSurvives, HeaderFound;
      if inPtr == 0 {
        r := Alloc(inReqSize, block);
        return;
      }
      var p := inPtr - HEADER;
      ghost var m, c, areas := mem, chunks, areaSize;
      var size := RequestToSize(inReqSize);
      InvParts(mem, mBinBlocks, mAreas, areaSize, chunks, rings);
      if size == 0 {
        BlockGrid(areaSize, chunks, p);
        ZeroResize(p);
        return Some(inPtr);
      }
      r := ReallocBlock(p, inReqSize, block);
      if r.Some? {
        ReallocPayload(p, r.value - HEADER, size, m, areas, c, mem, chunks);
      }
    }

    /** The split of Realloc with a size of 0: the remainder is the block itself, which is tagged as live,
        tagged again with size 0, and given to Free, which finds both neighbours in use (the block is its own
        neighbour), tags it as free and links it, with size 0. */
    method ZeroResize(p: int)
      requires Valid() && IsLive(p)
      modifies this`mem, this`mBinBlocks, this`rings
      ensures !Sound()
    {
      hide BinIndex, BinIndex2, PoolInv, BinsOk, Marked, Shape, Tagged, Coalesced, Mapped;
      InvParts(mem, mBinBlocks, mAreas, areaSize, chunks, rings);
      ChunkSize(mem, areaSize, chunks, p);
      NextOf(mem, areaSize, chunks, p);
      ghost var m := mem;
      var newsize := SizeBits(mem[p].size);
      mem := SetSizeInUse(mem, p, newsize);
      mem := SetSizeInUse(mem, p, 0);
      assert SizeBits(mem[p].size) == 0 && InUseBit(mem[p].prevSize) && InUseBit(mem[p].size);
      mem := SetSizeFree(mem, p, 0);
      assert mem[p].prevSize != 1;
      ZeroLinkReady(m, mem, mBinBlocks, mAreas, areaSize, chunks, rings, p);
      ghost var k := LinkFree(p);
      StaysLinked(mem, mem, mBinBlocks, rings, 0, p);
      forall c, rs
        ensures !PoolInv(mem, mBinBlocks, mAreas, areaSize, c, rs)
      {
        BadMember(mem, mBinBlocks, mAreas, areaSize, 0, rings[0], p, c, rs);
      }
    }

    /** Realloc of a block. */
    method ReallocBlock(p: int, inReqSize: SizeT, block: Block) returns (r: Option<int>)
      requires Valid() && Configured() && RequestToSize(inReqSize) != 0 && Refused(RequestToSize(inReqSize), block)
      requires IsLive(p)
      requires GoodBlock(areaSize, block, GrowSize(RequestToSize(inReqSize)))
      requires MustMove(p, RequestToSize(inReqSize)) ==> !BreaksPool(RequestToSize(inReqSize), block)
      modifies this
      ensures Valid()
      ensures var size := RequestToSize(inReqSize);
        r.None? <==>
          && old(MustMove(p, size))
          && NoPick(old(chunks), size) && (!old(CanGrow(size)) || block.NoMemory?)
      ensures var size := RequestToSize(inReqSize);
        size < INT31 ==>
          (r.None? <==>
             old(MustMove(p, size)) && NoFit(old(chunks), size) && (!old(CanGrow(size)) || block.NoMemory?))
      ensures r.None? ==> unchanged(this)
      ensures r.Some? ==> RequestToSize(inReqSize) < INT31
      ensures r.Some? ==>
        ReallocEffect(p, r.value - HEADER, RequestToSize(inReqSize), old(mem), old(chunks), mem, chunks)
      ensures var size, c := RequestToSize(inReqSize), old(chunks);
        !old(MustMove(p, size)) ==>
          && r == Some((if size <= c[p].size || size <= FreeRight(c, p) - p then p else FreeLeft(c, p)) + HEADER)
          && areaSize == old(areaSize)
      ensures r.Some? && old(MustMove(p, RequestToSize(inReqSize))) ==>
        !ShiftedBack(old(chunks), p, r.value - HEADER, RequestToSize(inReqSize))
      ensures mAreaMoreSize == 0 && old(mAreas) != [] ==> areaSize == old(areaSize) && mAreas == old(mAreas)
    {
      hide BinIndex, BinIndex2, PoolInv, Evolves, ReallocEffect, NoFit, GoodBlock, Shape, Tagged, FreeLeft, FreeRight;
      hide BreaksPool, CanGrow, SizeBits, InUseBit, ShiftedBack, NoPick;
      var size := RequestToSize(inReqSize);
      InvParts(mem, mBinBlocks, mAreas, areaSize, chunks, rings);
      RunBelow(mem, areaSize, chunks, p);
      ChunkSize(mem, areaSize, chunks, p);
      var oldsize := SizeBits(mem[p].size);
      if oldsize >= size {
        ResizeHere(p, p + oldsize, size);
        return Some(p + HEADER);
      }
      NextProbe(mem, areaSize, chunks, p);
      PrevProbe(mem, areaSize, chunks, p);
      var next := p + oldsize;
      var nextFree := !InUseBit(mem[next].size);
      var nextsize := if nextFree then SizeBits(mem[next].size) else 0;
      if nextFree && nextsize + oldsize >= size {
        ResizeHere(p, next + nextsize, size);
        return Some(p + HEADER);
      }
      var prev := p - SizeBits(mem[p].prevSize);
      if !InUseBit(mem[prev].size) {
        var prevsize := SizeBits(mem[prev].size);
        if nextFree && nextsize + prevsize + oldsize >= size {
          ShiftBack(p, prev, next, true, next + nextsize, size);
          return Some(prev + HEADER);
        }
        if prevsize + oldsize >= size {
          ShiftBack(p, prev, next, false, next, size);
          return Some(prev + HEADER);
        }
      }
      r := MoveAway(p, inReqSize, block);
    }

    /** InitBins: empties every bin and the bitmap. */
    method InitBins()
      requires HeadsMapped(mem)
      modifies this`mem, this`mBinBlocks, this`rings
      ensures BinsOk(mem, mBinBlocks, rings) && rings == NoRings()
      ensures mem.Keys == old(mem).Keys
      ensures forall x :: x in mem && x >= FIRST_ADDRESS ==> mem[x] == old(mem)[x]
    {
      hide BinsOk;
      ghost var m := mem;
      for i := 0 to NUM_BINS
        invariant mem.Keys == m.Keys
        invariant forall x :: x in mem && x >= FIRST_ADDRESS ==> mem[x] == m[x]
        invariant forall j: nat {:trigger BinHead(j)} :: j < i ==>
          mem[BinHead(j)].next == mem[BinHead(j)].prev == BinHead(j)
      {
        mem := BeEmpty(mem, BinHead(i));
      }
      mBinBlocks := [0, 0, 0, 0];
      rings := NoRings();
      EmptyBinsOk(mem, mBinBlocks);
    }

    /** The pool object with empty bins and no area: the constructor up to InitAlloc. */
    constructor (inAreaInitSize: nat, inAreaMoreSize: nat)
      ensures Valid() && mAreaInitSize == inAreaInitSize && mAreaMoreSize == inAreaMoreSize
      ensures chunks == map[] && mAreas == [] && areaSize == map[]
    {
      mAreaInitSize, mAreaMoreSize := inAreaInitSize, inAreaMoreSize;
      mem := map i | 0 <= i < NUM_BINS :: BinHead(i) := Line(0, 0, 0, 0);
      mBinBlocks, mAreas, areaSize := [], [], map[];
      chunks, rings := map[], [];
      new;
      InitBins();
      NoAreas(mem, mBinBlocks);
    }

    /** InitAlloc: the initial area, if one is configured, as one free chunk. */
    method InitAlloc(block: Block) returns (ok: bool)
      requires Valid() && Configured() && mAreas == [] && areaSize == map[] && chunks == map[]
      requires GoodBlock(areaSize, block, mAreaInitSize)
      modifies this
      ensures Valid()
      ensures ok <==> mAreaInitSize == 0 || block.Memory?
      ensures !ok || mAreaInitSize == 0 ==> unchanged(this)
      ensures ok && mAreaInitSize != 0 ==>
        var a := AreaChunk(block.ptr);
        areaSize == map[a := mAreaInitSize] && chunks == AllFree(areaSize) && mAreas == [a]
    {
      hide PoolInv, PoolState.Unsettled, BinsOk, Tagged, Shape;
      if mAreaInitSize == 0 { return true; }
      if block.NoMemory? { return false; }
      ghost var mm, cc, aa := mem, chunks, areaSize;
      var a := NewArea(mAreaInitSize, block);
      assert chunks == AllFree(areaSize);
      LinkSettled(a);
      return true;
    }

    /** LinkFree of a free chunk that is in no bin. */
    method LinkSettled(a: int)
      requires Unsettled(mem, mBinBlocks, mAreas, areaSize, chunks, rings, a)
      modifies this`mem, this`mBinBlocks, this`rings
      ensures Valid() && SameTags(old(mem), mem) && Frame(old(mem), mem, chunks.Keys)
    {
      hide BinsOk, Tagged, Coalesced, Shape, BinIndex, BinIndex2, Member, AreaList;
      ghost var m1 := mem;
      LinkReady(mem, areaSize, chunks, rings, {a}, a);
      assert forall y :: y in rings[BinIndex(chunks[a].size)] ==> FreeIn(chunks, {a}, y);
      ghost var k := LinkFree(a);
      BinnedLink(chunks, old(rings), {a}, k, a);
      assert {a} - {a} == {};
      TaggedFrame(m1, mem, areaSize, chunks);
    }

    /** FreeAll: gives every area back and empties the bins. */
    method FreeAll()
      requires Valid()
      modifies this
      ensures Valid() && mAreas == [] && areaSize == map[] && chunks == map[]
      ensures forall x :: x in mem <==> x in old(mem) && x < FIRST_ADDRESS
    {
      hide BinIndex, BinIndex2, BinOk, BinsOk;
      assert HeadsMapped(mem) by { HeadsOk(mem, mBinBlocks, rings); }
      mem := map x | x in mem && x < FIRST_ADDRESS :: mem[x];
      mAreas, areaSize := [], map[];
      InitBins();
      NoAreas(mem, mBinBlocks);
      chunks := map[];
    }

    /** Reinit: FreeAll, then InitAlloc. */
    method Reinit(block: Block) returns (ok: bool)
      requires Valid() && Configured() && GoodBlock(map[], block, mAreaInitSize)
      modifies this
      ensures Valid() && (ok <==> mAreaInitSize == 0 || block.Memory?)
      ensures if ok && mAreaInitSize != 0
        then areaSize == map[AreaChunk(block.ptr) := mAreaInitSize] && chunks == AllFree(areaSize)
        else areaSize == map[] && chunks == map[]
    {
      hide PoolInv;
      FreeAll();
      ok := InitAlloc(block);
    }

    /** FreeAllInternal: keeps the areas and makes each one free chunk. */
    method FreeAllInternal()
      requires Valid()
      modifies this
      ensures Valid() && mAreas == old(mAreas) && areaSize == old(areaSize) && chunks == AllFree(areaSize)
    {
      hide BinIndex, BinIndex2, BinsOk, Tagged, Binned, Coalesced;
      hide Shape, Mapped, AreaList, Member, Formatted, AreaFormatted;
      HeadsOk(mem, mBinBlocks, rings);
      ghost var c := chunks;
      var keys := mem.Keys;
      InitBins();
      assert Formatted(mem, areaSize, mAreas, 0, rings) by { NothingFormatted(mem, areaSize, mAreas); }
      MappedKeys(old(mem), mem, areaSize);
      for i := 0 to |mAreas|
        invariant mAreas == old(mAreas) && areaSize == old(areaSize)
        invariant Mapped(mem, areaSize) && BinsOk(mem, mBinBlocks, rings) && Formatted(mem, areaSize, mAreas, i, rings)
      {
        var chunk := mAreas[i];
        AreaStartMapped(mem, mAreas, areaSize, c, i);
        var size := areaSize[chunk];
        ghost var m, r := mem, rings;
        mem := SetSizeFree(mem, chunk, size);
        mem := SetNeighborsInUse(mem, chunk, size);
        FormatOne(m, mem, mBinBlocks, mAreas, areaSize, c, rings, i) by { FormatOrder(m, chunk, size); }
        ghost var m1 := mem;
        MappedKeys(m, mem, areaSize);
        assert BinOf(areaSize, chunk) == BinIndex(size);
        ghost var k := LinkFree(chunk);
        LinkOne(m1, mem, mAreas, areaSize, r, i, k);
        MappedKeys(m1, mem, areaSize);
      }
      AllFormatted(mem, mBinBlocks, mAreas, areaSize, c, rings);
      chunks := AllFree(areaSize);
    }

    /** TotalFree: the sum of all free chunk sizes. */
    method TotalFree(ghost top: nat) returns (total: int)
      requires Valid() && Above(chunks, areaSize, top)
      ensures total == Sum(FreeWeight(chunks), top)
    {
      hide BinIndex, BinIndex2, SizeBits, Sum, Shape, Tagged, BinsOk, Coalesced, Mapped;
      total := 0;
      AllBelow(areaSize, chunks, top);
      for i := 0 to NUM_BINS
        invariant total == Sum(BelowWeight(chunks, i), top)
      {
        ghost var s := rings[i];
        RingOfBin(mem, mBinBlocks, areaSize, chunks, rings, i);
        var bin := BinHead(i);
        var candidate := mem[bin].prev;
        ghost var k := |s|;
        ghost var before := total;
        assert s[k..] == [];
        while candidate != bin
          invariant 0 <= k <= |s| && candidate == Before(bin, s, k)
          invariant total == before + TotalSeq(chunks, s[k..])
          decreases k
        {
          assert candidate == s[k - 1] && candidate in s;
          SizeOfMember(mem, areaSize, chunks, rings, i, candidate);
          total := total + SizeBits(mem[candidate].size);
          assert s[k - 1..][1..] == s[k..];
          AtLinks(mem, bin, s, k - 1);
          candidate := mem[candidate].prev;
          k := k - 1;
        }
        assert s[0..] == s;
        BinAdds(areaSize, chunks, rings, i, top);
      }
    }

    /** LargestFreeChunk, which the source may call only while some chunk is free: it then looks at the
        highest marked bin. */
    method LargestFreeChunk() returns (maxsize: int)
      requires Valid() && exists p :: p in chunks && !chunks[p].inUse
      ensures forall p :: p in chunks && !chunks[p].inUse ==> chunks[p].size <= maxsize
      ensures exists p :: p in chunks && !chunks[p].inUse && chunks[p].size == maxsize
    {
      hide BinIndex, BinIndex2, SizeBits, Shape, Tagged, BinsOk, Coalesced, Mapped, Marked, BitLength;
      var word := 0;
      var i := 3;
      BinsWords(mem, mBinBlocks, rings);
      while i >= 0 && mBinBlocks[i] == 0
        invariant -1 <= i <= 3 && forall j :: i < j <= 3 ==> mBinBlocks[j] == 0
      {
        i := i - 1;
      }
      if i >= 0 { word := i; }
      SomeWord(mem, mBinBlocks, areaSize, chunks, rings);
      var bitPosition := BitLength(mBinBlocks[word]) - 1;
      var index := word * 32 + bitPosition;
      HighestMarked(mem, mBinBlocks, areaSize, chunks, rings, word);
      RingOfBin(mem, mBinBlocks, areaSize, chunks, rings, index);
      var bin := BinHead(index);
      var candidate := mem[bin].prev;
      maxsize := 0;
      ghost var s := rings[index];
      ghost var k := |s|;
      while candidate != bin
        invariant 0 <= k <= |s| && candidate == Before(bin, s, k)
        invariant forall j :: k <= j < |s| ==> s[j] in chunks && chunks[s[j]].size <= maxsize
        invariant k == |s| ==> maxsize == 0
        invariant k < |s| ==> exists p :: p in chunks && !chunks[p].inUse && chunks[p].size == maxsize
        decreases k
      {
        assert candidate == s[k - 1] && candidate in s;
        SizeOfMember(mem, areaSize, chunks, rings, index, candidate);
        MemberSize(mem, areaSize, chunks, rings, index, candidate);
        var candidate_size := SizeBits(mem[candidate].size);
        maxsize := if maxsize >= candidate_size then maxsize else candidate_size;
        AtLinks(mem, bin, s, k - 1);
        candidate := mem[candidate].prev;
        k := k - 1;
      }
      LargestInTopBin(mem, areaSize, chunks, rings, index, maxsize);
    }

    /** A client's write of one line of payload, at an offset from the block's header. */
    method Store(p: int, offset: int, line: Line)
      requires Valid() && IsLive(p) && 0 < offset < chunks[p].size && p + offset in mem
      modifies this`mem
      ensures Valid() && mem == old(mem)[p + offset := line]
      ensures forall r :: r in chunks && r != p ==> SamePayload(old(mem), mem, r, chunks[r].size)
    {
      hide PoolInv, SamePayload;
      ghost var m := mem;
      mem := mem[p + offset := line];
      PayloadWrite(m, mem, mBinBlocks, mAreas, areaSize, chunks, rings, p);
    }
  }

  /** The constructor with its call of InitAlloc; None when NewArea throws. */
  method NewPool(inAreaInitSize: nat, inAreaMoreSize: nat, block: Block) returns (r: Option<AllocPool>)
    requires inAreaInitSize == 0 || (MIN_ALLOC <= inAreaInitSize < INT31 && inAreaInitSize % ALIGN == 0)
    requires inAreaMoreSize == 0 || (MIN_ALLOC <= inAreaMoreSize < INT31 && inAreaMoreSize % ALIGN == 0)
    requires GoodBlock(map[], block, inAreaInitSize)
    ensures r.None? <==> inAreaInitSize != 0 && block.NoMemory?
    ensures r.Some? ==>
      && fresh(r.value) && r.value.Valid() && r.value.Configured()
      && r.value.mAreaInitSize == inAreaInitSize && r.value.mAreaMoreSize == inAreaMoreSize
      && r.value.chunks == AllFree(r.value.areaSize)
    ensures r.Some? && inAreaInitSize == 0 ==> r.value.mAreas == [] && r.value.areaSize == map[]
    ensures r.Some? && inAreaInitSize != 0 ==>
      var a := AreaChunk(block.ptr); r.value.mAreas == [a] && r.value.areaSize == map[a := inAreaInitSize]
  {
    hide PoolInv, GoodBlock;
    var pool := new AllocPool(inAreaInitSize, inAreaMoreSize);
    var ok := pool.InitAlloc(block);
    if !ok { return None; }
    assert inAreaInitSize == 0 ==> AllFree(map[]) == map[];
    return Some(pool);
  }
}

/** What the search of Alloc looks for, and why scanning bins upwards finds it. */
module Searching {
  import opened Bins
  import opened BinBlocks
  import opened Rings
  import opened Layout
  import opened FreeLists
  import opened PoolState

  /** p is a free chunk of minimum size among all free chunks that hold `size` bytes. */
  ghost predicate BestFit(c: Chunks, size: int, p: int) {
    && p in c && !c[p].inUse && c[p].size >= size
    && forall q :: q in c && !c[q].inUse && c[q].size >= size ==> c[q].size >= c[p].size
  }

  ghost predicate NoFit(c: Chunks, size: int) {
    forall q :: q in c && !c[q].inUse ==> c[q].size < size
  }

  /** The fit test of the search, on `int32` remainders. */
  predicate Passes(chunkSize: int, size: int) {
    ToInt32(chunkSize - size) >= 0
  }

  lemma PassesIsFits(chunkSize: int, size: int)
    requires 0 <= chunkSize < INT31 && 0 <= size < INT31
    ensures Passes(chunkSize, size) <==> chunkSize >= size
  {
    ToInt32Exact(chunkSize - size);
  }

  /** q is a free chunk that the search would take: in one of the bins it goes through, and past the test. */
  ghost predicate Candidate(c: Chunks, size: nat, q: int) {
    q in c && !c[q].inUse && c[q].size >= 0 && BinIndex(c[q].size) >= BinIndex(size) && Passes(c[q].size, size)
  }

  /** p is a smallest candidate: the one the search takes. */
  ghost predicate FirstPick(c: Chunks, size: nat, p: int) {
    Candidate(c, size, p) && forall q :: Candidate(c, size, q) ==> c[q].size >= c[p].size
  }

  ghost predicate NoPick(c: Chunks, size: nat) {
    forall q :: !Candidate(c, size, q)
  }

  /** No chunk of the bin passes the test. */
  ghost predicate TooSmall(m: Mem, s: seq<int>, size: int) {
    forall x :: x in s && x in m ==> !Passes(m[x].size, size)
  }

  /** The search has gone through all bins below i, from the one for the size on, and none had a candidate. */
  ghost predicate TooSmallBelow(m: Mem, rings: seq<seq<int>>, i: int, size: nat) {
    forall j {:trigger rings[j]} :: BinIndex(size) <= j < i && j < |rings| ==> TooSmall(m, rings[j], size)
  }

  /** cand is the smallest chunk of the bin that passes the test. */
  ghost predicate BestInBin(m: Mem, s: seq<int>, size: int, cand: int) {
    && cand in s && cand in m && Passes(m[cand].size, size)
    && forall x :: x in s && x in m && Passes(m[x].size, size) ==> m[x].size >= m[cand].size
  }

  /** Below 2^31 the smallest candidate is a best fit. */
  lemma PickIsBestFit(areas: Areas, c: Chunks, size: nat, p: int)
    requires Shape(areas, c) && FirstPick(c, size, p) && size < INT31
    ensures BestFit(c, size, p)
  {
    hide BinIndex, BinIndex2, Passes;
    FreeSize(areas, c, p);
    PassesIsFits(c[p].size, size);
    forall q | q in c && !c[q].inUse && c[q].size >= size
      ensures c[q].size >= c[p].size
    {
      FreeSize(areas, c, q);
      PassesIsFits(c[q].size, size);
      BinIndexMonotone(size, c[q].size);
      assert Candidate(c, size, q);
    }
  }

  /** Below 2^31, when there is no candidate nothing fits. */
  lemma NoPickIsNoFit(areas: Areas, c: Chunks, size: nat)
    requires Shape(areas, c) && NoPick(c, size) && size < INT31
    ensures NoFit(c, size)
  {
    hide BinIndex, BinIndex2, Passes;
    forall q | q in c && !c[q].inUse
      ensures c[q].size < size
    {
      FreeSize(areas, c, q);
      PassesIsFits(c[q].size, size);
      if c[q].size >= size { BinIndexMonotone(size, c[q].size); }
      assert !Candidate(c, size, q);
    }
  }

  /** From 2^31 on every chunk the search takes is too small, and a split would put the remainder's header
      outside the chunk: past the end of its area or, where the address wraps around, below the chunk. */
  lemma PickTooSmall(areas: Areas, c: Chunks, size: nat, p: int)
    requires Shape(areas, c) && FirstPick(c, size, p) && INT31 <= size < SIZE_RANGE && 0 <= p < SIZE_RANGE
    ensures p in c && !c[p].inUse && c[p].size < size && c[p].area in areas
    ensures var remainder := (p + size) % SIZE_RANGE;
      if p + size < SIZE_RANGE then remainder > End(areas, c[p].area) else remainder < p
  {
    hide BinIndex;
    FreeSize(areas, c, p);
    assert ChunkOk(areas, p, c[p]);
  }

  /** A request that has wrapped to nothing takes any free chunk. */
  lemma PickForNothing(areas: Areas, c: Chunks)
    requires Shape(areas, c)
    ensures NoPick(c, 0) <==> NoneFree(c)
  {
    hide BinIndex2;
    forall q | q in c && !c[q].inUse
      ensures Candidate(c, 0, q)
    {
      FreeSize(areas, c, q);
      PassesIsFits(c[q].size, 0);
    }
  }

  ghost predicate NoneFree(c: Chunks) {
    forall q :: q in c ==> c[q].inUse
  }

  lemma PickSize(areas: Areas, c: Chunks, size: nat, p: int)
    requires Shape(areas, c) && FirstPick(c, size, p) && size < INT31
    ensures p in c && !c[p].inUse && ToInt32(c[p].size - size) == c[p].size - size >= 0
  {
    hide BinIndex;
    FreeSize(areas, c, p);
    ToInt32Exact(c[p].size - size);
  }

  lemma SmallSize(size: nat)
    requires BinIndex(size) < NUM_SMALL_BINS - 1
    ensures size < 1024
  {
  }

  lemma FreeSize(areas: Areas, c: Chunks, q: int)
    requires Shape(areas, c) && q in c
    ensures MIN_ALLOC <= c[q].size < INT31 && c[q].size % ALIGN == 0
  {
    assert ChunkOk(areas, q, c[q]) && OnGrid(q, c[q].size);
  }

  lemma MemberSize(m: Mem, areas: Areas, c: Chunks, rings: seq<seq<int>>, i: nat, x: int)
    requires Shape(areas, c) && Tagged(m, areas, c) && Binned(c, rings, {}) && i < NUM_BINS && x in rings[i]
    ensures x in m && x in c && !c[x].inUse && m[x].size == c[x].size && MIN_ALLOC <= c[x].size < INT31
    ensures c[x].size % ALIGN == 0
  {
    assert FreeIn(c, {}, x);
    assert ChunkTags(m, x, c[x]) && ChunkOk(areas, x, c[x]) && OnGrid(x, c[x].size);
  }

  lemma BinMember(m: Mem, blocks: seq<nat>, rings: seq<seq<int>>, i: nat, x: int)
    requires BinsOk(m, blocks, rings) && i < NUM_BINS && x in rings[i]
    ensures Member(m, i, x)
  {
    assert BinOk(m, i, rings[i]);
  }

  lemma NothingScanned(m: Mem, rings: seq<seq<int>>, size: nat)
    ensures TooSmallBelow(m, rings, BinIndex(size), size)
  {
  }

  lemma BinCount(m: Mem, blocks: seq<nat>, rings: seq<seq<int>>)
    requires BinsOk(m, blocks, rings)
    ensures |rings| == NUM_BINS
  {
  }

  /** An unmarked bin is empty. */
  lemma EmptyBins(m: Mem, blocks: seq<nat>, rings: seq<seq<int>>, from: nat, to: nat, size: nat)
    requires BinsOk(m, blocks, rings) && TooSmallBelow(m, rings, from, size) && from <= to <= NUM_BINS
    requires forall i: nat :: from <= i < to ==> !Marked(blocks, i)
    ensures TooSmallBelow(m, rings, to, size)
  {
    hide Marked, BinIndex;
    forall j | BinIndex(size) <= j < to && j < |rings|
      ensures TooSmall(m, rings[j], size)
    {
      if j >= from { assert !Marked(blocks, j); }
    }
  }

  lemma SmallBelow(m: Mem, rings: seq<seq<int>>, i: nat, size: nat, j: nat, q: int)
    requires TooSmallBelow(m, rings, i, size) && BinIndex(size) <= j < i && j < |rings| && q in rings[j] && q in m
    ensures !Passes(m[q].size, size)
  {
    assert TooSmall(m, rings[j], size);
  }

  /** The smallest chunk that passes in the first bin that has one is a smallest candidate of all. */
  lemma BestFound(m: Mem, blocks: seq<nat>, list: seq<int>, areas: Areas, c: Chunks, rings: seq<seq<int>>,
                  i: nat, size: nat, cand: int)
    requires PoolInv(m, blocks, list, areas, c, rings) && BinIndex(size) <= i < NUM_BINS
    requires TooSmallBelow(m, rings, i, size) && BestInBin(m, rings[i], size, cand)
    ensures FirstPick(c, size, cand) && m[cand].size == c[cand].size
  {
    hide BinIndex, BinIndex2, BinsOk, Shape, Tagged, Coalesced, Mapped, Passes;
    MemberSize(m, areas, c, rings, i, cand);
    BinMember(m, blocks, rings, i, cand);
    forall q | Candidate(c, size, q)
      ensures c[q].size >= c[cand].size
    {
      FreeIsMember(m, areas, c, rings, {}, q);
      var j := BinIndex(c[q].size);
      if j < i { SmallBelow(m, rings, i, size, j, q); }
      if j > i && c[q].size < c[cand].size {
        BinIndexMonotone(c[q].size, c[cand].size);
      }
    }
  }

  lemma NoneFound(m: Mem, blocks: seq<nat>, list: seq<int>, areas: Areas, c: Chunks, rings: seq<seq<int>>, size: nat)
    requires PoolInv(m, blocks, list, areas, c, rings) && TooSmallBelow(m, rings, NUM_BINS, size)
    ensures NoPick(c, size)
  {
    hide BinIndex, BinIndex2, BinsOk, Shape, Tagged, Coalesced, Mapped, Passes;
    forall q
      ensures !Candidate(c, size, q)
    {
      if FreeIn(c, {}, q) {
        FreeIsMember(m, areas, c, rings, {}, q);
        var j := BinIndex(c[q].size);
        if j >= BinIndex(size) { SmallBelow(m, rings, NUM_BINS, size, j, q); }
      }
    }
  }

  /** The tail of a small bin is its smallest chunk, and the tail of the bin for exactly this size, or of
      the next one, leaves no remainder worth splitting. */
  lemma SmallTail(m: Mem, blocks: seq<nat>, list: seq<int>, areas: Areas, c: Chunks, rings: seq<seq<int>>, i: nat,
                  size: nat)
    requires PoolInv(m, blocks, list, areas, c, rings) && size % ALIGN == 0
    requires BinIndex(size) < 63 && BinIndex(size) <= i <= BinIndex(size) + 1
    requires TooSmallBelow(m, rings, i, size)
    ensures BinHead(i) in m && (m[BinHead(i)].prev == BinHead(i) <==> rings[i] == [])
    ensures rings[i] != [] ==> var x := m[BinHead(i)].prev;
      BestInBin(m, rings[i], size, x) && m[x].size - size < MIN_ALLOC
  {
    hide Shape, Tagged, Coalesced, Mapped, BinIndex;
    assert BinOk(m, i, rings[i]);
    if rings[i] != [] {
      var x := m[BinHead(i)].prev;
      assert x in rings[i] && rings[i][0] in rings[i];
      forall y | y in rings[i]
        ensures y in m && m[y].size == 16 * i && Passes(m[y].size, size) && 16 * i - size < MIN_ALLOC
      {
        assert Member(m, i, y);
        assert m[y].size >= size;
        PassesIsFits(m[y].size, size);
        SmallBinExact(m[y].size, m[y].size);
        SmallBinExact(size, size);
      }
    }
    assert BinHead(i) !in rings[i];
  }

  lemma NextBin(m: Mem, rings: seq<seq<int>>, i: nat, size: nat)
    requires TooSmallBelow(m, rings, i, size) && i < |rings| && TooSmall(m, rings[i], size)
    ensures TooSmallBelow(m, rings, i + 1, size)
  {
  }

  lemma PickIsChunk(areas: Areas, c: Chunks, size: nat, p: int)
    requires Shape(areas, c) && FirstPick(c, size, p)
    ensures FreeIn(c, {}, p) && MIN_ALLOC <= c[p].size && c[p].size % ALIGN == 0
    ensures size < INT31 ==> c[p].size >= size && ToInt32(c[p].size - size) == c[p].size - size
    ensures size >= INT31 ==> c[p].size < size
  {
    hide BinIndex;
    FreeSize(areas, c, p);
    if size < INT31 { PickSize(areas, c, size, p); }
  }

  lemma NothingPicked(c: Chunks, size: nat)
    requires NoPick(c, size)
    ensures forall p :: !FirstPick(c, size, p)
  {
  }

  lemma FoundPick(c: Chunks, size: nat, p: int)
    requires FirstPick(c, size, p)
    ensures !NoPick(c, size)
  {
  }
}

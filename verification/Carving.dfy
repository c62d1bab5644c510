/** Turning a free, unlinked chunk into a live block: the exit paths of Alloc. */
module Carving {
  import opened Bins
  import opened BinBlocks
  import opened Rings
  import opened Layout
  import opened FreeLists
  import opened PoolState
  import opened Searching
  import opened Growing

  /** Size of the live block carved from a chunk of `room` bytes: the rest is split off when it can
      stand as a chunk of its own. */
  function CarvedSize(room: int, size: int): int {
    if room - size >= MIN_ALLOC then size else room
  }

  /** The effect of carving: the block is live, it exceeds the rounded request by less than the
      minimum chunk, the rest is a free chunk, and no other live block is touched. */
  ghost predicate CarveEffect(cand: int, size: int, m: Mem, c: Chunks, m': Mem, c': Chunks) {
    && cand in c
    && c' == Splice(c, cand, cand + c[cand].size, CarvedSize(c[cand].size, size), true, false)
    && cand in c' && c'[cand].inUse && size <= c'[cand].size < size + MIN_ALLOC
    && Evolves(m, c, m', c', {}, {cand})
  }

  lemma UnlinkedRun(m: Mem, blocks: seq<nat>, list: seq<int>, areas: Areas, c: Chunks, rings: seq<seq<int>>, cand: int)
    requires Unsettled(m, blocks, list, areas, c, rings, cand)
    ensures Run(areas, c, cand, cand + c[cand].size)
    ensures c[cand].size % ALIGN == 0 && c[cand].size >= MIN_ALLOC
    ensures forall q :: q in c && q + c[q].size == cand ==> c[q].inUse
    ensures cand + c[cand].size in c ==> c[cand + c[cand].size].inUse
    ensures forall q :: q in c && cand <= q < cand + c[cand].size ==> q == cand
  {
    hide BinIndex, BinIndex2, BinsOk;
    assert ChunkOk(areas, cand, c[cand]) && NextOk(areas, c, cand) && OnGrid(cand, c[cand].size);
    forall q | q in c && cand <= q < cand + c[cand].size
      ensures q == cand
    {
      NotInside(areas, c, q, cand);
    }
  }

  /** Shape and coalescing after carving. */
  lemma CarveShape(m: Mem, blocks: seq<nat>, list: seq<int>, areas: Areas, c: Chunks, rings: seq<seq<int>>, cand: int,
                   s: int)
    requires Unsettled(m, blocks, list, areas, c, rings, cand)
    requires SpliceSize(cand, cand + c[cand].size, s) && s % ALIGN == 0
    ensures var c' := Splice(c, cand, cand + c[cand].size, s, true, false);
      Shape(areas, c') && Coalesced(c') && Binned(c', rings, NewFree(cand, cand + c[cand].size, s, true, false))
  {
    hide BinIndex, BinIndex2, BinsOk, Tagged;
    UnlinkedRun(m, blocks, list, areas, c, rings, cand);
    var e := cand + c[cand].size;
    SpliceAligned(areas, c, cand, e, s, true, false);
    SpliceTiled(areas, c, cand, e, s, true, false);
    SpliceCoalesced(areas, c, cand, e, s, true, false);
    BinnedSplice(c, rings, {cand}, cand, e, s, true, false);
  }

  lemma CarveEvolves(areas: Areas, c: Chunks, m: Mem, m': Mem, cand: int, size: int, s: int)
    requires cand in c && Run(areas, c, cand, cand + c[cand].size) && !c[cand].inUse
    requires forall q :: q in c && cand <= q < cand + c[cand].size ==> q == cand
    requires c[cand].size >= size && s == CarvedSize(c[cand].size, size) && SpliceSize(cand, cand + c[cand].size, s)
    requires Shape(areas, c) && Shape(areas, Splice(c, cand, cand + c[cand].size, s, true, false))
    requires Frame(m, m', c.Keys + {cand + s, cand + c[cand].size})
    ensures CarveEffect(cand, size, m, c, m', Splice(c, cand, cand + c[cand].size, s, true, false))
  {
    hide Shape;
    var e := cand + c[cand].size;
    var c' := Splice(c, cand, e, s, true, false);
    forall q | q in c && c[q].inUse && q !in {}
      ensures Kept(m, c, m', c', q)
    {
      FrameKeeps(m, m', areas, c, c', cand, e, s, true, false, q);
    }
  }

  /** Exact fit: the whole chunk becomes the block. */
  lemma CarveWhole(m: Mem, m': Mem, blocks: seq<nat>, list: seq<int>, areas: Areas, c: Chunks, rings: seq<seq<int>>,
                   cand: int, size: int)
    requires Unsettled(m, blocks, list, areas, c, rings, cand) && size <= c[cand].size < size + MIN_ALLOC
    requires cand in m && cand + c[cand].size in m && m' == SetSizeInUse(m, cand, c[cand].size)
    ensures var c' := Splice(c, cand, cand + c[cand].size, c[cand].size, true, false);
      PoolInv(m', blocks, list, areas, c', rings) && CarveEffect(cand, size, m, c, m', c')
  {
    hide BinIndex, BinIndex2, BinsOk, Tagged, Coalesced, Shape, CarveEffect;
    var e, s := cand + c[cand].size, c[cand].size;
    UnlinkedRun(m, blocks, list, areas, c, rings, cand);
    CarveShape(m, blocks, list, areas, c, rings, cand, s);
    SpliceStep(m, m', blocks, areas, c, rings, {cand}, cand, e, s, true, false);
    assert NewFree(cand, e, s, true, false) == {};
    CarveEvolves(areas, c, m, m', cand, size, s);
    assert Mapped(m', areas);
  }

  /** Ready to link the remainder of a split. */
  lemma RemainderReady(m: Mem, m1: Mem, blocks: seq<nat>, list: seq<int>, areas: Areas, c: Chunks,
                       rings: seq<seq<int>>, cand: int, size: int)
    requires Unsettled(m, blocks, list, areas, c, rings, cand)
    requires MIN_ALLOC <= size <= c[cand].size - MIN_ALLOC && size % ALIGN == 0
    requires cand + size in m && cand + c[cand].size in m
    requires m1 == SetSizeFree(m, cand + size, c[cand].size - size)
    ensures BinsOk(m1, blocks, rings)
    ensures m1[cand + size].size == c[cand].size - size
    ensures Member(m1, BinIndex(c[cand].size - size), cand + size)
    ensures forall i: nat {:trigger rings[i]} :: i < NUM_BINS ==> cand + size !in rings[i]
  {
    hide BinIndex, BinIndex2, Marked;
    UnlinkedRun(m, blocks, list, areas, c, rings, cand);
    var rem := cand + size;
    assert ChunkOk(areas, cand, c[cand]);
    forall i: nat, x | i < NUM_BINS && x in rings[i]
      ensures x != rem
    {
      assert FreeIn(c, {cand}, x);
    }
    BinsFrame(m, m1, blocks, rings);
  }

  /** The remainder has been linked and the candidate tagged: the split is complete. */
  lemma CarveSplit(m: Mem, m1: Mem, m2: Mem, m3: Mem, blocks: seq<nat>, blocks2: seq<nat>, list: seq<int>, areas: Areas,
                   c: Chunks, rings: seq<seq<int>>, rings2: seq<seq<int>>, cand: int, size: int, k: nat)
    requires Unsettled(m, blocks, list, areas, c, rings, cand)
    requires MIN_ALLOC <= size <= c[cand].size - MIN_ALLOC && size % ALIGN == 0
    requires cand in m && cand + size in m && cand + c[cand].size in m
    requires m1 == SetSizeFree(m, cand + size, c[cand].size - size)
    requires BinsOk(m2, blocks2, rings2) && SameTags(m1, m2) && Frame(m1, m2, c.Keys + {cand + size})
    requires var i := BinIndex(c[cand].size - size);
      |rings| == NUM_BINS && k <= |rings[i]| && rings2 == rings[i := Inserted(rings[i], k, cand + size)]
    requires m3 == SetSizeInUse(m2, cand, size)
    ensures var c' := Splice(c, cand, cand + c[cand].size, size, true, false);
      PoolInv(m3, blocks2, list, areas, c', rings2) && CarveEffect(cand, size, m, c, m3, c')
  {
    hide BinIndex, BinIndex2, BinsOk, Tagged, Coalesced, Shape, CarveEffect, Marked, Evolves;
    var e, rem := cand + c[cand].size, cand + size;
    var c' := Splice(c, cand, e, size, true, false);
    UnlinkedRun(m, blocks, list, areas, c, rings, cand);
    CarveShape(m, blocks, list, areas, c, rings, cand, size);
    assert NewFree(cand, e, size, true, false) == {rem};
    SplitTagged(m, m1, m2, m3, areas, c, cand, size);
    SplitBinned(m2, m3, blocks2, c, c', rings, rings2, cand, size, k);
    CarveEvolves(areas, c, m, m3, cand, size, size);
    assert Mapped(m3, areas);
  }

  lemma SplitTagged(m: Mem, m1: Mem, m2: Mem, m3: Mem, areas: Areas, c: Chunks, cand: int, size: int)
    requires cand in c && Shape(areas, c) && Tagged(m, areas, c) && Run(areas, c, cand, cand + c[cand].size)
    requires MIN_ALLOC <= size <= c[cand].size - MIN_ALLOC && size % ALIGN == 0
    requires cand in m && cand + size in m && cand + c[cand].size in m
    requires m1 == SetSizeFree(m, cand + size, c[cand].size - size)
    requires SameTags(m1, m2) && m3 == SetSizeInUse(m2, cand, size)
    ensures Tagged(m3, areas, Splice(c, cand, cand + c[cand].size, size, true, false))
  {
    hide Shape, Tagged;
    var e := cand + c[cand].size;
    var w := SetSizeInUse(m1, cand, size);
    assert TagsWritten(m, w, cand, e, size, true, false);
    SpliceTagged(m, w, areas, c, cand, e, size, true, false);
    TaggedFrame(w, m3, areas, Splice(c, cand, e, size, true, false));
  }

  lemma SplitBinned(m2: Mem, m3: Mem, blocks2: seq<nat>, c: Chunks, c': Chunks, rings: seq<seq<int>>,
                    rings2: seq<seq<int>>, cand: int, size: int, k: nat)
    requires cand in c && c' == Splice(c, cand, cand + c[cand].size, size, true, false)
    requires 0 < size <= c[cand].size - MIN_ALLOC
    requires Binned(c', rings, {cand + size}) && BinsOk(m2, blocks2, rings2)
    requires var i := BinIndex(c[cand].size - size);
      k <= |rings[i]| && rings2 == rings[i := Inserted(rings[i], k, cand + size)]
    requires cand in m2 && cand + size in m2 && m3 == SetSizeInUse(m2, cand, size)
    ensures Binned(c', rings2, {}) && BinsOk(m3, blocks2, rings2)
  {
    hide BinIndex, BinIndex2;
    var rem := cand + size;
    BinnedLink(c', rings, {rem}, k, rem);
    assert {rem} - {rem} == {};
    forall i: nat, x | i < NUM_BINS && x in rings2[i] && x in m2 && x in m3
      ensures m3[x].size == m2[x].size
    {
      assert FreeIn(c', {}, x);
    }
    BinsFrame(m2, m3, blocks2, rings2);
  }

  /** The headers a carving writes are mapped, and the candidate's tag gives its size. */
  lemma CarveReady(m: Mem, blocks: seq<nat>, list: seq<int>, areas: Areas, c: Chunks, rings: seq<seq<int>>, cand: int,
                   size: int)
    requires Unsettled(m, blocks, list, areas, c, rings, cand)
    requires (size == 0 || 0 <= size <= c[cand].size) && size % ALIGN == 0
    ensures cand in m && cand + size in m && cand + c[cand].size in m
    ensures SizeBits(m[cand].size) == c[cand].size
    ensures cand in c && |rings| == NUM_BINS
  {
    hide BinIndex, BinIndex2, BinsOk, Coalesced, Mapped;
    UnlinkedRun(m, blocks, list, areas, c, rings, cand);
    RunMapped(m, areas, c, cand, cand + c[cand].size, size);
    assert ChunkTags(m, cand, c[cand]);
    TagRead(c[cand].size, c[cand].inUse);
  }

  /** Linking the remainder writes headers of free chunks only. */
  lemma LinkFrame(m: Mem, m1: Mem, m2: Mem, blocks: seq<nat>, list: seq<int>, areas: Areas, c: Chunks,
                  rings: seq<seq<int>>,
                  cand: int, i: nat, rem: int)
    requires Unsettled(m, blocks, list, areas, c, rings, cand) && i < NUM_BINS
    requires SameTags(m1, m2)
    requires forall y :: y in m1 && y != rem && y != BinHead(i) && y !in rings[i] ==> m2[y] == m1[y]
    ensures Frame(m1, m2, c.Keys + {rem})
  {
    hide BinIndex, BinIndex2, BinsOk, Coalesced, Mapped, Shape, Tagged;
    assert forall y :: y in rings[i] ==> FreeIn(c, {cand}, y);
  }

  lemma LinkKeys(m: Mem, m': Mem)
    requires SameTags(m, m')
    ensures m'.Keys == m.Keys
  {
  }

  // ---------- the effect of Alloc ----------

  /** The effect of a successful Alloc: the block p is carved either from a best fit among the free chunks
      or, when none fits, from a new area of n bytes. Every other live block keeps its payload. */
  ghost predicate AllocEffect(p: int, size: int, n: int, m: Mem, c: Chunks, areas: Areas, m': Mem, c': Chunks,
                              areas': Areas) {
    && Evolves(m, c, m', c', {}, {p})
    && p in c' && size <= c'[p].size < size + MIN_ALLOC
    && if NoFit(c, size) then
        && p !in areas && p !in c && areas' == areas[p := n]
        && c' == Splice(AddedChunks(c, p, n), p, p + n, CarvedSize(n, size), true, false)
      else
        && BestFit(c, size, p) && areas' == areas
        && c' == Splice(c, p, p + c[p].size, CarvedSize(c[p].size, size), true, false)
  }

  lemma FitExists(c: Chunks, size: int, p: int)
    requires BestFit(c, size, p)
    ensures !NoFit(c, size)
  {
  }

  lemma EvolvesTrans(m: Mem, c: Chunks, m': Mem, c': Chunks, m'': Mem, c'': Chunks, born: set<int>)
    requires Evolves(m, c, m', c', {}, {}) && Evolves(m', c', m'', c'', {}, born)
    ensures Evolves(m, c, m'', c'', {}, born)
  {
    forall q | q in c && c[q].inUse && q !in {}
      ensures Kept(m, c, m'', c'', q)
    {
      assert Kept(m, c, m', c', q) && Kept(m', c', m'', c'', q);
    }
  }

  lemma FitEffect(p: int, size: int, n: int, m: Mem, m1: Mem, areas: Areas, c: Chunks, m': Mem, c': Chunks)
    requires Shape(areas, c) && BestFit(c, size, p) && Frame(m, m1, c.Keys) && CarveEffect(p, size, m1, c, m', c')
    ensures AllocEffect(p, size, n, m, c, areas, m', c', areas)
  {
    hide Shape, Evolves;
    FitExists(c, size, p);
    FrameEvolves(m, m1, m', areas, c, c', {}, {p});
  }

  /** Carving the whole chunk, when what is left over could not stand as a chunk. */
  lemma CarveExact(cand: int, size: int, m: Mem, c: Chunks, m': Mem, c': Chunks)
    requires cand in c && CarveEffect(cand, c[cand].size, m, c, m', c') && size <= c[cand].size < size + MIN_ALLOC
    ensures CarveEffect(cand, size, m, c, m', c')
  {
    hide Evolves, Splice;
    assert c'[cand].size == c[cand].size by { WholeSize(c, cand); }
  }

  lemma WholeSize(c: Chunks, cand: int)
    requires cand in c
    ensures var c' := Splice(c, cand, cand + c[cand].size, c[cand].size, true, false);
      cand in c' && c'[cand].size == c[cand].size
  {
  }

  /** What Alloc does with a chunk that only the wrapped test takes for large enough: the whole chunk, too
      small for the request, is handed out. */
  ghost predicate ShortChange(p: int, size: int, m: Mem, c: Chunks, m': Mem, c': Chunks) {
    && p in c && !c[p].inUse && c[p].size < size
    && c' == Splice(c, p, p + c[p].size, c[p].size, true, false)
    && Evolves(m, c, m', c', {}, {p})
  }

  lemma ShortChanged(p: int, size: int, m: Mem, m1: Mem, areas: Areas, c: Chunks, m': Mem, c': Chunks)
    requires Shape(areas, c) && p in c && !c[p].inUse && c[p].size < size
    requires Frame(m, m1, c.Keys) && CarveEffect(p, c[p].size, m1, c, m', c')
    ensures ShortChange(p, size, m, c, m', c')
  {
    hide Shape, Evolves;
    FrameEvolves(m, m1, m', areas, c, c', {}, {p});
  }

  lemma GrowEffect(p: int, size: int, n: int, m: Mem, c: Chunks, areas: Areas, m1: Mem, c1: Chunks, areas1: Areas,
                   m': Mem, c': Chunks)
    requires NoFit(c, size) && Grown(m, c, areas, m1, c1, areas1, p, n) && CarveEffect(p, size, m1, c1, m', c')
    ensures AllocEffect(p, size, n, m, c, areas, m', c', areas1)
  {
    hide Evolves, Splice;
    EvolvesTrans(m, c, m1, c1, m', c', {p});
  }

  /** Ready to link the remainder of a split that is too short; it may be the end marker itself. */
  lemma ShortReady(m: Mem, m1: Mem, blocks: seq<nat>, list: seq<int>, areas: Areas, c: Chunks, rings: seq<seq<int>>,
                   cand: int, size: int)
    requires Unsettled(m, blocks, list, areas, c, rings, cand)
    requires MIN_ALLOC <= size <= c[cand].size < size + MIN_ALLOC && size % ALIGN == 0
    requires cand + size in m && cand + c[cand].size in m
    requires m1 == SetSizeFree(m, cand + size, c[cand].size - size)
    ensures BinsOk(m1, blocks, rings) && m1[cand + size].size == c[cand].size - size
    ensures Member(m1, BinIndex(c[cand].size - size), cand + size)
    ensures cand + size !in rings[BinIndex(c[cand].size - size)]
  {
    hide BinIndex, BinIndex2, Marked;
    UnlinkedRun(m, blocks, list, areas, c, rings, cand);
    var rem, i := cand + size, BinIndex(c[cand].size - size);
    assert ChunkOk(areas, cand, c[cand]);
    forall j: nat, x | j < NUM_BINS && x in rings[j]
      ensures x in m && m1[x].size == m[x].size && (x == rem ==> m[x].size >= MIN_ALLOC)
    {
      assert FreeIn(c, {cand}, x);
      assert ChunkTags(m, x, c[x]) && ChunkOk(areas, x, c[x]);
    }
    BinsFrame(m, m1, blocks, rings);
    assert m1[rem].size < MIN_ALLOC;
  }

  /** Ready to link a whole chunk as the remainder of a cut of no bytes. */
  lemma ZeroReady(m: Mem, m1: Mem, blocks: seq<nat>, list: seq<int>, areas: Areas, c: Chunks, rings: seq<seq<int>>,
                  cand: int)
    requires Unsettled(m, blocks, list, areas, c, rings, cand)
    requires cand in m && cand + c[cand].size in m && m1 == SetSizeFree(m, cand, c[cand].size)
    ensures BinsOk(m1, blocks, rings) && m1[cand].size == c[cand].size >= MIN_ALLOC
    ensures Member(m1, BinIndex(c[cand].size), cand) && cand !in rings[BinIndex(c[cand].size)]
  {
    hide BinIndex, BinIndex2, Marked;
    UnlinkedRun(m, blocks, list, areas, c, rings, cand);
    assert ChunkOk(areas, cand, c[cand]);
    forall j: nat, x | j < NUM_BINS && x in rings[j]
      ensures x in m && x != cand && m1[x].size == m[x].size
    {
      assert FreeIn(c, {cand}, x);
      assert ChunkTags(m, x, c[x]) && ChunkOk(areas, x, c[x]);
    }
    BinsFrame(m, m1, blocks, rings);
  }

  /** A chunk that is linked in a bin but whose tag does not give a free chunk's size: no view of the pool
      satisfies the invariant. */
  lemma BadMember(m: Mem, blocks: seq<nat>, list: seq<int>, areas: Areas, i: nat, s: seq<int>, x: int,
                  c: Chunks, rings: seq<seq<int>>)
    requires i < NUM_BINS && Ring(m, BinHead(i), s) && x in s && x in m && m[x].size < MIN_ALLOC
    ensures !PoolInv(m, blocks, list, areas, c, rings)
  {
    hide BinIndex, BinIndex2, Marked;
    if PoolInv(m, blocks, list, areas, c, rings) {
      assert BinOk(m, i, rings[i]);
      RingUnique(m, BinHead(i), s, rings[i]);
      assert FreeIn(c, {}, x);
      FreeIsMember(m, areas, c, rings, {}, x);
    }
  }

  lemma StaysLinked(m: Mem, m': Mem, blocks: seq<nat>, rings: seq<seq<int>>, i: nat, x: int)
    requires BinsOk(m, blocks, rings) && i < NUM_BINS && x in rings[i]
    requires forall y :: y in m ==> SameLinks(m, m', y)
    ensures Ring(m', BinHead(i), rings[i]) && x in m'
  {
    hide BinIndex, BinIndex2, Marked;
    assert BinOk(m, i, rings[i]) && Member(m, i, x);
    assert forall y :: y in rings[i] ==> Member(m, i, y);
    RingFrame(m, m', BinHead(i), rings[i]);
  }

  /** After the first chunk of an area comes the end marker or a chunk of at least the minimum size. */
  lemma AfterFirst(m: Mem, areas: Areas, c: Chunks, a: int)
    requires Shape(areas, c) && Tagged(m, areas, c) && a in areas
    ensures a in m && a + SizeBits(m[a].size) in m
    ensures var next := m[a + SizeBits(m[a].size)].size; next == 1 || next >= MIN_ALLOC
  {
    assert a in c && ChunkTags(m, a, c[a]) && OnGrid(a, c[a].size);
    TagRead(c[a].size, c[a].inUse);
    NextOf(m, areas, c, a);
    var e := a + c[a].size;
    if e in c { assert ChunkOk(areas, e, c[e]); }
  }

  /** Cutting a new area at `size` bytes when less than a minimum chunk is left: either the end marker is
      overwritten, or a free chunk smaller than the minimum appears. Either way no view of the pool
      satisfies the invariant. */
  lemma ShortSplitBreaks(m: Mem, blocks: seq<nat>, list: seq<int>, areas: Areas, a: int, size: int, c: Chunks,
                         rings: seq<seq<int>>)
    requires a in areas && a in m && a + size in m && 0 <= areas[a] - size < MIN_ALLOC && size >= MIN_ALLOC
    requires size % ALIGN == 0
    requires m[a].size == size + 1 && m[a + size].size == areas[a] - size
    ensures !PoolInv(m, blocks, list, areas, c, rings)
  {
    hide BinIndex, BinIndex2, BinsOk;
    TagRead(size, true);
    if PoolInv(m, blocks, list, areas, c, rings) {
      assert OnGrid(a, areas[a]);
      AfterFirst(m, areas, c, a);
    }
  }
}

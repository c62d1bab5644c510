/** The invariant of an allocation pool and the lemmas by which its operations keep it. */
module PoolState {
  import opened Bins
  import opened BinBlocks
  import opened Rings
  import opened Layout
  import opened FreeLists

  // ---------- free chunks and bins ----------

  /** x is a free chunk, not one of those taken out of the bins for the moment. */
  ghost predicate FreeIn(c: Chunks, limbo: set<int>, x: int) {
    x in c && !c[x].inUse && x !in limbo
  }

  ghost predicate InBin(c: Chunks, rings: seq<seq<int>>, p: int) {
    |rings| == NUM_BINS && p in c && c[p].size >= 0 && p in rings[BinIndex(c[p].size)]
  }

  /** The bins hold exactly the free chunks, each in the bin of its size; `limbo` holds the chunks
      an operation has unlinked and not yet linked again. */
  ghost predicate Binned(c: Chunks, rings: seq<seq<int>>, limbo: set<int>) {
    && |rings| == NUM_BINS
    && (forall i: nat, x {:trigger x in rings[i]} :: i < NUM_BINS && x in rings[i] ==> FreeIn(c, limbo, x))
    && (forall p {:trigger InBin(c, rings, p)} :: FreeIn(c, limbo, p) ==> InBin(c, rings, p))
  }

  /** mAreas lists the areas once each. */
  ghost predicate AreaList(list: seq<int>, areas: Areas) {
    && NoDup(list)
    && (forall a :: a in list <==> a in areas)
  }

  /** The full invariant: tiling, boundary tags, coalescing, bins and bitmap agree. */
  ghost predicate PoolInv(m: Mem, blocks: seq<nat>, list: seq<int>, areas: Areas, c: Chunks, rings: seq<seq<int>>) {
    && Shape(areas, c) && Coalesced(c) && Tagged(m, areas, c) && Mapped(m, areas)
    && BinsOk(m, blocks, rings) && Binned(c, rings, {})
    && AreaList(list, areas)
  }

  // ---------- frames ----------

  /** Only the bin heads, below FIRST_ADDRESS, and the header lines in hs may have changed. */
  ghost predicate Frame(m: Mem, m': Mem, hs: set<int>) {
    && m'.Keys == m.Keys
    && forall y :: y in m && y >= FIRST_ADDRESS && y !in hs ==> m'[y] == m[y]
  }

  // ---------- binning ----------

  lemma BinnedUnlink(m: Mem, blocks: seq<nat>, c: Chunks, rings: seq<seq<int>>, limbo: set<int>, i: nat, k: nat)
    requires BinsOk(m, blocks, rings) && Binned(c, rings, limbo) && i < NUM_BINS && k < |rings[i]|
    ensures Binned(c, rings[i := Removed(rings[i], k)], limbo + {rings[i][k]})
  {
    var s := rings[i];
    var x := s[k];
    var rings' := rings[i := Removed(s, k)];
    var limbo' := limbo + {x};
    assert BinOk(m, i, s) && x in rings[i];
    forall j: nat, y | j < NUM_BINS && y in rings'[j]
      ensures FreeIn(c, limbo', y)
    {
      assert y in rings[j];
      if j == i {
        assert y != x;
      } else if y == x {
        assert BinOk(m, j, rings[j]) && Member(m, i, x);
        OneBin(m, i, j, rings[j], x);
      }
    }
    forall p | FreeIn(c, limbo', p)
      ensures InBin(c, rings', p)
    {
      assert InBin(c, rings, p);
    }
  }

  lemma BinnedLink(c: Chunks, rings: seq<seq<int>>, limbo: set<int>, k: nat, x: int)
    requires Binned(c, rings, limbo) && x in c && !c[x].inUse && c[x].size >= 0
    requires k <= |rings[BinIndex(c[x].size)]|
    ensures var i := BinIndex(c[x].size); Binned(c, rings[i := Inserted(rings[i], k, x)], limbo - {x})
  {
    var i := BinIndex(c[x].size);
    var s := rings[i];
    var rings' := rings[i := Inserted(s, k, x)];
    forall j: nat, y | j < NUM_BINS && y in rings'[j]
      ensures FreeIn(c, limbo - {x}, y)
    {
      if y != x { assert y in rings[j]; }
    }
    forall p | FreeIn(c, limbo - {x}, p)
      ensures InBin(c, rings', p)
    {
      if p != x { assert InBin(c, rings, p); }
    }
  }

  /** The free chunks a splice leaves in the run. */
  ghost function NewFree(a: int, e: int, s: int, u1: bool, u2: bool): set<int> {
    (if u1 then {} else {a}) + (if a + s == e || u2 then {} else {a + s})
  }

  /** A splice of a run whose free chunks are all unlinked leaves the bins as they are; the new free
      chunks are the ones to link. */
  lemma BinnedSplice(c: Chunks, rings: seq<seq<int>>, limbo: set<int>, a: int, e: int, s: int, u1: bool, u2: bool)
    requires Binned(c, rings, limbo) && a in c && SpliceSize(a, e, s)
    requires forall p :: p in limbo ==> a <= p < e
    requires forall p :: p in c && a <= p < e && !c[p].inUse ==> p in limbo
    ensures Binned(Splice(c, a, e, s, u1, u2), rings, NewFree(a, e, s, u1, u2))
  {
    var c' := Splice(c, a, e, s, u1, u2);
    var limbo' := NewFree(a, e, s, u1, u2);
    forall i: nat, x | i < NUM_BINS && x in rings[i]
      ensures FreeIn(c', limbo', x)
    {
      assert FreeIn(c, limbo, x);
    }
    forall p | FreeIn(c', limbo', p)
      ensures InBin(c', rings, p)
    {
      assert FreeIn(c, limbo, p);
      assert InBin(c, rings, p);
    }
  }

  /** A free chunk that is in the bins is linked there in memory. */
  lemma FreeIsMember(m: Mem, areas: Areas, c: Chunks, rings: seq<seq<int>>, limbo: set<int>, x: int)
    requires Shape(areas, c) && Tagged(m, areas, c) && Binned(c, rings, limbo) && FreeIn(c, limbo, x)
    ensures x in m && m[x].size == c[x].size && c[x].size >= MIN_ALLOC && x in rings[BinIndex(c[x].size)]
  {
    assert ChunkTags(m, x, c[x]) && ChunkOk(areas, x, c[x]) && InBin(c, rings, x);
  }

  // ---------- tags ----------

  function SetSizeFree(m: Mem, p: int, size: int): Mem
    requires p in m && p + size in m
  {
    var m1 := m[p + size := m[p + size].(prevSize := size)];
    m1[p := m1[p].(size := size)]
  }

  function SetSizeInUse(m: Mem, p: int, size: int): Mem
    requires p in m && p + size in m
  {
    var m1 := m[p + size := m[p + size].(prevSize := size + 1)];
    m1[p := m1[p].(size := size + 1)]
  }

  function SetNeighborsInUse(m: Mem, p: int, offset: int): Mem
    requires p in m && p + offset in m
  {
    var m1 := m[p + offset := m[p + offset].(size := 1)];
    m1[p := m1[p].(prevSize := 1)]
  }

  /** Tag writes keep all list links, and bins whose members' sizes they do not touch. */
  lemma BinsFrame(m: Mem, m': Mem, blocks: seq<nat>, rings: seq<seq<int>>)
    requires BinsOk(m, blocks, rings)
    requires forall x :: x in m ==> SameLinks(m, m', x)
    requires forall i: nat, x {:trigger x in rings[i]} :: i < NUM_BINS && x in rings[i] && x in m && x in m' ==>
      m'[x].size == m[x].size
    ensures BinsOk(m', blocks, rings)
  {
    forall i: nat | i < NUM_BINS
      ensures BinOk(m', i, rings[i])
    {
      assert BinOk(m, i, rings[i]);
      BinFrame(m, m', i, rings[i]);
    }
  }

  // ---------- coalescing neighbours ----------

  /** Where the free space to the left of chunk p begins: at the free chunk just before it, if any. */
  ghost function FreeLeft(c: Chunks, p: int): int {
    if exists q :: q in c && !c[q].inUse && q + c[q].size == p
    then var q :| q in c && !c[q].inUse && q + c[q].size == p; q
    else p
  }

  /** Where the free space to the right of chunk p ends. */
  ghost function FreeRight(c: Chunks, p: int): int
    requires p in c
  {
    var e := p + c[p].size;
    if e in c && !c[e].inUse then e + c[e].size else e
  }

  lemma LeftOf(m: Mem, areas: Areas, c: Chunks, p: int)
    requires Shape(areas, c) && Tagged(m, areas, c) && p in c
    ensures p in m
    ensures InUseBit(m[p].prevSize) <==> FreeLeft(c, p) == p
    ensures !InUseBit(m[p].prevSize) ==>
      FreeLeft(c, p) == PrevOf(m, p) < p && PrevOf(m, p) in c && !c[PrevOf(m, p)].inUse &&
      PrevOf(m, p) + c[PrevOf(m, p)].size == p && c[PrevOf(m, p)].area == c[p].area
  {
    PrevTag(m, areas, c, p);
    assert ChunkOk(areas, p, c[p]);
    if p in areas {
      forall q | q in c && q + c[q].size == p
        ensures false
      {
        assert ChunkOk(areas, q, c[q]);
        SameArea(areas, c[q].area, p, p);
      }
    } else {
      var q := PrevOf(m, p);
      assert ChunkOk(areas, q, c[q]) && OnGrid(q, c[q].size);
      TagRead(c[q].size, c[q].inUse);
      forall r | r in c && r + c[r].size == p
        ensures r == q
      {
        PrevUnique(areas, c, q, r);
      }
    }
  }

  /** The run made of chunk p and its free neighbours, of which none touches another free chunk. */
  lemma FreeRun(m: Mem, areas: Areas, c: Chunks, p: int)
    requires Shape(areas, c) && Coalesced(c) && Tagged(m, areas, c) && p in c
    ensures var lo, hi := FreeLeft(c, p), FreeRight(c, p);
      && Run(areas, c, lo, hi) && lo <= p < hi && c[lo].area == c[p].area
      && SpliceSize(lo, hi, hi - lo) && (hi - lo) % ALIGN == 0
      && (c[p].inUse ==> forall q :: q in c && q + c[q].size == lo ==> c[q].inUse)
      && (c[p].inUse && hi in c ==> c[hi].inUse)
      && (forall q :: q in c && lo <= q < hi ==> q == lo || q == p || q == p + c[p].size)
  {
    var lo, hi := FreeLeft(c, p), FreeRight(c, p);
    LeftOf(m, areas, c, p);
    NextOf(m, areas, c, p);
    var e := p + c[p].size;
    assert ChunkOk(areas, p, c[p]) && NextOk(areas, c, p);
    if e in c {
      assert ChunkOk(areas, e, c[e]) && NextOk(areas, c, e);
    }
    assert ChunkOk(areas, lo, c[lo]);
    assert hi <= End(areas, c[p].area);
    assert Boundary(areas, c, c[p].area, hi);
    RunArea(areas, c, lo, hi);
    RunAligned(areas, c, lo, hi);
    forall q | q in c && lo <= q < hi
      ensures q == lo || q == p || q == e
    {
      assert Apart(c, lo, q) && Apart(c, p, q) && Apart(c, q, p) && Apart(c, e, q) && Apart(c, q, lo);
      if e in c { assert Apart(c, q, e); }
    }
    if c[p].inUse {
      forall q | q in c && q + c[q].size == lo
        ensures c[q].inUse
      {
        if lo == p && !c[q].inUse { assert false; }
      }
    }
  }

  // ---------- one splice, all views ----------

  lemma TaggedFrame(m: Mem, m': Mem, areas: Areas, c: Chunks)
    requires Tagged(m, areas, c) && SameTags(m, m')
    ensures Tagged(m', areas, c)
  {
    forall p | p in c
      ensures ChunkTags(m', p, c[p]) && HasPrev(m', areas, c, p)
    {
      assert ChunkTags(m, p, c[p]) && HasPrev(m, areas, c, p);
    }
    forall a | a in areas
      ensures AreaTags(m', a, End(areas, a))
    {
      assert AreaTags(m, a, End(areas, a));
    }
  }

  /** Writing the tags of a splice of a run whose free chunks are unlinked. */
  lemma SpliceStep(m: Mem, m': Mem, blocks: seq<nat>, areas: Areas, c: Chunks, rings: seq<seq<int>>, limbo: set<int>,
                   a: int, e: int, s: int, u1: bool, u2: bool)
    requires Shape(areas, c) && Tagged(m, areas, c) && BinsOk(m, blocks, rings) && Binned(c, rings, limbo)
    requires Run(areas, c, a, e) && SpliceSize(a, e, s) && s % ALIGN == 0
    requires TagsWritten(m, m', a, e, s, u1, u2) && forall x :: x in m ==> SameLinks(m, m', x)
    requires forall p :: p in limbo ==> a <= p < e
    requires forall p :: p in c && a <= p < e && !c[p].inUse ==> p in limbo
    ensures var c' := Splice(c, a, e, s, u1, u2);
      && Shape(areas, c') && Tagged(m', areas, c') && BinsOk(m', blocks, rings)
      && Binned(c', rings, NewFree(a, e, s, u1, u2))
  {
    SpliceAligned(areas, c, a, e, s, u1, u2);
    SpliceTiled(areas, c, a, e, s, u1, u2);
    SpliceTagged(m, m', areas, c, a, e, s, u1, u2);
    BinnedSplice(c, rings, limbo, a, e, s, u1, u2);
    forall i: nat, x | i < NUM_BINS && x in rings[i] && x in m && x in m'
      ensures m'[x].size == m[x].size
    {
      assert FreeIn(c, limbo, x);
    }
    BinsFrame(m, m', blocks, rings);
  }

  /** The lines at the ends of a run are mapped, and so is every grid point inside it. */
  lemma RunMapped(m: Mem, areas: Areas, c: Chunks, a: int, e: int, s: int)
    requires Shape(areas, c) && Mapped(m, areas) && Run(areas, c, a, e) && 0 <= s <= e - a && s % ALIGN == 0
    ensures a in m && a + s in m && e in m
    ensures a >= FIRST_ADDRESS + HEADER
  {
    RunArea(areas, c, a, e);
    RunAligned(areas, c, a, e);
    var area := c[a].area;
    GridLine(a, s);
    GridLine(a, e - a);
    GridLine(a, 0);
    assert area - HEADER <= a + s <= End(areas, area);
  }

  lemma GridLine(a: int, s: int)
    requires a % ALIGN == HEADER && s % ALIGN == 0
    ensures (a + s) % HEADER == 0
  {
  }

  /** The free neighbours of p: what Free unlinks before it merges. */
  ghost function FreeNeighbours(c: Chunks, p: int): set<int>
    requires p in c
  {
    set q | q in {FreeLeft(c, p), p + c[p].size} && q in c && !c[q].inUse
  }

  lemma NeighboursInRun(areas: Areas, c: Chunks, p: int)
    requires Tiled(areas, c) && p in c
    ensures forall q :: q in FreeNeighbours(c, p) ==> FreeLeft(c, p) <= q < FreeRight(c, p)
  {
    assert ChunkOk(areas, p, c[p]);
    var lo, hi, e := FreeLeft(c, p), FreeRight(c, p), p + c[p].size;
    assert lo <= p by {
      if lo != p { assert lo in c && ChunkOk(areas, lo, c[lo]); }
    }
    if e in c { assert ChunkOk(areas, e, c[e]); }
    assert p < e <= hi;
    assert e in c && !c[e].inUse ==> e < hi;
  }

  /** Writing one free header over a chunk being freed and its unlinked free neighbours. */
  lemma MergeStep(m: Mem, m': Mem, blocks: seq<nat>, areas: Areas, c: Chunks, c': Chunks, rings: seq<seq<int>>,
                  p: int, lo: int, hi: int)
    requires p in c && c[p].inUse && lo == FreeLeft(c, p) && hi == FreeRight(c, p)
    requires lo in c && c' == Splice(c, lo, hi, hi - lo, false, false)
    requires lo in m && hi in m && m' == SetSizeFree(m, lo, hi - lo)
    requires Shape(areas, c) && Coalesced(c) && Tagged(m, areas, c)
    requires BinsOk(m, blocks, rings) && Binned(c, rings, FreeNeighbours(c, p))
    ensures Shape(areas, c') && Coalesced(c') && Tagged(m', areas, c') && BinsOk(m', blocks, rings)
    ensures Binned(c', rings, {lo})
    ensures Frame(m, m', c.Keys + {hi}) && (hi - lo) % ALIGN == 0 && hi - lo >= MIN_ALLOC
  {
    hide BinIndex, BinIndex2, BinsOk, Binned, Tagged, Tiled, Aligned, AreasOk, Coalesced;
    FreeRun(m, areas, c, p);
    var limbo := FreeNeighbours(c, p);
    NeighboursInRun(areas, c, p);
    assert TagsWritten(m, m', lo, hi, hi - lo, false, false);
    SpliceStep(m, m', blocks, areas, c, rings, limbo, lo, hi, hi - lo, false, false);
    SpliceCoalesced(areas, c, lo, hi, hi - lo, false, false);
    assert NewFree(lo, hi, hi - lo, false, false) == {lo};
  }

  /** A free chunk that is not linked may be linked: its bin does not hold it. */
  lemma LinkReady(m: Mem, areas: Areas, c: Chunks, rings: seq<seq<int>>, limbo: set<int>, x: int)
    requires Shape(areas, c) && Tagged(m, areas, c) && Binned(c, rings, limbo)
    requires x in c && !c[x].inUse && x in limbo
    ensures x in m && m[x].size == c[x].size >= MIN_ALLOC && Member(m, BinIndex(c[x].size), x)
    ensures x !in rings[BinIndex(c[x].size)]
  {
    hide BinIndex, BinIndex2;
    assert ChunkTags(m, x, c[x]) && ChunkOk(areas, x, c[x]) && OnGrid(x, c[x].size);
    var i := BinIndex(c[x].size);
    assert x in rings[i] ==> FreeIn(c, limbo, x);
  }

  /** `IsArea`: the tags show whether one chunk fills its whole area. */
  lemma WholeArea(m: Mem, areas: Areas, c: Chunks, p: int)
    requires Shape(areas, c) && Tagged(m, areas, c) && p in c
    ensures p in m && p + c[p].size in m
    ensures m[p].prevSize == 1 && m[p + c[p].size].size == 1 <==> p in areas && c[p].size == areas[p]
  {
    PrevTag(m, areas, c, p);
    NextOf(m, areas, c, p);
    if p in areas {
      var e := p + c[p].size;
      if e in c && e == End(areas, p) {
        assert ChunkOk(areas, e, c[e]);
        SameArea(areas, c[e].area, p, e);
      }
    }
  }

  // ---------- areas leaving and entering the pool ----------

  function Unmap(m: Mem, lo: int, hi: int): Mem {
    map x | x in m && !(lo <= x < hi) :: m[x]
  }

  /** Address range of an area with its header and end marker. */
  ghost predicate InsideArea(areas: Areas, a: int, x: int)
    requires a in areas
  {
    a - HEADER <= x <= End(areas, a)
  }

  /** Chunks of one area lie outside the address range of another. */
  lemma OtherArea(areas: Areas, c: Chunks, a: int, p: int)
    requires Shape(areas, c) && a in areas && p in c && c[p].area != a
    ensures !InsideArea(areas, a, p) && !InsideArea(areas, a, p + c[p].size)
  {
    assert ChunkOk(areas, p, c[p]) && AreasApart(areas, a, c[p].area) && AreasApart(areas, c[p].area, a);
  }

  lemma DropAreaShape(areas: Areas, c: Chunks, a: int)
    requires Shape(areas, c) && Coalesced(c) && a in areas && a in c && c[a].size == areas[a]
    ensures Shape(areas - {a}, c - {a}) && Coalesced(c - {a})
    ensures forall p :: p in c && p != a ==> c[p].area != a
  {
    var areas', c' := areas - {a}, c - {a};
    assert ChunkOk(areas, a, c[a]);
    SameArea(areas, a, c[a].area, a);
    forall p | p in c && p != a
      ensures c[p].area != a
    {
      assert ChunkOk(areas, p, c[p]) && Apart(c, a, p);
    }
    forall p | p in c'
      ensures ChunkOk(areas', p, c'[p]) && NextOk(areas', c', p) && OnGrid(p, c'[p].size)
    {
      assert ChunkOk(areas, p, c[p]) && NextOk(areas, c, p) && OnGrid(p, c[p].size);
      assert c[p].area != a && c[a].area == a;
    }
    forall p, q | p in c' && q in c'
      ensures Apart(c', p, q)
    {
      assert Apart(c, p, q);
    }
    forall b, d | b in areas' && d in areas'
      ensures AreasApart(areas', b, d)
    {
      assert AreasApart(areas, b, d);
    }
    forall b | b in areas'
      ensures OnGrid(b, areas'[b])
    {
      assert OnGrid(b, areas[b]);
    }
  }

  lemma DropAreaTagged(m: Mem, areas: Areas, c: Chunks, a: int)
    requires Shape(areas, c) && Tagged(m, areas, c) && a in areas && a in c
    requires forall p :: p in c && p != a ==> c[p].area != a
    ensures Tagged(Unmap(m, a - HEADER, End(areas, a) + 1), areas - {a}, c - {a})
  {
    var areas', c' := areas - {a}, c - {a};
    var m' := Unmap(m, a - HEADER, End(areas, a) + 1);
    assert ChunkOk(areas, a, c[a]);
    SameArea(areas, a, c[a].area, a);
    forall p | p in c'
      ensures ChunkTags(m', p, c'[p]) && HasPrev(m', areas', c', p)
    {
      OtherArea(areas, c, a, p);
      assert ChunkTags(m, p, c[p]);
      PrevTag(m, areas, c, p);
    }
    forall b | b in areas'
      ensures AreaTags(m', b, End(areas', b))
    {
      assert AreaTags(m, b, End(areas, b)) && AreasApart(areas, a, b) && AreasApart(areas, b, a);
    }
  }

  lemma UnmapBins(m: Mem, blocks: seq<nat>, areas: Areas, c: Chunks, rings: seq<seq<int>>, a: int)
    requires Shape(areas, c) && BinsOk(m, blocks, rings) && Binned(c, rings, {a}) && a in areas
    requires forall p :: p in c && p != a ==> c[p].area != a
    ensures BinsOk(Unmap(m, a - HEADER, End(areas, a) + 1), blocks, rings)
  {
    hide BinIndex, BinIndex2, Marked;
    var m' := Unmap(m, a - HEADER, End(areas, a) + 1);
    forall i: nat | i < NUM_BINS
      ensures BinOk(m', i, rings[i])
    {
      assert BinOk(m, i, rings[i]);
      forall x | x in rings[i]
        ensures x in m && SameLinks(m, m', x) && m'[x].size == m[x].size
      {
        assert FreeIn(c, {a}, x);
        OtherArea(areas, c, a, x);
      }
      BinFrame(m, m', i, rings[i]);
    }
  }

  /** Giving back an area whose single chunk is free and unlinked. */
  lemma DropArea(m: Mem, blocks: seq<nat>, list: seq<int>, k: nat, areas: Areas, c: Chunks, rings: seq<seq<int>>,
                 a: int)
    requires Shape(areas, c) && Coalesced(c) && Tagged(m, areas, c) && Mapped(m, areas)
    requires BinsOk(m, blocks, rings) && Binned(c, rings, {a})
    requires a in areas && a in c && c[a].size == areas[a]
    requires AreaList(list, areas) && k < |list| && list[k] == a
    ensures PoolInv(Unmap(m, a - HEADER, End(areas, a) + 1), blocks, list[k + 1..] + list[..k], areas - {a}, c - {a},
                    rings)
  {
    MappedDrop(m, areas, a);
    RotateOut(list, k);
    hide BinsOk, Tagged, Coalesced, Shape, BinIndex, BinIndex2;
    DropAreaShape(areas, c, a);
    DropAreaTagged(m, areas, c, a);
    UnmapBins(m, blocks, areas, c, rings, a);
    var areas', c' := areas - {a}, c - {a};
    assert Binned(c', rings, {}) by {
      forall i: nat, x | i < NUM_BINS && x in rings[i]
        ensures FreeIn(c', {}, x)
      {
        assert FreeIn(c, {a}, x);
      }
      forall p | FreeIn(c', {}, p)
        ensures InBin(c', rings, p)
      {
        assert FreeIn(c, {a}, p) && InBin(c, rings, p);
      }
    }
    assert AreaList(list[k + 1..] + list[..k], areas');
  }

  /** Unlinking an area and entering the ring at its successor. */
  lemma RotateOut(list: seq<int>, k: nat)
    requires NoDup(list) && k < |list|
    ensures NoDup(list[k + 1..] + list[..k])
    ensures forall b {:trigger b in list} :: b in list[k + 1..] + list[..k] <==> b in list && b != list[k]
  {
    var l, r := list[..k], list[k + 1..];
    assert list == l + [list[k]] + r;
    NoDupCat(r, l);
  }

  lemma MappedDrop(m: Mem, areas: Areas, a: int)
    requires AreasOk(areas) && Mapped(m, areas) && a in areas
    ensures Mapped(Unmap(m, a - HEADER, End(areas, a) + 1), areas - {a})
  {
    var m' := Unmap(m, a - HEADER, End(areas, a) + 1);
    forall b, x | b in areas && b != a && b - HEADER <= x <= End(areas, b) && x % HEADER == 0
      ensures x in m'
    {
      assert AreasApart(areas, a, b) && AreasApart(areas, b, a);
      assert b in areas && x in m;
    }
  }

  // ---------- what a client sees ----------

  /** The payload lines of a block of n bytes at q are the same in m' as in m. */
  ghost predicate SamePayload(m: Mem, m': Mem, q: int, n: int) {
    forall y :: y in m && q < y < q + n ==> y in m' && m'[y] == m[y]
  }

  /** The live block q keeps its place, its size and its payload. */
  ghost predicate Kept(m: Mem, c: Chunks, m': Mem, c': Chunks, q: int) {
    q in c && q in c' && c'[q] == c[q] && SamePayload(m, m', q, c[q].size)
  }

  /** From the client's point of view: exactly the blocks in `gone` died and those in `born` came to
      life, and every other live block kept its place, its size and its payload. */
  ghost predicate Evolves(m: Mem, c: Chunks, m': Mem, c': Chunks, gone: set<int>, born: set<int>) {
    && (forall q {:trigger Kept(m, c, m', c', q)} :: q in c && c[q].inUse && q !in gone ==> Kept(m, c, m', c', q))
    && (forall q :: q in c' && c'[q].inUse ==> q in born || (q in c && c[q].inUse && q !in gone))
    && (forall q :: q in born ==> q in c' && c'[q].inUse)
  }

  /** Header lines are never payload: writes confined to the headers of old and new chunks and to the
      boundary e keep the payload of every block outside the run. */
  lemma FrameKeeps(m: Mem, m': Mem, areas: Areas, c: Chunks, c': Chunks, a: int, e: int, s: int, u1: bool, u2: bool,
                   q: int)
    requires Shape(areas, c) && Run(areas, c, a, e) && c' == Splice(c, a, e, s, u1, u2) && Shape(areas, c')
    requires SpliceSize(a, e, s) && Frame(m, m', c.Keys + c'.Keys + {e})
    requires q in c && !(a <= q < e)
    ensures Kept(m, c, m', c', q)
  {
    assert ChunkOk(areas, q, c[q]);
    forall y | y in m && q < y < q + c[q].size
      ensures y in m' && m'[y] == m[y]
    {
      if y in c { NotInside(areas, c, y, q); }
      if y in c' { NotInside(areas, c', y, q); }
      if y == e && e !in c { SameArea(areas, c[a].area, c[q].area, e); }
    }
  }

  /** The client's view of Free. */
  lemma FreeEvolves(m: Mem, m': Mem, areas: Areas, c: Chunks, c': Chunks, p: int, lo: int, hi: int)
    requires Shape(areas, c) && Run(areas, c, lo, hi) && lo <= p < hi && p in c
    requires forall q :: q in c && lo <= q < hi && q != p ==> !c[q].inUse
    requires c' == Splice(c, lo, hi, hi - lo, false, false) && Shape(areas, c')
    requires SpliceSize(lo, hi, hi - lo) && Frame(m, m', c.Keys + {hi})
    ensures Evolves(m, c, m', c', {p}, {})
  {
    forall q | q in c && c[q].inUse && q !in {p}
      ensures Kept(m, c, m', c', q)
    {
      FrameKeeps(m, m', areas, c, c', lo, hi, hi - lo, false, false, q);
    }
  }

  /** Giving back an area touches no live block. */
  lemma UnmapEvolves(m: Mem, m': Mem, areas: Areas, c: Chunks, c': Chunks, a: int, gone: set<int>)
    requires Shape(areas, c') && a in areas && a in c' && !c'[a].inUse
    requires forall p :: p in c' && p != a ==> c'[p].area != a
    requires Evolves(m, c, m', c', gone, {})
    ensures Evolves(m, c, Unmap(m', a - HEADER, End(areas, a) + 1), c' - {a}, gone, {})
  {
    var m'' := Unmap(m', a - HEADER, End(areas, a) + 1);
    forall q | q in c && c[q].inUse && q !in gone
      ensures Kept(m, c, m'', c' - {a}, q)
    {
      assert Kept(m, c, m', c', q);
      assert ChunkOk(areas, q, c'[q]) && AreasApart(areas, a, c'[q].area) && AreasApart(areas, c'[q].area, a);
    }
  }

  /** A free chunk lo of c that is in no bin, everything else in order. */
  ghost predicate Unsettled(m: Mem, blocks: seq<nat>, list: seq<int>, areas: Areas, c: Chunks, rings: seq<seq<int>>,
                            lo: int) {
    && Shape(areas, c) && Coalesced(c) && Tagged(m, areas, c) && Mapped(m, areas)
    && BinsOk(m, blocks, rings) && Binned(c, rings, {lo})
    && AreaList(list, areas) && lo in c && !c[lo].inUse
  }

  /** The free neighbours of p have been taken out of the bins. */
  ghost predicate Gathered(m: Mem, m': Mem, blocks: seq<nat>, rings: seq<seq<int>>, c: Chunks, p: int)
    requires p in c
  {
    SameTags(m, m') && Frame(m, m', c.Keys) && BinsOk(m', blocks, rings) && Binned(c, rings, FreeNeighbours(c, p))
  }

  /** p and its free neighbours have become one free chunk. */
  ghost predicate Merged(m: Mem, c: Chunks, m': Mem, c': Chunks, areas: Areas, p: int)
    requires p in c
  {
    var lo, hi := FreeLeft(c, p), FreeRight(c, p);
    && lo in c && c' == Splice(c, lo, hi, hi - lo, false, false)
    && Frame(m, m', c.Keys + {hi}) && Shape(areas, c') && Coalesced(c')
  }

  lemma FreeMerge(m0: Mem, blocks0: seq<nat>, rings0: seq<seq<int>>, m1: Mem, blocks: seq<nat>, rings: seq<seq<int>>,
                  list: seq<int>, areas: Areas, c: Chunks, p: int, lo: int, hi: int)
    requires PoolInv(m0, blocks0, list, areas, c, rings0) && p in c && c[p].inUse
    requires Gathered(m0, m1, blocks, rings, c, p)
    requires lo == FreeLeft(c, p) && hi == FreeRight(c, p)
    ensures lo in c && lo in m1 && hi in m1
    ensures var m2, c2 := SetSizeFree(m1, lo, hi - lo), Splice(c, lo, hi, hi - lo, false, false);
      Unsettled(m2, blocks, list, areas, c2, rings, lo) && Merged(m0, c, m2, c2, areas, p)
  {
    hide BinsOk, Tagged, Binned, Shape, Coalesced, BinIndex, BinIndex2;
    FreeRun(m0, areas, c, p);
    RunMapped(m0, areas, c, lo, hi, 0);
    var m2, c2 := SetSizeFree(m1, lo, hi - lo), Splice(c, lo, hi, hi - lo, false, false);
    TaggedFrame(m0, m1, areas, c);
    MergeStep(m1, m2, blocks, areas, c, c2, rings, p, lo, hi);
    assert Mapped(m2, areas);
  }

  /** Whether freeing p leaves its whole area free in a growable pool, which then gives the area back. */
  ghost predicate GivesBack(growable: bool, c: Chunks, areas: Areas, p: int)
    requires p in c
  {
    growable && FreeLeft(c, p) in areas && FreeRight(c, p) == End(areas, FreeLeft(c, p))
  }

  /** The effect of Free: the block and its free neighbours become one free chunk, unless that chunk is
      a whole area of a growable pool, which leaves with it. Every other live block is untouched. */
  ghost predicate FreeEffect(growable: bool, p: int, m: Mem, c: Chunks, areas: Areas, m': Mem, c': Chunks,
                             areas': Areas) {
    && p in c
    && Evolves(m, c, m', c', {p}, {})
    && var lo, hi := FreeLeft(c, p), FreeRight(c, p);
      lo in c &&
      var merged := Splice(c, lo, hi, hi - lo, false, false);
      if GivesBack(growable, c, areas, p) then
        && c' == merged - {lo} && areas' == areas - {lo}
        && forall x :: lo - HEADER <= x <= End(areas, lo) ==> x !in m'
      else
        c' == merged && areas' == areas && Frame(m, m', c.Keys + {hi})
  }

  /** The effect of the last step of Free on a free chunk lo that is in no bin. */
  ghost predicate Settled(growable: bool, lo: int, m: Mem, c: Chunks, areas: Areas, m': Mem, c': Chunks,
                          areas': Areas) {
    lo in c &&
    if growable && lo in areas && c[lo].size == areas[lo] then
      c' == c - {lo} && areas' == areas - {lo} && m' == Unmap(m, lo - HEADER, End(areas, lo) + 1)
    else
      c' == c && areas' == areas && Frame(m, m', c.Keys)
  }

  lemma FreeOutcome(growable: bool, blocks0: seq<nat>, rings0: seq<seq<int>>, list0: seq<int>,
                    m0: Mem, m2: Mem, m3: Mem, areas: Areas, areas3: Areas, c: Chunks, c2: Chunks, c3: Chunks, p: int)
    requires PoolInv(m0, blocks0, list0, areas, c, rings0) && p in c && c[p].inUse
    requires Merged(m0, c, m2, c2, areas, p)
    requires Settled(growable, FreeLeft(c, p), m2, c2, areas, m3, c3, areas3)
    ensures FreeEffect(growable, p, m0, c, areas, m3, c3, areas3)
  {
    hide Shape, Coalesced, Tagged, BinIndex, BinIndex2, BinsOk, Binned, Mapped, AreaList, Evolves;
    var lo, hi := FreeLeft(c, p), FreeRight(c, p);
    FreeRun(m0, areas, c, p);
    FreeNeighboursFree(m0, areas, c, p);
    if GivesBack(growable, c, areas, p) {
      FreeEvolves(m0, m2, areas, c, c2, p, lo, hi);
      DropAreaShape(areas, c2, lo);
      UnmapEvolves(m0, m2, areas, c, c2, lo, {p});
    } else {
      LinkingFrame(m0, m2, m3, c, c2, lo, hi);
      FreeEvolves(m0, m3, areas, c, c2, p, lo, hi);
    }
  }

  lemma LinkingFrame(m0: Mem, m2: Mem, m3: Mem, c: Chunks, c2: Chunks, lo: int, hi: int)
    requires lo in c && c2 == Splice(c, lo, hi, hi - lo, false, false)
    requires Frame(m0, m2, c.Keys + {hi}) && Frame(m2, m3, c2.Keys)
    ensures Frame(m0, m3, c.Keys + {hi})
  {
  }

  lemma FreeNeighboursFree(m: Mem, areas: Areas, c: Chunks, p: int)
    requires Shape(areas, c) && Coalesced(c) && Tagged(m, areas, c) && p in c && c[p].inUse
    ensures forall q :: q in c && FreeLeft(c, p) <= q < FreeRight(c, p) && q != p ==> !c[q].inUse
  {
    FreeRun(m, areas, c, p);
    LeftOf(m, areas, c, p);
  }

  /** p is the only live block of its area. */
  ghost predicate LastInArea(c: Chunks, p: int)
    requires p in c
  {
    forall q :: q in c && q != p && c[q].area == c[p].area ==> !c[q].inUse
  }

  /** Freeing a block leaves its area free exactly when there is no other live block in it. */
  lemma LastLive(growable: bool, m: Mem, areas: Areas, c: Chunks, p: int)
    requires Shape(areas, c) && Coalesced(c) && Tagged(m, areas, c) && p in c && c[p].inUse
    ensures GivesBack(growable, c, areas, p) <==> growable && LastInArea(c, p)
    ensures GivesBack(growable, c, areas, p) ==> FreeLeft(c, p) == c[p].area
  {
    hide FreeLeft, FreeRight, Coalesced;
    var lo, hi, a := FreeLeft(c, p), FreeRight(c, p), c[p].area;
    FreeRun(m, areas, c, p);
    PrevTag(m, areas, c, lo);
    if lo in areas && hi == End(areas, lo) {
      FreeNeighboursFree(m, areas, c, p);
      forall q | q in c && q != p && c[q].area == a
        ensures !c[q].inUse
      {
        assert ChunkOk(areas, q, c[q]);
      }
    } else if lo !in areas {
      var q := PrevOf(m, lo);
      assert ChunkOk(areas, q, c[q]);
      assert q != p && c[q].area == a && c[q].inUse;
    } else {
      assert hi in c && hi != p && c[hi].area == a && c[hi].inUse;
    }
  }

  /** Live blocks see nothing of writes to the headers of chunks. */
  lemma FrameEvolves(m: Mem, m': Mem, m'': Mem, areas: Areas, c: Chunks, c'': Chunks, gone: set<int>, born: set<int>)
    requires Shape(areas, c) && Frame(m, m', c.Keys) && Evolves(m', c, m'', c'', gone, born)
    ensures Evolves(m, c, m'', c'', gone, born)
  {
    forall q | q in c && c[q].inUse && q !in gone
      ensures Kept(m, c, m'', c'', q)
    {
      assert Kept(m', c, m'', c'', q);
      FramePayload(m, m', areas, c, q);
    }
  }

  lemma FramePayload(m: Mem, m': Mem, areas: Areas, c: Chunks, q: int)
    requires Shape(areas, c) && Frame(m, m', c.Keys) && q in c
    ensures SamePayload(m, m', q, c[q].size)
  {
    assert ChunkOk(areas, q, c[q]);
    forall y | y in m && q < y < q + c[q].size
      ensures y in m' && m'[y] == m[y]
    {
      if y in c { NotInside(areas, c, y, q); }
    }
  }
}

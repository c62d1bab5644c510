/** Facts about a valid pool that the methods of `AllocPool` use. */
module PoolLemmas {
  import opened Bits
  import opened Bins
  import opened BinBlocks
  import opened Rings
  import opened Layout
  import opened FreeLists
  import opened PoolState
  import opened Carving
  import opened Searching
  import opened Resizing
  import opened Resetting

  /** The chunk after p, as Realloc reads it. */
  lemma NextProbe(m: Mem, areas: Areas, c: Chunks, p: int)
    requires Shape(areas, c) && Tagged(m, areas, c) && p in c
    ensures p + c[p].size in m
    ensures var e := p + c[p].size;
      FreeRight(c, p) == e + (if InUseBit(m[e].size) then 0 else SizeBits(m[e].size))
    ensures var e := p + c[p].size; !InUseBit(m[e].size) ==> SizeBits(m[e].size) >= MIN_ALLOC
  {
    hide SizeBits;
    NextOf(m, areas, c, p);
    var e := p + c[p].size;
    if e in c { ChunkSize(m, areas, c, e); }
  }

  /** The ring of a bin, for a traversal from its tail. */
  lemma RingOfBin(m: Mem, blocks: seq<nat>, areas: Areas, c: Chunks, rings: seq<seq<int>>, i: nat)
    requires BinsOk(m, blocks, rings) && Binned(c, rings, {}) && Shape(areas, c) && Tagged(m, areas, c) && i < NUM_BINS
    ensures Ring(m, BinHead(i), rings[i]) && NoDup(rings[i])
    ensures forall x :: x in rings[i] ==> x != BinHead(i) && x in m
    ensures forall x :: x in rings[i] && x in c && c[x].size >= 0 ==> BinIndex(c[x].size) == i
  {
    hide BinIndex, BinIndex2;
    assert BinOk(m, i, rings[i]);
    forall x | x in rings[i]
      ensures x in m && x in c && c[x].size >= 0 && BinIndex(c[x].size) == i
    {
      assert Member(m, i, x);
      MemberSize(m, areas, c, rings, i, x);
    }
  }

  lemma SizeOfMember(m: Mem, areas: Areas, c: Chunks, rings: seq<seq<int>>, i: nat, x: int)
    requires Shape(areas, c) && Tagged(m, areas, c) && Binned(c, rings, {}) && i < NUM_BINS && x in rings[i]
    ensures x in m && x in c && SizeBits(m[x].size) == c[x].size
  {
    MemberSize(m, areas, c, rings, i, x);
    AlignedBits(m[x].size);
  }

  lemma HeadsOk(m: Mem, blocks: seq<nat>, rings: seq<seq<int>>)
    requires BinsOk(m, blocks, rings)
    ensures HeadsMapped(m)
  {
    forall i: nat | i < NUM_BINS
      ensures BinHead(i) in m
    {
      assert BinOk(m, i, rings[i]);
    }
  }

  lemma MappedKeys(m: Mem, m': Mem, areas: Areas)
    requires Mapped(m, areas) && m'.Keys == m.Keys
    ensures Mapped(m', areas)
  {
  }

  lemma NothingFormatted(m: Mem, areas: Areas, list: seq<int>)
    ensures Formatted(m, areas, list, 0, NoRings())
  {
  }

  lemma AreaStartMapped(m: Mem, list: seq<int>, areas: Areas, c: Chunks, i: nat)
    requires Shape(areas, c) && Mapped(m, areas) && AreaList(list, areas) && i < |list|
    ensures list[i] in areas && areas[list[i]] >= MIN_ALLOC && list[i] in m && list[i] + areas[list[i]] in m
  {
    var a := list[i];
    assert a in list && OnGrid(a, areas[a]);
    GridLine(a, 0);
    GridLine(a, areas[a]);
  }

  lemma FormatOrder(m: Mem, a: int, n: int)
    requires a in m && a + n in m
    ensures SetNeighborsInUse(SetSizeFree(m, a, n), a, n).Keys == m.Keys
  {
  }

  lemma FreeEvolved(growable: bool, p: int, m: Mem, c: Chunks, areas: Areas, m': Mem, c': Chunks, areas': Areas)
    requires FreeEffect(growable, p, m, c, areas, m', c', areas')
    ensures Evolves(m, c, m', c', {p}, {})
  {
  }

  lemma BlockGrid(areas: Areas, c: Chunks, p: int)
    requires Shape(areas, c) && p in c
    ensures p % ALIGN == HEADER && c[p].size >= MIN_ALLOC && p >= FIRST_ADDRESS
  {
    assert OnGrid(p, c[p].size) && ChunkOk(areas, p, c[p]);
  }

  lemma StartsClean(m: Mem, blocks: seq<nat>, list: seq<int>, areas: Areas, c: Chunks, rings: seq<seq<int>>)
    requires PoolInv(m, blocks, list, areas, c, rings)
    ensures BinsOk(m, blocks, rings) && Binned(c, rings, {})
  {
  }

  /** A free chunk after p is linked. */
  lemma NextIsFree(m: Mem, blocks: seq<nat>, list: seq<int>, areas: Areas, c: Chunks, rings: seq<seq<int>>, p: int)
    requires PoolInv(m, blocks, list, areas, c, rings) && p in c && FreeRight(c, p) != p + c[p].size
    ensures var x := p + c[p].size;
      && FreeIn(c, {}, x) && x in m && m[x].size == c[x].size >= 0 && |rings| == NUM_BINS
      && x in rings[BinIndex(m[x].size)]
      && BinsOk(m, blocks, rings) && Binned(c, rings, {})
  {
    hide BinIndex, BinIndex2, BinsOk, Shape, Tagged, Coalesced;
    FreeIsMember(m, areas, c, rings, {}, p + c[p].size);
  }

  /** The block Alloc returns to Realloc is new, and it is not the free chunk before p. */
  lemma NewBlock(q: int, size: int, n: int, m: Mem, c: Chunks, areas: Areas, m': Mem, c': Chunks, areas': Areas, p: int)
    requires AllocEffect(q, size, n, m, c, areas, m', c', areas') && Shape(areas, c) && p in c && c[p].inUse
    requires FreeRight(c, p) - FreeLeft(c, p) < size
    ensures Evolves(m, c, m', c', {}, {q}) && q in c' && size <= c'[q].size < size + MIN_ALLOC
    ensures q != p && !(q in c && c[q].inUse)
    ensures !(q == FreeLeft(c, p) && q < p && SplitsOff(q, FreeRight(c, p), size))
  {
    hide Evolves, BinIndex, BinIndex2, FreeLeft, FreeRight;
    if !NoFit(c, size) && q == FreeLeft(c, p) {
      RightEnd(areas, c, p);
    }
  }

  /** No block and its free neighbours make up 2^31 bytes. */
  lemma RunBelow(m: Mem, areas: Areas, c: Chunks, p: int)
    requires Shape(areas, c) && Coalesced(c) && Tagged(m, areas, c) && p in c
    ensures FreeRight(c, p) - FreeLeft(c, p) < INT31 && c[p].size < INT31
  {
    hide FreeLeft, FreeRight;
    FreeRun(m, areas, c, p);
    var lo, hi := FreeLeft(c, p), FreeRight(c, p);
    assert ChunkOk(areas, p, c[p]) && ChunkOk(areas, lo, c[lo]);
  }

  /** A live block retagged as a free chunk of size 0 can be linked in bin 0. */
  lemma ZeroLinkReady(m: Mem, m': Mem, blocks: seq<nat>, list: seq<int>, areas: Areas, c: Chunks,
                      rings: seq<seq<int>>, p: int)
    requires PoolInv(m, blocks, list, areas, c, rings) && p in c && c[p].inUse
    requires forall x :: x in m ==> SameLinks(m, m', x) && (x != p ==> m'[x].size == m[x].size)
    requires p in m' && m'[p].size == 0
    ensures BinIndex(0) == 0 && |rings| == NUM_BINS
    ensures BinsOk(m', blocks, rings) && Member(m', 0, p) && p !in rings[0]
  {
    hide BinIndex2, Marked, Shape, Tagged, Coalesced;
    BlockGrid(areas, c, p);
    forall i: nat, x | i < NUM_BINS && x in rings[i] && x in m && x in m'
      ensures m'[x].size == m[x].size
    {
      assert FreeIn(c, {}, x);
    }
    BinsFrame(m, m', blocks, rings);
    assert p in rings[0] ==> FreeIn(c, {}, p);
  }

  lemma SplitLive(c: Chunks, lo: int, hi: int, size: int)
    requires lo in c && lo + size != hi
    ensures var c' := Splice(c, lo, hi, size, true, true); lo + size in c' && c'[lo + size].inUse
  {
  }

  lemma InvShape(m: Mem, blocks: seq<nat>, list: seq<int>, areas: Areas, c: Chunks, rings: seq<seq<int>>)
    requires PoolInv(m, blocks, list, areas, c, rings)
    ensures Shape(areas, c)
  {
  }

  /** The size read from a chunk's tag. */
  lemma ChunkSize(m: Mem, areas: Areas, c: Chunks, p: int)
    requires Shape(areas, c) && Tagged(m, areas, c) && p in c
    ensures p in m && SizeBits(m[p].size) == c[p].size >= MIN_ALLOC
    ensures p !in areas ==> PrevOf(m, p) in c && SizeBits(m[p].prevSize) == c[PrevOf(m, p)].size
  {
    assert ChunkTags(m, p, c[p]) && OnGrid(p, c[p].size) && ChunkOk(areas, p, c[p]);
    TagRead(c[p].size, c[p].inUse);
    PrevTag(m, areas, c, p);
  }

  /** The search of LinkFree: along mNext past every chunk larger than `size`. */
  method InsertionPoint(m: Mem, index: nat, size: int, ghost s: seq<int>) returns (link: int, ghost k: nat)
    requires BinOk(m, index, s)
    ensures k <= |s| && link == At(BinHead(index), s, k)
    ensures forall j :: 0 <= j < k && s[j] in m ==> m[s[j]].size >= size
    ensures forall j :: k <= j < |s| && s[j] in m ==> m[s[j]].size <= size
  {
    hide BinIndex, BinIndex2, SizeBits;
    var bin := BinHead(index);
    link, k := m[bin].next, 0;
    while link != bin && size < SizeBits(m[link].size)
      invariant 0 <= k <= |s| && link == At(bin, s, k)
      invariant forall j :: 0 <= j < k ==> s[j] in m && m[s[j]].size >= size
      decreases |s| - k
    {
      assert link in s && Member(m, index, link);
      AlignedBits(m[link].size);
      AtLinks(m, bin, s, k + 1);
      link := m[link].next;
      k := k + 1;
    }
    if k < |s| {
      assert s[k] in s && Member(m, index, s[k]);
      AlignedBits(m[s[k]].size);
    }
  }

  lemma AlignedBits(w: int)
    requires w % ALIGN == 0
    ensures SizeBits(w) == w && !InUseBit(w)
  {
  }

  /** In a small bin, and in an empty one, a new member can go anywhere. */
  lemma SmallBinEqual(m: Mem, i: nat, s: seq<int>, x: int)
    requires BinOk(m, i, s) && Member(m, i, x) && (i < NUM_SMALL_BINS || m[BinHead(i)].next == BinHead(i))
    ensures forall j :: 0 <= j < |s| && s[j] in m ==> m[s[j]].size == m[x].size
  {
    forall j | 0 <= j < |s| && s[j] in m
      ensures m[s[j]].size == m[x].size
    {
      assert s[0] in s && s[j] in s && Member(m, i, s[j]);
      SmallBinExact(m[s[j]].size, m[x].size);
    }
  }

  lemma BinsWords(m: Mem, blocks: seq<nat>, rings: seq<seq<int>>)
    requires BinsOk(m, blocks, rings)
    ensures Words(blocks) && |rings| == NUM_BINS
  {
  }

  /** A free chunk marks its bin, so some word of the bitmap is not zero. */
  lemma SomeWord(m: Mem, blocks: seq<nat>, areas: Areas, c: Chunks, rings: seq<seq<int>>)
    requires BinsOk(m, blocks, rings) && Binned(c, rings, {}) && Shape(areas, c) && Tagged(m, areas, c)
    requires exists p :: p in c && !c[p].inUse
    ensures Words(blocks) && exists w :: 0 <= w < 4 && blocks[w] != 0
  {
    hide BinIndex, BinIndex2;
    var p :| p in c && !c[p].inUse;
    FreeIsMember(m, areas, c, rings, {}, p);
    var i := BinIndex(c[p].size);
    assert Marked(blocks, i);
    if blocks[i / 32] == 0 { NoHighBit(0, 0, i % 32); }
  }

  /** The bin LargestFreeChunk picks: marked, with no marked bin above it. */
  lemma HighestMarked(m: Mem, blocks: seq<nat>, areas: Areas, c: Chunks, rings: seq<seq<int>>, word: nat)
    requires BinsOk(m, blocks, rings) && word < 4 && blocks[word] != 0 && forall j :: word < j < 4 ==> blocks[j] == 0
    ensures 0 < BitLength(blocks[word]) <= 32
    ensures var index := word * 32 + BitLength(blocks[word]) - 1; index < NUM_BINS && rings[index] != []
    ensures forall j: nat {:trigger rings[j]} :: word * 32 + BitLength(blocks[word]) <= j < NUM_BINS ==> rings[j] == []
  {
    var bits := blocks[word];
    var b := BitLength(bits);
    HighestBit(bits);
    if b > 32 { NoHighBit(bits, 32, b - 1); }
    MarkedAt(blocks, word, b - 1);
    assert Marked(blocks, word * 32 + b - 1);
    forall j: nat | word * 32 + b <= j < NUM_BINS
      ensures rings[j] == []
    {
      if j < word * 32 + 32 {
        MarkedAt(blocks, word, j - 32 * word);
      } else {
        assert blocks[j / 32] == 0;
        NoHighBit(0, 0, j % 32);
      }
      assert !Marked(blocks, j);
    }
  }

  lemma LargestInTopBin(m: Mem, areas: Areas, c: Chunks, rings: seq<seq<int>>, index: nat, maxsize: int)
    requires Shape(areas, c) && Tagged(m, areas, c) && Binned(c, rings, {}) && index < NUM_BINS && rings[index] != []
    requires forall j: nat {:trigger rings[j]} :: index < j < NUM_BINS ==> rings[j] == []
    requires forall j :: 0 <= j < |rings[index]| ==> rings[index][j] in c && c[rings[index][j]].size <= maxsize
    requires forall x :: x in rings[index] && x in c && c[x].size >= 0 ==> BinIndex(c[x].size) == index
    ensures forall p :: p in c && !c[p].inUse ==> c[p].size <= maxsize
  {
    hide BinIndex, BinIndex2;
    var x := rings[index][0];
    assert x in rings[index];
    MemberSize(m, areas, c, rings, index, x);
    forall p | p in c && !c[p].inUse
      ensures c[p].size <= maxsize
    {
      FreeIsMember(m, areas, c, rings, {}, p);
      var i := BinIndex(c[p].size);
      if i == index {
        var j :| 0 <= j < |rings[i]| && rings[i][j] == p;
      } else if c[p].size > c[x].size {
        BinIndexMonotone(c[x].size, c[p].size);
      }
    }
  }

  lemma FreedAreas(growable: bool, p: int, m: Mem, c: Chunks, areas: Areas, m': Mem, c': Chunks, areas': Areas)
    requires FreeEffect(growable, p, m, c, areas, m', c', areas')
    ensures areas' == if GivesBack(growable, c, areas, p) then areas - {FreeLeft(c, p)} else areas
  {
  }
}

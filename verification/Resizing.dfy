/** Realloc: growing a block into its free neighbours, cutting off what is too much, and moving the
    payload when the block moves. */
module Resizing {
  import opened Bins
  import opened BinBlocks
  import opened Rings
  import opened Layout
  import opened FreeLists
  import opened PoolState

  // ---------- payload moves ----------

  /** memmove or memcpy of the payload of a chunk of n bytes at src to the chunk at dst. */
  function MovePayload(m: Mem, dst: int, src: int, n: int): Mem {
    map x {:trigger x in m} | x in m :: if dst < x < dst + n && x - dst + src in m then m[x - dst + src] else m[x]
  }

  /** The payload lines of n bytes at q in m' are those at p in m, except for the one found at `hole`. */
  ghost predicate Copied(m: Mem, p: int, m': Mem, q: int, n: int, hole: int) {
    forall y {:trigger y in m} :: y in m && y % HEADER == 0 && p < y < p + n && y != hole ==>
      y - p + q in m' && m'[y - p + q] == m[y]
  }

  /** Every line strictly inside a chunk is mapped. */
  lemma InsideMapped(m: Mem, areas: Areas, c: Chunks, q: int, y: int)
    requires Shape(areas, c) && Mapped(m, areas) && q in c && q < y < q + c[q].size && y % HEADER == 0
    ensures y in m
  {
    assert ChunkOk(areas, q, c[q]);
    assert c[q].area in areas && c[q].area - HEADER <= y <= End(areas, c[q].area);
  }

  lemma GridShift(p: int, q: int, y: int)
    requires p % ALIGN == HEADER && q % ALIGN == HEADER && y % HEADER == 0
    ensures (y - p + q) % HEADER == 0
  {
    var k := y / HEADER - 2 * (p / ALIGN) + 2 * (q / ALIGN);
    assert y - p + q == HEADER * k;
  }

  /** Moving n bytes of payload into a block at least that large. */
  lemma MoveCopies(m: Mem, areas: Areas, c: Chunks, dst: int, src: int, n: int)
    requires Shape(areas, c) && Mapped(m, areas) && dst in c && n <= c[dst].size && src % ALIGN == HEADER
    ensures Copied(m, src, MovePayload(m, dst, src, n), dst, n, src)
    ensures MovePayload(m, dst, src, n).Keys == m.Keys
    ensures forall x :: x in m && !(dst < x < dst + n) ==> MovePayload(m, dst, src, n)[x] == m[x]
  {
    hide Shape, Mapped;
    var m' := MovePayload(m, dst, src, n);
    assert OnGrid(dst, c[dst].size) by { ShapeGrid(areas, c, dst); }
    forall y | y in m && y % HEADER == 0 && src < y < src + n && y != src
      ensures y - src + dst in m' && m'[y - src + dst] == m[y]
    {
      GridShift(src, dst, y);
      InsideMapped(m, areas, c, dst, y - src + dst);
    }
  }

  lemma ShapeGrid(areas: Areas, c: Chunks, p: int)
    requires Shape(areas, c) && p in c
    ensures OnGrid(p, c[p].size) && c[p].size > 0
  {
    assert ChunkOk(areas, p, c[p]);
  }

  /** Writing inside the payload of one live block keeps the invariant and all other blocks. */
  lemma PayloadWrite(m: Mem, m': Mem, blocks: seq<nat>, list: seq<int>, areas: Areas, c: Chunks, rings: seq<seq<int>>,
                     q: int)
    requires PoolInv(m, blocks, list, areas, c, rings) && q in c && c[q].inUse
    requires m'.Keys == m.Keys && forall x :: x in m && !(q < x < q + c[q].size) ==> m'[x] == m[x]
    ensures PoolInv(m', blocks, list, areas, c, rings)
    ensures forall r :: r in c && r != q ==> SamePayload(m, m', r, c[r].size)
  {
    hide BinIndex, BinIndex2, Coalesced, AreaList, Tagged, BinsOk, Binned;
    PayloadWriteTags(m, m', areas, c, q);
    PayloadWriteBins(m, m', blocks, areas, c, rings, q);
    forall r | r in c && r != q
      ensures SamePayload(m, m', r, c[r].size)
    {
      assert Apart(c, r, q) && Apart(c, q, r);
    }
  }

  lemma PayloadWriteTags(m: Mem, m': Mem, areas: Areas, c: Chunks, q: int)
    requires Shape(areas, c) && Tagged(m, areas, c) && q in c
    requires m'.Keys == m.Keys && forall x :: x in m && !(q < x < q + c[q].size) ==> m'[x] == m[x]
    ensures Tagged(m', areas, c)
  {
    forall p | p in c
      ensures ChunkTags(m', p, c[p]) && HasPrev(m', areas, c, p)
    {
      assert ChunkTags(m, p, c[p]) && HasPrev(m, areas, c, p);
      NotInside(areas, c, p, q);
      EndNotInside(areas, c, p, q);
    }
    forall a | a in areas
      ensures AreaTags(m', a, End(areas, a))
    {
      assert AreaTags(m, a, End(areas, a));
      NotInside(areas, c, a, q);
      AreaEndNotInside(areas, c, a, q);
    }
  }

  lemma EndNotInside(areas: Areas, c: Chunks, p: int, q: int)
    requires Tiled(areas, c) && p in c && q in c
    ensures !(q < p + c[p].size < q + c[q].size)
  {
    assert Apart(c, p, q) && Apart(c, q, p) && ChunkOk(areas, p, c[p]);
  }

  lemma AreaEndNotInside(areas: Areas, c: Chunks, a: int, q: int)
    requires AreasOk(areas) && Tiled(areas, c) && a in areas && q in c
    ensures !(q < End(areas, a) < q + c[q].size)
  {
    assert ChunkOk(areas, q, c[q]);
    if q < End(areas, a) < q + c[q].size { SameArea(areas, a, c[q].area, End(areas, a)); }
  }

  lemma PayloadWriteBins(m: Mem, m': Mem, blocks: seq<nat>, areas: Areas, c: Chunks, rings: seq<seq<int>>, q: int)
    requires Shape(areas, c) && Binned(c, rings, {}) && BinsOk(m, blocks, rings) && q in c
    requires m'.Keys == m.Keys && forall x :: x in m && !(q < x < q + c[q].size) ==> m'[x] == m[x]
    ensures BinsOk(m', blocks, rings)
  {
    hide BinIndex, BinIndex2, Marked;
    assert ChunkOk(areas, q, c[q]);
    forall i: nat | i < NUM_BINS
      ensures BinOk(m', i, rings[i])
    {
      assert BinOk(m, i, rings[i]);
      forall x | x in rings[i]
        ensures x in m && SameLinks(m, m', x) && m'[x].size == m[x].size
      {
        assert FreeIn(c, {}, x) && Member(m, i, x);
        NotInside(areas, c, x, q);
      }
      BinFrame(m, m', i, rings[i]);
    }
  }

  // ---------- resizing a run ----------

  ghost function FreeInRun(c: Chunks, lo: int, hi: int): set<int> {
    set q | q in c && lo <= q < hi && !c[q].inUse
  }

  /** [lo, hi) is the block p with some of its free neighbours, which are unlinked. */
  ghost predicate Ready(m: Mem, blocks: seq<nat>, list: seq<int>, areas: Areas, c: Chunks, rings: seq<seq<int>>,
                        p: int, lo: int, hi: int) {
    && Shape(areas, c) && Coalesced(c) && Tagged(m, areas, c) && Mapped(m, areas)
    && BinsOk(m, blocks, rings) && Binned(c, rings, FreeInRun(c, lo, hi)) && AreaList(list, areas)
    && Run(areas, c, lo, hi) && p in c && c[p].inUse && lo <= p && p + c[p].size <= hi
    && (forall q :: q in c && lo <= q < hi && q != p ==> !c[q].inUse)
  }

  lemma FreeInRunIs(m: Mem, areas: Areas, c: Chunks, p: int, lo: int, hi: int)
    requires Shape(areas, c) && Coalesced(c) && Tagged(m, areas, c) && p in c && c[p].inUse
    requires lo == p || lo == FreeLeft(c, p)
    requires hi == p + c[p].size || hi == FreeRight(c, p)
    ensures Run(areas, c, lo, hi) && lo <= p && p + c[p].size <= hi
    ensures forall q :: q in c && lo <= q < hi && q != p ==> !c[q].inUse
    ensures var e := p + c[p].size;
      FreeInRun(c, lo, hi) == (if lo != p then {lo} else {}) + (if hi != e then {e} else {})
  {
    var lo', hi', e := FreeLeft(c, p), FreeRight(c, p), p + c[p].size;
    LeftOf(m, areas, c, p);
    FreeRun(m, areas, c, p);
    assert ChunkOk(areas, p, c[p]) && NextOk(areas, c, p);
    if e in c { assert ChunkOk(areas, e, c[e]); }
    assert forall q :: q in c && lo' <= q < hi' ==> q == lo' || q == p || q == e;
  }

  lemma MakeReady(m0: Mem, blocks0: seq<nat>, rings0: seq<seq<int>>, m: Mem, blocks: seq<nat>, rings: seq<seq<int>>,
                  list: seq<int>, areas: Areas, c: Chunks, p: int, lo: int, hi: int)
    requires PoolInv(m0, blocks0, list, areas, c, rings0) && p in c && c[p].inUse
    requires SameTags(m0, m) && BinsOk(m, blocks, rings) && Binned(c, rings, FreeInRun(c, lo, hi))
    requires lo == p || lo == FreeLeft(c, p)
    requires hi == p + c[p].size || hi == FreeRight(c, p)
    ensures Ready(m, blocks, list, areas, c, rings, p, lo, hi)
  {
    hide BinIndex, BinIndex2, BinsOk, Binned, Shape, Tagged, Coalesced;
    FreeInRunIs(m0, areas, c, p, lo, hi);
    TaggedFrame(m0, m, areas, c);
  }

  /** Tagging the run as one live block, or as two of which the second is to be freed. */
  lemma ResizeStep(m: Mem, m': Mem, blocks: seq<nat>, list: seq<int>, areas: Areas, c: Chunks, rings: seq<seq<int>>,
                   p: int, lo: int, hi: int, s: int)
    requires Ready(m, blocks, list, areas, c, rings, p, lo, hi) && SpliceSize(lo, hi, s) && s % ALIGN == 0
    requires TagsWritten(m, m', lo, hi, s, true, true) && forall x :: x in m ==> SameLinks(m, m', x)
    requires Frame(m, m', {lo, lo + s, hi})
    ensures var c' := Splice(c, lo, hi, s, true, true);
      && PoolInv(m', blocks, list, areas, c', rings)
      && Evolves(m, c, m', c', {p}, if lo + s == hi then {lo} else {lo, lo + s})
  {
    hide BinIndex, BinIndex2, BinsOk, Binned, Shape, Tagged, Coalesced;
    var c' := Splice(c, lo, hi, s, true, true);
    SpliceStep(m, m', blocks, areas, c, rings, FreeInRun(c, lo, hi), lo, hi, s, true, true);
    assert NewFree(lo, hi, s, true, true) == {};
    assert c[p].size > 0 by { ShapeGrid(areas, c, p); }
    ResizeCoalesced(m, blocks, list, areas, c, rings, p, lo, hi, s);
    forall q | q in c && c[q].inUse && q !in {p}
      ensures Kept(m, c, m', c', q)
    {
      FrameKeeps(m, m', areas, c, c', lo, hi, s, true, true, q);
    }
  }

  lemma ResizeCoalesced(m: Mem, blocks: seq<nat>, list: seq<int>, areas: Areas, c: Chunks, rings: seq<seq<int>>,
                        p: int, lo: int, hi: int, s: int)
    requires Ready(m, blocks, list, areas, c, rings, p, lo, hi) && SpliceSize(lo, hi, s)
    ensures Coalesced(Splice(c, lo, hi, s, true, true))
  {
    hide BinIndex, BinIndex2, BinsOk, Binned, Tagged, Coalesced, Tiled, Aligned, AreasOk;
    SpliceCoalesced(areas, c, lo, hi, s, true, true);
  }

  lemma ReadyMapped(m: Mem, blocks: seq<nat>, list: seq<int>, areas: Areas, c: Chunks, rings: seq<seq<int>>,
                    p: int, lo: int, hi: int, s: int)
    requires Ready(m, blocks, list, areas, c, rings, p, lo, hi) && 0 <= s <= hi - lo && s % ALIGN == 0
    ensures lo in m && lo + s in m && hi in m && (hi - lo) % ALIGN == 0 && lo in c && hi - lo >= MIN_ALLOC
    ensures lo >= FIRST_ADDRESS
  {
    hide BinIndex, BinIndex2, BinsOk, Binned, Tagged, Coalesced;
    RunMapped(m, areas, c, lo, hi, s);
    RunAligned(areas, c, lo, hi);
    RunArea(areas, c, lo, hi);
  }

  // ---------- the effect of resizing ----------

  ghost predicate SplitsOff(lo: int, hi: int, size: int) {
    hi - lo - size >= MIN_ALLOC
  }

  /** The effect of resizing the block p to the run [lo, hi): the block at lo exceeds the rounded request
      by less than the minimum chunk; a remainder becomes a free chunk that has absorbed the free chunk
      after it; no other block is touched; and of the old payload only the line that now is the header of
      the remainder is lost. */
  ghost predicate ResizeEffect(p: int, lo: int, hi: int, size: int, m: Mem, c: Chunks, m': Mem, c': Chunks) {
    && p in c && lo in c && lo in c' && m'.Keys == m.Keys
    && c'[lo].inUse && size <= c'[lo].size < size + MIN_ALLOC
    && c'[lo].size == (if SplitsOff(lo, hi, size) then size else hi - lo)
    && Evolves(m, c, m', c', {p}, {lo})
    && (forall y :: y in m && p < y < p + c[p].size && !(SplitsOff(lo, hi, size) && y == lo + size) ==> m'[y] == m[y])
    && if SplitsOff(lo, hi, size) then
        var rem := lo + size;
        var c1 := Splice(c, lo, hi, size, true, true);
        && rem in c1 && rem in c' && c' == Splice(c1, rem, FreeRight(c1, rem), FreeRight(c1, rem) - rem, false, false)
        && rem in m && m'[rem].prevSize == size + 1 && m'[rem].size == FreeRight(c1, rem) - rem
      else
        c' == Splice(c, lo, hi, hi - lo, true, true)
  }

  /** Freeing the remainder never reaches backward, and never gives the area back. */
  lemma RemainderStays(m: Mem, blocks: seq<nat>, list: seq<int>, areas: Areas, c: Chunks, rings: seq<seq<int>>,
                       lo: int, rem: int, growable: bool)
    requires PoolInv(m, blocks, list, areas, c, rings) && lo in c && rem in c && c[lo].inUse && lo + c[lo].size == rem
    ensures FreeLeft(c, rem) == rem && !GivesBack(growable, c, areas, rem)
    ensures FreeRight(c, rem) >= rem + c[rem].size && c[rem].size >= MIN_ALLOC && rem in m
    ensures m[rem].prevSize == c[lo].size + 1
  {
    hide BinIndex, BinIndex2, BinsOk, Binned, Coalesced;
    forall q | q in c && q + c[q].size == rem
      ensures q == lo
    {
      PrevUnique(areas, c, lo, q);
    }
    assert ChunkOk(areas, lo, c[lo]) && ChunkOk(areas, rem, c[rem]) && ChunkTags(m, lo, c[lo]);
    if rem in areas { SameArea(areas, rem, c[lo].area, rem); }
    var e := rem + c[rem].size;
    if e in c { assert ChunkOk(areas, e, c[e]); }
  }

  lemma SplitEffect(m: Mem, m1: Mem, m2: Mem, blocks: seq<nat>, list: seq<int>, areas: Areas, areas2: Areas,
                    blocks0: seq<nat>, rings0: seq<seq<int>>, list2: seq<int>, blocks2: seq<nat>, rings2: seq<seq<int>>,
                    c: Chunks, c1: Chunks, c2: Chunks, rings: seq<seq<int>>, p: int, lo: int, hi: int, size: int,
                    growable: bool)
    requires Ready(m, blocks0, list, areas, c, rings0, p, lo, hi) && SplitsOff(lo, hi, size) && size >= MIN_ALLOC
    requires c1 == Splice(c, lo, hi, size, true, true) && PoolInv(m1, blocks, list, areas, c1, rings)
    requires Frame(m, m1, {lo, lo + size, hi}) && Evolves(m, c, m1, c1, {p}, {lo, lo + size})
    requires lo + size in c1 && FreeEffect(growable, lo + size, m1, c1, areas, m2, c2, areas2)
    requires PoolInv(m2, blocks2, list2, areas2, c2, rings2)
    ensures ResizeEffect(p, lo, hi, size, m, c, m2, c2) && areas2 == areas
  {
    hide PoolInv, Shape, Tagged, BinIndex, BinIndex2, BinsOk;
    hide Binned, Coalesced, AreaList, Evolves, Mapped, FreeLeft, FreeRight;
    var rem := lo + size;
    RemainderStays(m1, blocks, list, areas, c1, rings, lo, rem, growable);
    FreedRemainder(growable, m1, c1, areas, m2, c2, areas2, lo, rem);
    RemainderStaysFree(m2, blocks2, list2, areas, c2, rings2, lo, rem);
    SplitOutside(m, m1, m2, areas, c, c1, p, lo, hi, size);
    SplitEvolves(m, c, m1, c1, m2, c2, p, lo, rem);
  }

  lemma FreedRemainder(growable: bool, m1: Mem, c1: Chunks, areas: Areas, m2: Mem, c2: Chunks, areas2: Areas, lo: int,
                       rem: int)
    requires FreeEffect(growable, rem, m1, c1, areas, m2, c2, areas2) && FreeLeft(c1, rem) == rem
    requires !GivesBack(growable, c1, areas, rem)
    requires lo in c1 && lo < rem && FreeRight(c1, rem) > rem
    ensures areas2 == areas && c2 == Splice(c1, rem, FreeRight(c1, rem), FreeRight(c1, rem) - rem, false, false)
    ensures Frame(m1, m2, c1.Keys + {FreeRight(c1, rem)}) && Evolves(m1, c1, m2, c2, {rem}, {})
    ensures lo in c2 && c2[lo] == c1[lo] && rem in c2 && !c2[rem].inUse && c2[rem].size == FreeRight(c1, rem) - rem
  {
    hide FreeLeft, FreeRight, Evolves, Frame;
  }

  lemma RemainderStaysFree(m: Mem, blocks: seq<nat>, list: seq<int>, areas: Areas, c: Chunks, rings: seq<seq<int>>,
                           lo: int, rem: int)
    requires PoolInv(m, blocks, list, areas, c, rings) && lo in c && rem in c && c[lo].inUse && lo + c[lo].size == rem
    requires !c[rem].inUse
    ensures rem in m && m[rem].prevSize == c[lo].size + 1 && m[rem].size == c[rem].size
  {
    hide BinIndex, BinIndex2, BinsOk, Binned, Coalesced, Shape;
    assert ChunkTags(m, lo, c[lo]) && ChunkTags(m, rem, c[rem]);
  }

  lemma SplitEvolves(m: Mem, c: Chunks, m1: Mem, c1: Chunks, m2: Mem, c2: Chunks, p: int, lo: int, rem: int)
    requires Evolves(m, c, m1, c1, {p}, {lo, rem}) && Evolves(m1, c1, m2, c2, {rem}, {}) && lo != rem
    requires rem in c ==> !c[rem].inUse || rem == p
    ensures Evolves(m, c, m2, c2, {p}, {lo})
  {
    forall q | q in c && c[q].inUse && q !in {p}
      ensures Kept(m, c, m2, c2, q)
    {
      assert Kept(m, c, m1, c1, q) && Kept(m1, c1, m2, c2, q);
    }
    assert lo in c1 && c1[lo].inUse;
    assert Kept(m1, c1, m2, c2, lo);
  }

  /** The lines of the old payload that no header overwrites. */
  lemma SplitOutside(m: Mem, m1: Mem, m2: Mem, areas: Areas, c: Chunks, c1: Chunks, p: int, lo: int, hi: int, size: int)
    requires Shape(areas, c) && p in c && lo <= p && p + c[p].size <= hi && lo in c && 0 < size < hi - lo
    requires c1 == Splice(c, lo, hi, size, true, true) && lo + size in c1 && FreeRight(c1, lo + size) >= hi
    requires Frame(m, m1, {lo, lo + size, hi}) && Frame(m1, m2, c1.Keys + {FreeRight(c1, lo + size)})
    ensures forall y :: y in m && p < y < p + c[p].size && y != lo + size ==> y in m2 && m2[y] == m[y]
  {
    assert ChunkOk(areas, p, c[p]);
    forall y | y in m && p < y < p + c[p].size && y != lo + size
      ensures y in m2 && m2[y] == m[y]
    {
      if y in c1 { NotInside(areas, c, y, p); }
    }
  }

  lemma WholeEffect(m: Mem, m1: Mem, blocks0: seq<nat>, list: seq<int>, areas: Areas, c: Chunks, rings0: seq<seq<int>>,
                    c1: Chunks, p: int, lo: int, hi: int, size: int)
    requires Ready(m, blocks0, list, areas, c, rings0, p, lo, hi) && size <= hi - lo < size + MIN_ALLOC
    requires c1 == Splice(c, lo, hi, hi - lo, true, true)
    requires Frame(m, m1, {lo, hi}) && Evolves(m, c, m1, c1, {p}, {lo})
    ensures ResizeEffect(p, lo, hi, size, m, c, m1, c1)
  {
    hide BinIndex, BinIndex2, BinsOk, Binned, Coalesced, Evolves, Tagged, Mapped;
    assert ChunkOk(areas, p, c[p]);
    forall y | y in m && p < y < p + c[p].size
      ensures m1[y] == m[y]
    {
      NotInside(areas, c, lo, p);
    }
  }

  /** Unlinking chunks beforehand does not show in the effect. */
  lemma UnlinkThenResize(m0: Mem, m: Mem, areas: Areas, p: int, lo: int, hi: int, size: int, c: Chunks, m': Mem,
                         c': Chunks)
    requires Shape(areas, c) && Frame(m0, m, c.Keys) && ResizeEffect(p, lo, hi, size, m, c, m', c')
    ensures ResizeEffect(p, lo, hi, size, m0, c, m', c')
  {
    hide Evolves, Splice, Shape, FreeRight;
    FrameEvolves(m0, m, m', areas, c, c', {p}, {lo});
    FramePayload(m0, m, areas, c, p);
  }

  // ---------- the effect of Realloc ----------

  /** The line of the old payload that Realloc loses: when the block shifts backward and a remainder is
      split off, the header of the remainder is written before the payload is moved. (p, outside the
      payload, stands for no line.) */
  ghost function LostLine(c: Chunks, p: int, q: int, size: int): int
    requires p in c
  {
    if q == FreeLeft(c, p) && q < p && SplitsOff(q, FreeRight(c, p), size) then q + size else p
  }

  function Min(a: int, b: int): int {
    if a <= b then a else b
  }

  /** The effect of resizing the live block p to a rounded request, giving the live block q: sizes, the
      other live blocks, and the old payload up to the smaller of the two sizes, except for the lost
      line, which holds the tag words of the remainder instead. */
  ghost predicate ReallocEffect(p: int, q: int, size: int, m: Mem, c: Chunks, m': Mem, c': Chunks) {
    && p in c && q in c' && c'[q].inUse && size <= c'[q].size < size + MIN_ALLOC
    && Evolves(m, c, m', c', {p}, {q})
    && Copied(m, p, m', q, Min(c[p].size, c'[q].size), LostLine(c, p, q, size))
    && var lost := LostLine(c, p, q, size);
      (p < lost < p + c[p].size ==> lost - p + q in m' && m'[lost - p + q].prevSize == size + 1)
  }

  /** The old payload has come along unharmed. */
  ghost predicate PayloadKept(p: int, q: int, m: Mem, c: Chunks, m': Mem, c': Chunks)
    requires p in c && q in c'
  {
    Copied(m, p, m', q, Min(c[p].size, c'[q].size), p)
  }

  /** The block has shifted back and a remainder has been split off. */
  ghost predicate ShiftedBack(c: Chunks, p: int, q: int, size: int)
    requires p in c
  {
    q == FreeLeft(c, p) && q < p && SplitsOff(q, FreeRight(c, p), size)
  }

  /** What a caller can tell beforehand: the free space after the block is not enough, the free chunk before
      it is, with enough to spare for a chunk of its own, and the cut falls inside the old block. */
  ghost predicate HeaderHits(c: Chunks, p: int, size: int)
    requires p in c
  {
    var q := FreeLeft(c, p);
    && FreeRight(c, p) - p < size && q < p && SplitsOff(q, FreeRight(c, p), size)
    && p - q < size < p - q + c[p].size
  }

  /** At the place where the line at q + size has been moved to, the new block holds a tag of the request. */
  predicate HeaderFound(p: int, q: int, size: int, m': Mem) {
    q + size - p + q in m' && m'[q + size - p + q].prevSize == size + 1
  }

  /** The line at q + size is the same as before all the same. */
  predicate LineSurvives(p: int, q: int, size: int, m: Mem, m': Mem) {
    q + size in m && q + size - p + q in m' && m'[q + size - p + q] == m[q + size]
  }

  /** Realloc keeps the payload exactly when the remainder's header misses it, or is what the line it hits
      held anyway. */
  lemma ReallocPayload(p: int, q: int, size: int, m: Mem, areas: Areas, c: Chunks, m': Mem, c': Chunks)
    requires Shape(areas, c) && Mapped(m, areas) && size % ALIGN == 0
    requires ReallocEffect(p, q, size, m, c, m', c')
    requires var fits := c[p].size >= size || FreeRight(c, p) - FreeLeft(c, p) >= size;
      if fits then q == (if size <= c[p].size || size <= FreeRight(c, p) - p then p else FreeLeft(c, p))
      else !ShiftedBack(c, p, q, size)
    ensures HeaderHits(c, p, size) ==> q == FreeLeft(c, p) && HeaderFound(p, q, size, m')
    ensures PayloadKept(p, q, m, c, m', c') <==> (HeaderHits(c, p, size) ==> LineSurvives(p, q, size, m, m'))
  {
    hide Evolves, FreeLeft;
    var lost := LostLine(c, p, q, size);
    RightEnd(areas, c, p);
    if HeaderHits(c, p, size) {
      HitMapped(m, areas, c, p, q, size);
    }
  }

  lemma RightEnd(areas: Areas, c: Chunks, p: int)
    requires Shape(areas, c) && p in c
    ensures p + c[p].size <= FreeRight(c, p)
    ensures FreeLeft(c, p) != p ==>
      FreeLeft(c, p) in c && FreeLeft(c, p) + c[FreeLeft(c, p)].size == p < FreeRight(c, p)
  {
    assert ChunkOk(areas, p, c[p]);
    var e := p + c[p].size;
    if e in c { assert ChunkOk(areas, e, c[e]); }
  }

  lemma HitMapped(m: Mem, areas: Areas, c: Chunks, p: int, q: int, size: int)
    requires Shape(areas, c) && Mapped(m, areas) && p in c && q in c && p < q + size < p + c[p].size
    requires size % ALIGN == 0
    ensures (q + size) % HEADER == 0 && q + size in m
  {
    ShapeGrid(areas, c, q);
    GridLine(q, size);
    InsideMapped(m, areas, c, p, q + size);
  }

  lemma HereEffect(p: int, hi: int, size: int, m: Mem, c: Chunks, m': Mem, c': Chunks)
    requires ResizeEffect(p, p, hi, size, m, c, m', c')
    ensures ReallocEffect(p, p, size, m, c, m', c')
  {
    hide Evolves, Splice, FreeLeft, FreeRight;
  }

  /** Shifting backward: resize to the run from the free chunk before, then move the payload. */
  lemma ShiftEffect(m: Mem, m1: Mem, blocks: seq<nat>, list: seq<int>, areas: Areas, c: Chunks, c1: Chunks,
                    rings: seq<seq<int>>,
                    p: int, lo: int, hi: int, size: int)
    requires p in c && c[p].inUse && lo == FreeLeft(c, p) < p && hi == FreeRight(c, p) && p % ALIGN == HEADER
    requires lo % ALIGN == HEADER
    requires ResizeEffect(p, lo, hi, size, m, c, m1, c1) && PoolInv(m1, blocks, list, areas, c1, rings)
    requires 0 < c[p].size < size && (forall q :: q in c && c[q].inUse && q != p ==> q != lo)
    ensures var m2 := MovePayload(m1, lo, p, c[p].size);
      PoolInv(m2, blocks, list, areas, c1, rings) && ReallocEffect(p, lo, size, m, c, m2, c1)
  {
    hide Evolves, Splice, PoolInv, FreeLeft, FreeRight, BinIndex, BinIndex2, Copied, MovePayload;
    var m2, n := MovePayload(m1, lo, p, c[p].size), c[p].size;
    assert Shape(areas, c1) && Mapped(m1, areas) by { InvParts(m1, blocks, list, areas, c1, rings); }
    MoveCopies(m1, areas, c1, lo, p, n);
    PayloadWrite(m1, m2, blocks, list, areas, c1, rings, lo);
    WriteEvolves(m, c, m1, c1, m2, {p}, lo);
    if SplitsOff(lo, hi, size) { RemainderGrid(areas, c1, lo, size); }
    ShiftCopied(m, m1, m2, p, lo, n, LostLine(c, p, lo, size));
  }

  lemma ShiftCopied(m: Mem, m1: Mem, m2: Mem, p: int, lo: int, n: int, lost: int)
    requires m1.Keys == m.Keys && Copied(m1, p, m2, lo, n, p)
    requires forall y :: y in m && p < y < p + n && y != lost ==> m1[y] == m[y]
    requires p < lost < p + n ==> lost in m && lost % HEADER == 0
    ensures Copied(m, p, m2, lo, n, lost)
    ensures p < lost < p + n ==> lost - p + lo in m2 && m2[lost - p + lo] == m1[lost]
  {
  }

  lemma RemainderGrid(areas: Areas, c: Chunks, lo: int, size: int)
    requires Shape(areas, c) && lo + size in c
    ensures (lo + size) % HEADER == 0
  {
    assert OnGrid(lo + size, c[lo + size].size);
  }

  lemma InvParts(m: Mem, blocks: seq<nat>, list: seq<int>, areas: Areas, c: Chunks, rings: seq<seq<int>>)
    requires PoolInv(m, blocks, list, areas, c, rings)
    ensures Shape(areas, c) && Mapped(m, areas) && Coalesced(c) && Tagged(m, areas, c)
  {
  }

  /** A write inside the newly born block is no other block's business. */
  lemma WriteEvolves(m: Mem, c: Chunks, m1: Mem, c1: Chunks, m2: Mem, gone: set<int>, q: int)
    requires Evolves(m, c, m1, c1, gone, {q}) && (q in c && c[q].inUse ==> q in gone)
    requires forall r :: r in c1 && r != q ==> SamePayload(m1, m2, r, c1[r].size)
    ensures Evolves(m, c, m2, c1, gone, {q})
  {
    forall r | r in c && c[r].inUse && r !in gone
      ensures Kept(m, c, m2, c1, r)
    {
      assert Kept(m, c, m1, c1, r);
    }
  }

  /** Moving away: allocate, copy, free the old block. */
  lemma AwayCopied(m: Mem, m1: Mem, blocks: seq<nat>, list: seq<int>, areas: Areas, c: Chunks, c1: Chunks,
                   rings: seq<seq<int>>,
                   p: int, q: int, size: int)
    requires p in c && c[p].inUse && p % ALIGN == HEADER && 0 < c[p].size < size
    requires Evolves(m, c, m1, c1, {}, {q}) && q != p && !(q in c && c[q].inUse) && q in c1 && size <= c1[q].size
    requires PoolInv(m1, blocks, list, areas, c1, rings)
    ensures var m2 := MovePayload(m1, q, p, c[p].size);
      && PoolInv(m2, blocks, list, areas, c1, rings) && Evolves(m, c, m2, c1, {}, {q})
      && Copied(m, p, m2, q, c[p].size, p) && p in c1 && c1[p].inUse
  {
    hide PoolInv, BinIndex, BinIndex2;
    var m2, n := MovePayload(m1, q, p, c[p].size), c[p].size;
    assert Shape(areas, c1) && Mapped(m1, areas) by { InvParts(m1, blocks, list, areas, c1, rings); }
    assert Kept(m, c, m1, c1, p);
    MoveCopies(m1, areas, c1, q, p, n);
    PayloadWrite(m1, m2, blocks, list, areas, c1, rings, q);
    WriteEvolves(m, c, m1, c1, m2, {}, q);
  }

  lemma AwayEffect(m: Mem, m2: Mem, m3: Mem, c: Chunks, c1: Chunks, c3: Chunks, areas: Areas, p: int, q: int, size: int)
    requires p in c && q != p && 0 < c[p].size < size && p % ALIGN == HEADER && q % ALIGN == HEADER
    requires Evolves(m, c, m2, c1, {}, {q}) && Evolves(m2, c1, m3, c3, {p}, {}) && Copied(m, p, m2, q, c[p].size, p)
    requires q in c1 && size <= c1[q].size < size + MIN_ALLOC
    requires !(q == FreeLeft(c, p) && q < p && SplitsOff(q, FreeRight(c, p), size))
    ensures ReallocEffect(p, q, size, m, c, m3, c3)
  {
    hide FreeLeft, FreeRight;
    assert Kept(m2, c1, m3, c3, q);
    forall r | r in c && c[r].inUse && r !in {p}
      ensures Kept(m, c, m3, c3, r)
    {
      assert Kept(m, c, m2, c1, r) && Kept(m2, c1, m3, c3, r);
    }
  }

  /** The chunk before p, as Realloc reads it: p itself at the start of an area. */
  lemma PrevProbe(m: Mem, areas: Areas, c: Chunks, p: int)
    requires Shape(areas, c) && Tagged(m, areas, c) && p in c && c[p].inUse
    ensures p in m && p - SizeBits(m[p].prevSize) in m
    ensures var prev := p - SizeBits(m[p].prevSize);
      if InUseBit(m[prev].size) then FreeLeft(c, p) == p
      else prev == FreeLeft(c, p) < p && prev in c && !c[prev].inUse && SizeBits(m[prev].size) == p - prev
  {
    LeftOf(m, areas, c, p);
    PrevTag(m, areas, c, p);
    assert ChunkTags(m, p, c[p]) && OnGrid(p, c[p].size);
    TagRead(c[p].size, c[p].inUse);
    if p !in areas {
      var q := PrevOf(m, p);
      assert ChunkTags(m, q, c[q]) && OnGrid(q, c[q].size);
      TagRead(c[q].size, c[q].inUse);
    }
  }
}

/** The pool's own consistency checks (`DoCheckPool` and its helpers), as methods that return whether
    every assertion holds; in a valid pool they all do, and the walks end. */
module PoolChecks {
  import opened Bins
  import opened Rings
  import opened Layout
  import opened FreeLists
  import opened PoolState
  import opened Searching
  import opened PoolLemmas
  import opened AllocPools

  // ---------- the assertions, over memory ----------

  /** DoCheckChunk: a chunk's size tag is repeated in the chunk after it. */
  predicate ChunkPasses(m: Mem, p: int) {
    && p in m && p + SizeBits(m[p].size) in m
    && m[p].size == m[p + SizeBits(m[p].size)].prevSize
  }

  /** DoCheckFreeChunk: claims to be free, is aligned, fully consolidated and sanely linked, or is an end
      marker. */
  predicate FreePasses(m: Mem, p: int) {
    && ChunkPasses(m, p) && !InUseBit(m[p].size)
    && var size := SizeBits(m[p].size);
       if size >= MIN_ALLOC then
         && size % ALIGN == 0 && (p + HEADER) % ALIGN == 0
         && InUseBit(m[p].prevSize) && InUseBit(m[p + size].size)
         && m[p].next in m && m[m[p].next].prev == p && m[p].prev in m && m[m[p].prev].next == p
       else size == 0
  }

  /** DoCheckInUseChunk: claims to be in use and has good free neighbours. */
  predicate InUsePasses(m: Mem, p: int) {
    && ChunkPasses(m, p) && InUseBit(m[p].size)
    && (!InUseBit(m[p].prevSize) && SizeBits(m[p].prevSize) > 0 ==>
          var prv := PrevOf(m, p);
          prv in m && prv + SizeBits(m[prv].size) == p && FreePasses(m, prv))
    && (!InUseBit(m[p + SizeBits(m[p].size)].size) ==> FreePasses(m, p + SizeBits(m[p].size)))
  }

  predicate OnePasses(m: Mem, p: int) {
    p in m && if InUseBit(m[p].size) then InUsePasses(m, p) else FreePasses(m, p)
  }

  /** DoCheckArea: nothing free before the first chunk, and every chunk that the walk meets passes. */
  ghost predicate AreaPasses(m: Mem, a: int, ps: seq<int>) {
    a in m && InUseBit(m[a].prevSize) && forall p :: p in ps ==> OnePasses(m, p)
  }

  predicate Belongs(m: Mem, i: nat, x: int) {
    FreePasses(m, x) && SizeBits(m[x].size) >= 0 && BinIndex(SizeBits(m[x].size)) == i
  }

  /** DoCheckBin: every chunk of a bin belongs there by its size and passes as a free chunk. */
  ghost predicate BinPasses(m: Mem, i: nat, s: seq<int>) {
    forall x :: x in s ==> Belongs(m, i, x)
  }

  // ---------- the checks ----------

  /** Over any memory that holds the chunk and what its size leads to. */
  method DoCheckChunk(m: Mem, p: int) returns (ok: bool)
    requires p in m && p + SizeBits(m[p].size) in m
    ensures ok <==> ChunkPasses(m, p)
  {
    var next := p + SizeBits(m[p].size);
    ok := m[p].size == m[next].prevSize;
  }

  method DoCheckFreeChunk(m: Mem, p: int) returns (ok: bool)
    requires ReadableFree(m, p)
    ensures ok <==> FreePasses(m, p)
  {
    var size := SizeBits(m[p].size);
    var next := p + size;
    ok := DoCheckChunk(m, p);
    ok := ok && !InUseBit(m[p].size);
    if size >= MIN_ALLOC {
      ok := ok && size % ALIGN == 0 && (p + HEADER) % ALIGN == 0;
      ok := ok && InUseBit(m[p].prevSize) && InUseBit(m[next].size);
      ok := ok && m[m[p].next].prev == p && m[m[p].prev].next == p;
    } else {
      ok := ok && size == 0;
    }
  }

  /** The lines that the check of a live chunk reads. */
  ghost predicate Readable(m: Mem, p: int) {
    && p in m && p + SizeBits(m[p].size) in m
    && (!InUseBit(m[p].prevSize) && SizeBits(m[p].prevSize) > 0 ==> ReadableFree(m, PrevOf(m, p)))
    && (!InUseBit(m[p + SizeBits(m[p].size)].size) ==> ReadableFree(m, p + SizeBits(m[p].size)))
  }

  ghost predicate ReadableFree(m: Mem, p: int) {
    p in m && p + SizeBits(m[p].size) in m && m[p].next in m && m[p].prev in m
  }

  method DoCheckInUseChunk(m: Mem, p: int) returns (ok: bool)
    requires Readable(m, p)
    ensures ok <==> InUsePasses(m, p)
  {
    hide SizeBits, InUseBit, FreePasses;
    var size := SizeBits(m[p].size);
    ok := DoCheckChunk(m, p);
    ok := ok && InUseBit(m[p].size);
    if !InUseBit(m[p].prevSize) {
      var prevsize := SizeBits(m[p].prevSize);
      if prevsize > 0 {
        var prv := p - prevsize;
        ok := ok && prv + SizeBits(m[prv].size) == p;
        var okPrev := DoCheckFreeChunk(m, prv);
        ok := ok && okPrev;
      }
    }
    if !InUseBit(m[p + size].size) {
      var okNext := DoCheckFreeChunk(m, p + size);
      ok := ok && okNext;
    }
  }

  /** What the checks are good for, over any memory whose headers tile the areas: if every chunk passes, then the
      boundary tags agree, each chunk can find the one before it, no two free chunks touch, and the free chunks
      are aligned, at least of the minimum size and linked both ways. */
  lemma CheckedTags(m: Mem, areas: Areas, c: Chunks)
    requires AreasOk(areas) && Tiled(areas, c)
    requires forall p :: p in c ==> p in m && m[p].size == Tag(c[p]) && c[p].size % 2 == 0
    requires forall p :: p in c ==> OnePasses(m, p)
    ensures forall p :: p in c ==> ChunkTags(m, p, c[p]) && HasPrev(m, areas, c, p)
    ensures Coalesced(c)
    ensures forall p :: p in c && !c[p].inUse ==>
      && c[p].size % ALIGN == 0 && (p + HEADER) % ALIGN == 0
      && m[p].next in m && m[m[p].next].prev == p && m[p].prev in m && m[m[p].prev].next == p
  {
    hide OnePasses, TagWord, ChunkTags, HasPrev, Tiled, AreasOk, SizeBits, InUseBit;
    forall p | p in c
      ensures ChunkTags(m, p, c[p])
    {
      CheckedTag(m, c, p);
    }
    forall p | p in c
      ensures HasPrev(m, areas, c, p)
    {
      CheckedPrev(m, areas, c, p);
    }
    forall p | p in c && !c[p].inUse
      ensures p + c[p].size in c ==> c[p + c[p].size].inUse
      ensures c[p].size % ALIGN == 0 && (p + HEADER) % ALIGN == 0
      ensures m[p].next in m && m[m[p].next].prev == p && m[p].prev in m && m[m[p].prev].next == p
    {
      CheckedFree(m, areas, c, p);
    }
  }

  lemma EvenTag(size: int, inUse: bool)
    requires size % 2 == 0
    ensures SizeBits(TagWord(size, inUse)) == size && (InUseBit(TagWord(size, inUse)) <==> inUse)
  {
  }

  lemma CheckedTag(m: Mem, c: Chunks, p: int)
    requires p in c && p in m && m[p].size == Tag(c[p]) && c[p].size % 2 == 0 && OnePasses(m, p)
    ensures ChunkTags(m, p, c[p])
  {
    EvenTag(c[p].size, c[p].inUse);
    hide SizeBits, InUseBit, TagWord;
  }

  lemma CheckedPrev(m: Mem, areas: Areas, c: Chunks, p: int)
    requires AreasOk(areas) && Tiled(areas, c)
    requires p in c && forall q :: q in c ==> ChunkTags(m, q, c[q]) && c[q].size % 2 == 0
    ensures HasPrev(m, areas, c, p)
  {
    hide SizeBits, InUseBit, TagWord;
    if p !in areas {
      var a := c[p].area;
      assert ChunkOk(areas, p, c[p]) && ChunkOk(areas, a, c[a]);
      SameArea(areas, a, c[a].area, a);
      var q := Predecessor(areas, c, c[p].area, p);
      assert ChunkTags(m, q, c[q]);
      EvenTag(c[q].size, c[q].inUse);
    }
  }

  lemma CheckedFree(m: Mem, areas: Areas, c: Chunks, p: int)
    requires Tiled(areas, c) && p in c && !c[p].inUse && c[p].size % 2 == 0
    requires p in m && m[p].size == Tag(c[p]) && OnePasses(m, p)
    requires var e := p + c[p].size; e in c ==> e in m && m[e].size == Tag(c[e]) && c[e].size % 2 == 0
    ensures p + c[p].size in c ==> c[p + c[p].size].inUse
    ensures c[p].size % ALIGN == 0 && (p + HEADER) % ALIGN == 0
    ensures m[p].next in m && m[m[p].next].prev == p && m[p].prev in m && m[m[p].prev].next == p
  {
    assert ChunkOk(areas, p, c[p]);
    EvenTag(c[p].size, c[p].inUse);
    var e := p + c[p].size;
    if e in c { EvenTag(c[e].size, c[e].inUse); }
    hide SizeBits, InUseBit, TagWord;
  }

  /** From a chunk of the area on, the one that ends where p begins. */
  lemma {:induction false} Predecessor(areas: Areas, c: Chunks, from: int, p: int) returns (q: int)
    requires Tiled(areas, c) && from in c && p in c && from < p && c[from].area == c[p].area
    ensures q in c && q + c[q].size == p
    decreases p - from
  {
    assert ChunkOk(areas, from, c[from]) && ChunkOk(areas, p, c[p]) && NextOk(areas, c, from) && Apart(c, from, p);
    var e := from + c[from].size;
    if e == p { return from; }
    q := Predecessor(areas, c, e, p);
  }

  /** In a valid pool every free chunk passes. */
  lemma FreeSound(pool: AllocPool, p: int)
    requires pool.Valid() && p in pool.chunks && !pool.chunks[p].inUse
    ensures ReadableFree(pool.mem, p) && FreePasses(pool.mem, p)
  {
    hide SizeBits, InUseBit, BinsOk, BinIndex, BinIndex2;
    var m, c, areas := pool.mem, pool.chunks, pool.areaSize;
    ChunkSize(m, areas, c, p);
    NextOf(m, areas, c, p);
    LeftOf(m, areas, c, p);
    FreeFlags(m, areas, c, p);
    FreeLinks(m, pool.mBinBlocks, areas, c, pool.rings, p);
  }

  /** In a valid pool every live chunk passes, its free neighbours included. */
  lemma LiveSound(pool: AllocPool, p: int)
    requires pool.Valid() && p in pool.chunks && pool.chunks[p].inUse
    ensures Readable(pool.mem, p) && InUsePasses(pool.mem, p)
  {
    hide SizeBits, InUseBit, BinsOk, BinIndex, BinIndex2, FreeLeft, FreePasses, ReadableFree;
    var m, c, areas := pool.mem, pool.chunks, pool.areaSize;
    ChunkSize(m, areas, c, p);
    NextOf(m, areas, c, p);
    LeftOf(m, areas, c, p);
    LiveFlag(m, areas, c, p);
    if !InUseBit(m[p].prevSize) {
      ChunkSize(m, areas, c, PrevOf(m, p));
      FreeSound(pool, PrevOf(m, p));
    }
    var next := p + SizeBits(m[p].size);
    if !InUseBit(m[next].size) { FreeSound(pool, next); }
  }

  /** From a on, adding up sizes leads through ps and then to an end marker at e. */
  ghost predicate Walk(m: Mem, a: int, ps: seq<int>, e: int) {
    && ps != [] && ps[0] == a && e in m && m[e].size == 1
    && forall k {:trigger ps[k]} :: 0 <= k < |ps| ==> Step(m, ps[k], if k + 1 < |ps| then ps[k + 1] else e)
  }

  ghost predicate Step(m: Mem, p: int, next: int) {
    && p in m && m[p].size != 1 && p + SizeBits(m[p].size) == next
    && if InUseBit(m[p].size) then Readable(m, p) else ReadableFree(m, p)
  }

  /** Walks the chunks of an area up to its end marker: over any memory with such a walk, whether all pass. */
  method DoCheckArea(m: Mem, a: int, ghost ps: seq<int>, ghost e: int) returns (ok: bool)
    requires Walk(m, a, ps, e)
    ensures ok <==> AreaPasses(m, a, ps)
  {
    hide SizeBits, InUseBit, FreePasses, InUsePasses, Readable, ReadableFree;
    ghost var k := 0;
    assert Step(m, ps[0], if 1 < |ps| then ps[1] else e);
    ok := InUseBit(m[a].prevSize);
    var p := a;
    while m[p].size != 1
      invariant 0 <= k <= |ps| && p == (if k < |ps| then ps[k] else e) && p in m
      invariant k < |ps| ==> m[p].size != 1
      invariant ok <==> InUseBit(m[a].prevSize) && forall j :: 0 <= j < k ==> OnePasses(m, ps[j])
      decreases |ps| - k
    {
      assert Step(m, ps[k], if k + 1 < |ps| then ps[k + 1] else e);
      var okChunk;
      if InUseBit(m[p].size) {
        okChunk := DoCheckInUseChunk(m, p);
      } else {
        okChunk := DoCheckFreeChunk(m, p);
      }
      ok := ok && okChunk;
      p := p + SizeBits(m[p].size);
      k := k + 1;
      if k < |ps| { assert Step(m, ps[k], if k + 1 < |ps| then ps[k + 1] else e); }
    }
    assert k == |ps|;
  }

  ghost predicate ReadableMember(m: Mem, x: int) {
    ReadableFree(m, x) && SizeBits(m[x].size) >= 0
  }

  /** The two checks of DoCheckBin on one chunk. */
  method DoCheckMember(m: Mem, i: nat, p: int) returns (ok: bool)
    requires ReadableMember(m, p)
    ensures ok <==> Belongs(m, i, p)
  {
    hide SizeBits, BinIndex, BinIndex2, FreePasses;
    ok := BinIndex(SizeBits(m[p].size)) == i;
    var okFree := DoCheckFreeChunk(m, p);
    ok := ok && okFree;
  }

  /** Over any memory in which the bin's mNext pointers lead back to its head, whether all pass. */
  method DoCheckBin(m: Mem, i: nat, ghost s: seq<int>) returns (ok: bool)
    requires Chain(m, BinHead(i), s) && forall x :: x in s ==> ReadableMember(m, x)
    ensures ok <==> BinPasses(m, i, s)
  {
    hide ReadableMember, Belongs;
    var bin := BinHead(i);
    var p := m[bin].next;
    ghost var k := 0;
    ok := true;
    while p != bin
      invariant 0 <= k <= |s| && p == At(bin, s, k)
      invariant ok <==> BinPasses(m, i, s[..k])
      decreases |s| - k
    {
      assert p == s[k] && p in s;
      var okOne := DoCheckMember(m, i, p);
      ok := ok && okOne;
      assert s[..k + 1] == s[..k] + [p];
      p := m[p].next;
      k := k + 1;
    }
    assert s[..k] == s;
  }

  /** What the check of a whole pool walks through: the areas of the list and the 128 bins. */
  ghost predicate Walks(m: Mem, list: seq<int>, walks: seq<seq<int>>, ends: seq<int>, bins: seq<seq<int>>) {
    && |walks| == |ends| == |list| && |bins| == NUM_BINS
    && (forall j {:trigger walks[j]} :: 0 <= j < |list| ==> Walk(m, list[j], walks[j], ends[j]))
    && forall i: nat, x {:trigger x in bins[i]} :: i < NUM_BINS && x in bins[i] ==> ReadableMember(m, x)
  }

  ghost predicate Chains(m: Mem, bins: seq<seq<int>>) {
    |bins| == NUM_BINS && forall i: nat {:trigger bins[i]} :: i < NUM_BINS ==> Chain(m, BinHead(i), bins[i])
  }

  /** DoCheckPool: whether every area and every bin passes. */
  method DoCheckPool(m: Mem, list: seq<int>, ghost walks: seq<seq<int>>, ghost ends: seq<int>,
                     ghost bins: seq<seq<int>>)
    returns (ok: bool)
    requires Walks(m, list, walks, ends, bins) && Chains(m, bins)
    ensures ok <==>
      && (forall j {:trigger walks[j]} :: 0 <= j < |list| ==> AreaPasses(m, list[j], walks[j]))
      && (forall i: nat {:trigger bins[i]} :: i < NUM_BINS ==> BinPasses(m, i, bins[i]))
  {
    hide AreaPasses, BinPasses, Walk, Chain, ReadableMember;
    ok := true;
    for j := 0 to |list|
      invariant ok <==> forall n {:trigger walks[n]} :: 0 <= n < j ==> AreaPasses(m, list[n], walks[n])
    {
      var okArea := DoCheckArea(m, list[j], walks[j], ends[j]);
      ok := ok && okArea;
    }
    ghost var areasOk := ok;
    for i := 0 to NUM_BINS
      invariant ok <==> areasOk && forall n: nat {:trigger bins[n]} :: n < i ==> BinPasses(m, n, bins[n])
    {
      assert forall x :: x in bins[i] ==> ReadableMember(m, x);
      assert Chain(m, BinHead(i), bins[i]);
      var okBin := DoCheckBin(m, i, bins[i]);
      ok := ok && okBin;
    }
  }

  /** In a valid pool no assertion fails, in any area or any bin. */
  method CheckValid(pool: AllocPool) returns (ok: bool)
    requires pool.Valid()
    ensures ok
  {
    hide AreaPasses, BinPasses, BinsOk, Tagged, Shape, Coalesced, Mapped, Walks, Chains;
    ghost var walks, ends := PoolWalks(pool);
    PoolBins(pool);
    assert Walks(pool.mem, pool.mAreas, walks, ends, pool.rings) by { WalksOf(pool, walks, ends); }
    ok := DoCheckPool(pool.mem, pool.mAreas, walks, ends, pool.rings);
  }

  lemma WalksOf(pool: AllocPool, walks: seq<seq<int>>, ends: seq<int>)
    requires |walks| == |ends| == |pool.mAreas| && |pool.rings| == NUM_BINS
    requires forall j {:trigger walks[j]} :: 0 <= j < |walks| ==>
      Walk(pool.mem, pool.mAreas[j], walks[j], ends[j])
    requires forall i: nat, x {:trigger x in pool.rings[i]} :: i < NUM_BINS && x in pool.rings[i] ==>
      ReadableMember(pool.mem, x)
    ensures Walks(pool.mem, pool.mAreas, walks, ends, pool.rings)
  {
    hide Walk, ReadableMember;
  }

  lemma PoolBins(pool: AllocPool)
    requires pool.Valid()
    ensures Chains(pool.mem, pool.rings)
    ensures forall i: nat, x {:trigger x in pool.rings[i]} :: i < NUM_BINS && x in pool.rings[i] ==>
      ReadableMember(pool.mem, x)
    ensures forall i: nat {:trigger pool.rings[i]} :: i < NUM_BINS ==> BinPasses(pool.mem, i, pool.rings[i])
  {
    hide SizeBits, BinsOk, BinIndex, BinIndex2, FreePasses, ReadableFree, Shape, Tagged, Coalesced, Mapped, Chain, Ring;
    ghost var m, c, areas, rings := pool.mem, pool.chunks, pool.areaSize, pool.rings;
    BinCount(m, pool.mBinBlocks, rings);
    forall i: nat | i < NUM_BINS
      ensures Chain(m, BinHead(i), rings[i])
      ensures forall x :: x in rings[i] ==> ReadableMember(m, x) && Belongs(m, i, x)
    {
      RingOfBin(m, pool.mBinBlocks, areas, c, rings, i);
      RingIsSound(m, BinHead(i), rings[i]);
      forall x | x in rings[i]
        ensures ReadableMember(m, x) && Belongs(m, i, x)
      {
        SizeOfMember(m, areas, c, rings, i, x);
        MemberSize(m, areas, c, rings, i, x);
        FreeSound(pool, x);
      }
    }
  }

  /** Each area of a valid pool has its walk, through exactly its chunks, all of which pass. */
  lemma PoolWalks(pool: AllocPool) returns (walks: seq<seq<int>>, ends: seq<int>)
    requires pool.Valid()
    ensures |walks| == |ends| == |pool.mAreas|
    ensures forall j {:trigger walks[j]} :: 0 <= j < |walks| ==>
      && Walk(pool.mem, pool.mAreas[j], walks[j], ends[j])
      && AreaPasses(pool.mem, pool.mAreas[j], walks[j])
      && forall p :: p in walks[j] <==> p in pool.chunks && pool.chunks[p].area == pool.mAreas[j]
  {
    hide BinsOk, Tagged, Shape, Coalesced, Mapped, Walk, AreaPasses;
    walks, ends := [], [];
    for n := 0 to |pool.mAreas|
      invariant |walks| == |ends| == n
      invariant forall j {:trigger walks[j]} :: 0 <= j < n ==>
        && Walk(pool.mem, pool.mAreas[j], walks[j], ends[j])
        && AreaPasses(pool.mem, pool.mAreas[j], walks[j])
        && forall p :: p in walks[j] <==> p in pool.chunks && pool.chunks[p].area == pool.mAreas[j]
    {
      var a := pool.mAreas[n];
      assert a in pool.mAreas && a in pool.areaSize;
      var ps := AreaWalk(pool, a);
      walks, ends := walks + [ps], ends + [End(pool.areaSize, a)];
    }
  }

  lemma AreaWalk(pool: AllocPool, a: int) returns (ps: seq<int>)
    requires pool.Valid() && a in pool.areaSize
    ensures Walk(pool.mem, a, ps, End(pool.areaSize, a)) && AreaPasses(pool.mem, a, ps)
    ensures forall p :: p in ps <==> p in pool.chunks && pool.chunks[p].area == a
  {
    hide BinsOk, Tagged, Shape, Coalesced, Mapped, Walk, OnePasses, Step;
    AreaChunkStart(pool.mem, pool.areaSize, pool.chunks, a);
    NoneBefore(pool.areaSize, pool.chunks, a);
    ps := WalkFrom(pool, a, a);
  }

  /** The walk from the chunk p of the area on. */
  lemma {:induction false} WalkFrom(pool: AllocPool, a: int, p: int) returns (ps: seq<int>)
    requires pool.Valid() && a in pool.areaSize && p in pool.chunks && pool.chunks[p].area == a
    ensures Walk(pool.mem, p, ps, End(pool.areaSize, a))
    ensures forall q :: q in ps ==> OnePasses(pool.mem, q)
    ensures forall q :: q in ps <==> q in pool.chunks && pool.chunks[q].area == a && q >= p
    decreases End(pool.areaSize, a) - p
  {
    hide SizeBits, InUseBit, BinsOk, Tagged, Shape, Coalesced, Mapped, OnePasses, Step;
    var m, c, areas := pool.mem, pool.chunks, pool.areaSize;
    var e := p + c[p].size;
    ChunkEnds(areas, c, p);
    Between(areas, c, p);
    NextInArea(m, areas, c, p);
    StepOf(pool, p);
    if e == End(areas, a) {
      ps := [p];
      NoneBehind(areas, c, a);
    } else {
      var rest := WalkFrom(pool, a, e);
      ps := [p] + rest;
      WalkOn(m, p, e, rest, End(areas, a));
    }
  }

  lemma WalkOn(m: Mem, p: int, next: int, rest: seq<int>, e: int)
    requires Walk(m, next, rest, e) && Step(m, p, next)
    ensures Walk(m, p, [p] + rest, e)
  {
    hide Step;
    var ps := [p] + rest;
    forall k | 0 <= k < |ps|
      ensures Step(m, ps[k], if k + 1 < |ps| then ps[k + 1] else e)
    {
      if k > 0 { assert ps[k] == rest[k - 1]; }
    }
  }

  lemma StepOf(pool: AllocPool, p: int)
    requires pool.Valid() && p in pool.chunks
    ensures Step(pool.mem, p, p + pool.chunks[p].size) && OnePasses(pool.mem, p)
  {
    hide SizeBits, InUseBit, BinsOk, Tagged, Shape, Coalesced, Mapped, FreePasses, InUsePasses, Readable, ReadableFree;
    var m, c, areas := pool.mem, pool.chunks, pool.areaSize;
    ChunkSize(m, areas, c, p);
    LiveFlag(m, areas, c, p);
    NotMarker(m, areas, c, p);
    if c[p].inUse { LiveSound(pool, p); } else { FreeSound(pool, p); }
  }

  lemma NextInArea(m: Mem, areas: Areas, c: Chunks, p: int)
    requires Shape(areas, c) && Tagged(m, areas, c) && p in c
    ensures c[p].area in areas
    ensures var e := p + c[p].size;
      if e == End(areas, c[p].area) then e in m && m[e].size == 1 else e in c && c[e].area == c[p].area
  {
    assert ChunkOk(areas, p, c[p]) && NextOk(areas, c, p) && AreaTags(m, c[p].area, End(areas, c[p].area));
  }

  lemma NoneBehind(areas: Areas, c: Chunks, a: int)
    requires Shape(areas, c) && a in areas
    ensures forall q :: q in c && c[q].area == a ==> q < End(areas, a)
  {
    forall q | q in c && c[q].area == a
      ensures q < End(areas, a)
    {
      assert ChunkOk(areas, q, c[q]);
    }
  }

  lemma Between(areas: Areas, c: Chunks, p: int)
    requires Shape(areas, c) && p in c
    ensures forall q :: q in c && q < p + c[p].size ==> q <= p
  {
    forall q | q in c && q < p + c[p].size
      ensures q <= p
    {
      assert Apart(c, p, q);
    }
  }

  lemma NotMarker(m: Mem, areas: Areas, c: Chunks, p: int)
    requires Shape(areas, c) && Tagged(m, areas, c) && p in c
    ensures p in m && m[p].size != 1
  {
    assert ChunkTags(m, p, c[p]) && ChunkOk(areas, p, c[p]);
  }

  lemma NoneBefore(areas: Areas, c: Chunks, a: int)
    requires Shape(areas, c)
    ensures forall q :: q in c && c[q].area == a ==> a <= q
  {
    forall q | q in c && c[q].area == a
      ensures a <= q
    {
      assert ChunkOk(areas, q, c[q]);
    }
  }

  lemma FreeFlags(m: Mem, areas: Areas, c: Chunks, p: int)
    requires Shape(areas, c) && Coalesced(c) && Tagged(m, areas, c) && p in c && !c[p].inUse
    ensures p in m && !InUseBit(m[p].size) && (p + HEADER) % ALIGN == 0 && c[p].size % ALIGN == 0
    ensures FreeLeft(c, p) == p
    ensures p + c[p].size in c ==> c[p + c[p].size].inUse
  {
    assert ChunkTags(m, p, c[p]) && OnGrid(p, c[p].size);
    TagRead(c[p].size, c[p].inUse);
    forall q | q in c && q + c[q].size == p
      ensures c[q].inUse
    {
    }
  }

  lemma FreeLinks(m: Mem, blocks: seq<nat>, areas: Areas, c: Chunks, rings: seq<seq<int>>, p: int)
    requires Shape(areas, c) && Tagged(m, areas, c) && BinsOk(m, blocks, rings) && Binned(c, rings, {}) && p in c
    requires !c[p].inUse
    ensures p in m && m[p].next in m && m[p].prev in m && m[m[p].next].prev == p && m[m[p].prev].next == p
  {
    hide BinIndex, BinIndex2;
    FreeIsMember(m, areas, c, rings, {}, p);
    var i := BinIndex(c[p].size);
    var s := rings[i];
    assert BinOk(m, i, s);
    var k :| 0 <= k < |s| && s[k] == p;
    AtLinks(m, BinHead(i), s, k);
    AtLinks(m, BinHead(i), s, k + 1);
  }

  lemma LiveFlag(m: Mem, areas: Areas, c: Chunks, p: int)
    requires Shape(areas, c) && Tagged(m, areas, c) && p in c
    ensures p in m && (InUseBit(m[p].size) <==> c[p].inUse)
  {
    assert ChunkTags(m, p, c[p]) && OnGrid(p, c[p].size);
    TagRead(c[p].size, c[p].inUse);
  }

  lemma AreaChunkStart(m: Mem, areas: Areas, c: Chunks, a: int)
    requires Shape(areas, c) && Tagged(m, areas, c) && a in areas
    ensures a in c && c[a].area == a && a in m && InUseBit(m[a].prevSize) && areas[a] >= 0
  {
    assert a in c && ChunkOk(areas, a, c[a]) && AreaTags(m, a, End(areas, a));
    SameArea(areas, a, c[a].area, a);
  }

  lemma ChunkEnds(areas: Areas, c: Chunks, p: int)
    requires Shape(areas, c) && p in c
    ensures c[p].area in areas && c[p].size >= MIN_ALLOC && p + c[p].size <= End(areas, c[p].area)
  {
    assert ChunkOk(areas, p, c[p]);
  }
}

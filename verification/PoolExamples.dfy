/** Concrete runs on which the allocator does not do what it is for. They lie outside the conditions under
    which the pool's contracts promise it. */
module PoolExamples {
  import opened Bins
  import opened Rings
  import opened Layout
  import opened FreeLists
  import opened PoolState
  import opened Searching
  import opened Growing
  import opened Carving
  import opened Resizing
  import opened Wrappers
  import opened AllocPools
  import opened PoolRuns

  /** A view of a pool that satisfies the invariant. */
  ghost predicate InOrder(v: PoolView) {
    PoolInv(v.mem, v.blocks, v.list, v.areas, v.chunks, v.rings)
  }

  /** A pool that grows by 256 bytes at a time: one request for 200 bytes leaves it broken. */
  method ShortSplitExample(block: Block) returns (pool: AllocPool, r: Option<int>, ghost before: PoolView)
    requires block.Memory? && GoodBlock(map[], block, 256)
    ensures fresh(pool) && before.chunks == map[] && InOrder(before)
    ensures r.Some? && !pool.Sound()
  {
    hide AllocEffect, PoolInv;
    pool := new AllocPool(0, 256);
    before := View(pool);
    assert RequestToSize(200) == 256;
    assert NoFit(pool.chunks, 256) && pool.BreaksPool(256, block);
    r := pool.Alloc(200, block);
  }

  /** A pool of 1024 bytes: a request for 2^64 - 64 bytes rounds to 0 and leaves it broken. */
  method ZeroRequestExample(block: Block) returns (pool: AllocPool, r: Option<int>, ghost before: PoolView)
    requires block.Memory? && GoodBlock(map[], block, 1024)
    ensures fresh(pool) && One(before.chunks, AreaChunk(block.ptr)) && InOrder(before)
    ensures r.Some? && !pool.Sound()
  {
    hide PoolInv, BinIndex, BinIndex2, AllocEffect, NoFit, NoPick, FirstPick, ShortChange, RequestToSize;
    var created := NewPool(1024, 0, block);
    pool := created.value;
    before := View(pool);
    RequestWraps();
    ghost var a := AreaChunk(block.ptr);
    assert a in pool.chunks && !pool.chunks[a].inUse;
    r := pool.Alloc(SIZE_RANGE - 64, NoMemory);
  }

  /** A pool of one 262144-byte chunk: a request whose rounded size is that plus 2^32 passes the wrapped
      test, and the caller is handed 262144 bytes. */
  method HugeRequestExample(block: Block)
    returns (pool: AllocPool, r: Option<int>, ghost before: PoolView, ghost after: PoolView)
    requires block.Memory? && GoodBlock(map[], block, 262144)
    ensures fresh(pool) && after == View(pool) && r == Some(AreaChunk(block.ptr) + HEADER)
    ensures var p, size := r.value - HEADER, RequestToSize(INT32 + 262112);
      && FirstPick(before.chunks, size, p)
      && ShortChange(p, size, before.mem, before.chunks, after.mem, after.chunks)
      && p in after.chunks && after.chunks[p].inUse && after.chunks[p].size == 262144 < INT32 + 262112
    ensures InOrder(before) && InOrder(after)
  {
    hide PoolInv, Evolves, BinIndex2;
    var created := NewPool(262144, 0, block);
    pool := created.value;
    before := View(pool);
    ghost var a, c := AreaChunk(block.ptr), pool.chunks;
    var size := RequestToSize(INT32 + 262112);
    assert size == INT32 + 262144;
    WrappedPick(c, a, size);
    r := pool.Alloc(INT32 + 262112, NoMemory);
    assert !NoPick(c, size) by { assert FirstPick(c, size, a); }
    after := View(pool);
    assert pool.IsLive(a) by { Handed(a, size, pool.chunks, c); }
  }

  lemma WrappedPick(c: Chunks, a: int, size: nat)
    requires (forall p :: p in c <==> p == a) && c[a] == Chunk(262144, false, a) && size == INT32 + 262144
    ensures FirstPick(c, size, a) && forall p :: FirstPick(c, size, p) ==> p == a
    ensures ToInt32(c[a].size - size) == 0
  {
    assert (0 - INT32) % INT32 == 0;
    assert Candidate(c, size, a);
  }

  lemma Handed(a: int, size: int, c': Chunks, c: Chunks)
    requires a in c && c' == Splice(c, a, a + c[a].size, c[a].size, true, false)
    ensures a in c' && c'[a].inUse && c'[a].size == c[a].size
  {
  }

  // ---------- a payload line that Realloc loses ----------

  /** An area of 1024 bytes, all free. */
  ghost predicate One(c: Chunks, a: int) {
    && (forall p :: p in c <==> p == a)
    && c[a] == Chunk(1024, false, a)
  }

  /** 384 in use, the rest free. */
  ghost predicate Two(c: Chunks, a: int) {
    && (forall p :: p in c <==> p == a || p == a + 384)
    && c[a] == Chunk(384, true, a) && c[a + 384] == Chunk(640, false, a)
  }

  /** 384 and 384 in use, the rest free. */
  ghost predicate Three(c: Chunks, a: int) {
    && (forall p :: p in c <==> p == a || p == a + 384 || p == a + 768)
    && c[a] == Chunk(384, true, a) && c[a + 384] == Chunk(384, true, a) && c[a + 768] == Chunk(256, false, a)
  }

  /** 384, 384 and 128 in use or, the first of them, free again; the rest free. */
  ghost predicate Four(c: Chunks, a: int, first: bool) {
    && (forall p :: p in c <==> p == a || p == a + 384 || p == a + 768 || p == a + 896)
    && c[a] == Chunk(384, first, a) && c[a + 384] == Chunk(384, true, a) && c[a + 768] == Chunk(128, true, a)
    && c[a + 896] == Chunk(128, false, a)
  }

  lemma FirstCut(c: Chunks, a: int, q: int, n: int, m: Mem, areas: Areas, m': Mem, c': Chunks, areas': Areas)
    requires One(c, a) && AllocEffect(q, 384, n, m, c, areas, m', c', areas')
    ensures q == a && Two(c', a)
  {
    hide Evolves;
    assert !NoFit(c, 384) by { assert c[a].size >= 384; }
  }

  lemma SecondCut(c: Chunks, a: int, q: int, n: int, m: Mem, areas: Areas, m': Mem, c': Chunks, areas': Areas)
    requires Two(c, a) && AllocEffect(q, 384, n, m, c, areas, m', c', areas')
    ensures q == a + 384 && Three(c', a)
  {
    hide Evolves;
    assert !NoFit(c, 384) by { assert c[a + 384].size >= 384; }
  }

  lemma ThirdCut(c: Chunks, a: int, q: int, n: int, m: Mem, areas: Areas, m': Mem, c': Chunks, areas': Areas)
    requires Three(c, a) && AllocEffect(q, 128, n, m, c, areas, m', c', areas')
    ensures q == a + 768 && Four(c', a, true)
  {
    hide Evolves;
    assert !NoFit(c, 128) by { assert c[a + 768].size >= 128; }
  }

  lemma FirstFreed(c: Chunks, a: int, m: Mem, areas: Areas, m': Mem, c': Chunks, areas': Areas)
    requires Four(c, a, true) && FreeEffect(false, a, m, c, areas, m', c', areas')
    ensures Four(c', a, false)
  {
    hide Evolves;
    assert FreeLeft(c, a) == a;
    assert FreeRight(c, a) == a + 384;
  }

  lemma SecondHit(c: Chunks, a: int)
    requires Four(c, a, false)
    ensures HeaderHits(c, a + 384, 512) && FreeLeft(c, a + 384) == a && FreeRight(c, a + 384) == a + 768
    ensures LostLine(c, a + 384, a, 512) == a + 512
  {
    assert c[a].size + a == a + 384 && !c[a].inUse;
    assert forall q :: q in c && !c[q].inUse && q + c[q].size == a + 384 ==> q == a;
  }

  /** A fixed-size pool of 1024 bytes: two blocks of 384 and one of 128, the first freed again. The second
      grown to 512 bytes moves back into the free chunk; the header of what is left over lands in the middle
      of its old payload, and the line that was stored there is not what the new block holds. */
  method LostLineExample(block: Block)
    returns (pool: AllocPool, p: int, r: Option<int>, ghost before: PoolView, ghost after: PoolView)
    requires block.Memory? && GoodBlock(map[], block, 1024)
    ensures fresh(pool) && after == View(pool) && r.Some?
    ensures p in before.chunks && before.chunks[p].inUse && p + 128 in before.mem
    ensures before.mem[p + 128] == Line(0, 0, 0, 0) && HeaderHits(before.chunks, p, RequestToSize(480))
    ensures var q := r.value - HEADER;
      && ReallocEffect(p, q, RequestToSize(480), before.mem, before.chunks, after.mem, after.chunks)
      && q + 128 in after.mem && after.mem[q + 128].prevSize == 513
      && !PayloadKept(p, q, before.mem, before.chunks, after.mem, after.chunks)
    ensures InOrder(before) && InOrder(after)
  {
    hide PoolInv, Evolves, AllocEffect, FreeEffect, NoFit, NoPick, FirstPick, HeaderHits, FreeLeft, FreeRight, LostLine;
    hide ReallocEffect, PayloadKept;
    var created := NewPool(1024, 0, block);
    pool := created.value;
    ghost var a := AreaChunk(block.ptr);
    p := Prepare(pool, a);
    SecondHit(pool.chunks, a);
    assert a + 512 in pool.mem by { LineMapped(pool, a); }
    pool.Store(p, 128, Line(0, 0, 0, 0));
    before := View(pool);
    r := pool.Realloc(p + HEADER, 480, NoMemory);
    after := View(pool);
  }

  /** The pool up to the second block, which it returns. */
  method Prepare(pool: AllocPool, ghost a: int) returns (second: int)
    requires pool.Valid() && pool.Configured() && pool.mAreaMoreSize == 0 && pool.mAreas != [] && One(pool.chunks, a)
    requires a >= FIRST_ADDRESS
    modifies pool
    ensures pool.Valid() && pool.mAreas == old(pool.mAreas) && pool.areaSize == old(pool.areaSize)
    ensures second == a + 384 && Four(pool.chunks, a, false)
  {
    hide PoolInv, Evolves, AllocEffect, FreeEffect, NoPick, FirstPick, BestFit, ShortChange;
    ghost var m, c, areas := pool.mem, pool.chunks, pool.areaSize;
    assert !NoFit(c, 384) by { assert c[a].size >= 384; }
    var r1 := pool.Alloc(352, NoMemory);
    FirstCut(c, a, r1.value - HEADER, pool.GrowSize(384), m, areas, pool.mem, pool.chunks, pool.areaSize);
    m, c := pool.mem, pool.chunks;
    assert !NoFit(c, 384) by { assert c[a + 384].size >= 384; }
    var r2 := pool.Alloc(352, NoMemory);
    SecondCut(c, a, r2.value - HEADER, pool.GrowSize(384), m, areas, pool.mem, pool.chunks, pool.areaSize);
    m, c := pool.mem, pool.chunks;
    assert !NoFit(c, 128) by { assert c[a + 768].size >= 128; }
    var r3 := pool.Alloc(96, NoMemory);
    ThirdCut(c, a, r3.value - HEADER, pool.GrowSize(128), m, areas, pool.mem, pool.chunks, pool.areaSize);
    m, c := pool.mem, pool.chunks;
    pool.Free(r1.value);
    FirstFreed(c, a, m, areas, pool.mem, pool.chunks, pool.areaSize);
    second := r2.value - HEADER;
  }

  lemma LineMapped(pool: AllocPool, a: int)
    requires pool.Valid() && Four(pool.chunks, a, false)
    ensures a + 512 in pool.mem
  {
    hide BinsOk, Binned, Tagged, Coalesced;
    ShapeGrid(pool.areaSize, pool.chunks, a);
    GridLine(a, 512);
    InsideMapped(pool.mem, pool.areaSize, pool.chunks, a + 384, a + 512);
  }
}

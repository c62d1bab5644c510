/** A new area entering the pool: NewArea. */
module Growing {
  import opened Bins
  import opened BinBlocks
  import opened Rings
  import opened Layout
  import opened FreeLists
  import opened PoolState

  const AREA_OVERHEAD := HEADER + 2 * HEADER + ALIGN // kAreaOverhead

  /** What the area callback returns: null, or a block of memory with whatever it holds. */
  datatype Block = NoMemory | Memory(ptr: int, lines: Mem)

  /** The callback hands over at least n + kAreaOverhead bytes that neither the pool object nor any of
      its areas uses. */
  ghost predicate GoodBlock(areas: Areas, b: Block, n: int) {
    b.Memory? ==>
      && b.ptr >= FIRST_ADDRESS
      && (forall a :: a in areas ==> End(areas, a) + HEADER <= b.ptr || b.ptr + n + AREA_OVERHEAD <= a - HEADER)
      && (forall x :: x in b.lines ==> b.ptr <= x < b.ptr + n + AREA_OVERHEAD)
      && (forall x :: b.ptr <= x < b.ptr + n + AREA_OVERHEAD && x % HEADER == 0 ==> x in b.lines)
  }

  /** The first chunk of the area: the block is aligned up, and the area header comes first. */
  function AreaChunk(ptr: int): int {
    (ptr + 63) / ALIGN * ALIGN + HEADER
  }

  /** The area is the first aligned one in the block, and with its header and end marker it fits. */
  lemma AreaFits(ptr: int, n: int)
    requires n % ALIGN == 0
    ensures var a := AreaChunk(ptr);
      && a % ALIGN == HEADER && ptr <= a - HEADER < ptr + ALIGN
      && a + n + HEADER < ptr + n + AREA_OVERHEAD && (a + n) % HEADER == 0
  {
  }

  function FormatArea(m: Mem, a: int, n: int): Mem
    requires a in m && a + n in m
  {
    SetSizeFree(SetNeighborsInUse(BeEmpty(m, a), a, n), a, n)
  }

  ghost function AddedChunks(c: Chunks, a: int, n: int): Chunks {
    c[a := Chunk(n, false, a)]
  }

  /** The range [a - header, a + n + header) is clear of all areas. */
  ghost predicate Clear(areas: Areas, a: int, n: int) {
    forall b :: b in areas ==> End(areas, b) + HEADER <= a - HEADER || a + n + HEADER <= b - HEADER
  }

  lemma ClearOfChunk(areas: Areas, c: Chunks, a: int, n: int, p: int)
    requires Shape(areas, c) && MIN_ALLOC <= n && Clear(areas, a, n) && p in c
    ensures ChunkOk(areas, p, c[p]) && c[p].area != a
    ensures p + c[p].size <= a - 2 * HEADER || a + n + 2 * HEADER <= p
  {
    assert ChunkOk(areas, p, c[p]);
  }

  lemma AddShape(areas: Areas, c: Chunks, a: int, n: int)
    requires Shape(areas, c) && Coalesced(c) && MIN_ALLOC <= n < INT31 && OnGrid(a, n) && FIRST_ADDRESS <= a - HEADER
    requires Clear(areas, a, n)
    ensures Shape(areas[a := n], AddedChunks(c, a, n)) && Coalesced(AddedChunks(c, a, n))
    ensures a !in areas && a !in c && a + n !in c
  {
    hide OnGrid;
    var areas', c' := areas[a := n], AddedChunks(c, a, n);
    if a in c { ClearOfChunk(areas, c, a, n, a); }
    if a + n in c { ClearOfChunk(areas, c, a, n, a + n); }
    AddTiled(areas, c, a, n);
    forall b, d | b in areas' && d in areas'
      ensures AreasApart(areas', b, d)
    {
      assert AreasApart(areas, b, d);
    }
    forall b | b in areas'
      ensures OnGrid(b, areas'[b])
    {
      if b != a { assert OnGrid(b, areas[b]); }
    }
    forall p | p in c'
      ensures OnGrid(p, c'[p].size)
    {
      if p != a { assert OnGrid(p, c[p].size); }
    }
    forall p | p in c' && !c'[p].inUse && p + c'[p].size in c'
      ensures c'[p + c'[p].size].inUse
    {
      if p != a { ClearOfChunk(areas, c, a, n, p); }
    }
  }

  lemma AddTiled(areas: Areas, c: Chunks, a: int, n: int)
    requires Shape(areas, c) && MIN_ALLOC <= n && a !in c && a !in areas && Clear(areas, a, n)
    ensures Tiled(areas[a := n], AddedChunks(c, a, n))
  {
    hide OnGrid;
    var areas', c' := areas[a := n], AddedChunks(c, a, n);
    forall p | p in c'
      ensures ChunkOk(areas', p, c'[p]) && NextOk(areas', c', p)
    {
      if p != a {
        assert NextOk(areas, c, p);
        ClearOfChunk(areas, c, a, n, p);
      }
    }
    forall p, q | p in c' && q in c'
      ensures Apart(c', p, q)
    {
      assert Apart(c, p, q);
      if p != a { ClearOfChunk(areas, c, a, n, p); }
      if q != a { ClearOfChunk(areas, c, a, n, q); }
    }
  }

  /** Lines of the existing areas are unaffected by the new block. */
  lemma OldLines(m: Mem, areas: Areas, c: Chunks, b: Block, a: int, n: int, x: int)
    requires GoodBlock(areas, b, n) && b.Memory? && a == AreaChunk(b.ptr) && n % ALIGN == 0 && n > 0
    requires a in m + b.lines && a + n in m + b.lines
    requires x in m && (x < FIRST_ADDRESS || exists d :: d in areas && InsideArea(areas, d, x))
    ensures x in FormatArea(m + b.lines, a, n) && FormatArea(m + b.lines, a, n)[x] == m[x]
  {
    AreaFits(b.ptr, n);
    hide AreaChunk, FormatArea;
    AreaWritten(m + b.lines, a, n);
    if x >= FIRST_ADDRESS {
      var d :| d in areas && InsideArea(areas, d, x);
      assert End(areas, d) + HEADER <= b.ptr || b.ptr + n + AREA_OVERHEAD <= d - HEADER;
    }
    assert x !in b.lines;
  }

  lemma ChunkInArea(areas: Areas, c: Chunks, p: int, x: int)
    requires Shape(areas, c) && p in c && p <= x <= p + c[p].size
    ensures c[p].area in areas && InsideArea(areas, c[p].area, x)
  {
    assert ChunkOk(areas, p, c[p]);
  }

  lemma AddTagged(m: Mem, areas: Areas, c: Chunks, b: Block, a: int, n: int)
    requires Shape(areas, c) && Tagged(m, areas, c) && GoodBlock(areas, b, n) && b.Memory? && a == AreaChunk(b.ptr)
    requires n % ALIGN == 0
    requires a in m + b.lines && a + n in m + b.lines && a !in c && a !in areas && n > 0
    ensures Tagged(FormatArea(m + b.lines, a, n), areas[a := n], AddedChunks(c, a, n))
  {
    hide FormatArea, GoodBlock, Shape, AreaChunk;
    var m', areas', c' := FormatArea(m + b.lines, a, n), areas[a := n], AddedChunks(c, a, n);
    AreaWritten(m + b.lines, a, n);
    forall p | p in c'
      ensures ChunkTags(m', p, c'[p]) && HasPrev(m', areas', c', p)
    {
      if p != a {
        assert ChunkTags(m, p, c[p]) && HasPrev(m, areas, c, p);
        assert c[p].size >= 0 by { assert Tiled(areas, c) by { ShapeTiled(areas, c); } assert ChunkOk(areas, p, c[p]); }
        ChunkInArea(areas, c, p, p);
        ChunkInArea(areas, c, p, p + c[p].size);
        OldLines(m, areas, c, b, a, n, p);
        OldLines(m, areas, c, b, a, n, p + c[p].size);
      }
    }
    forall d | d in areas'
      ensures AreaTags(m', d, End(areas', d))
    {
      if d != a {
        assert AreaTags(m, d, End(areas, d));
        assert areas[d] >= 0 by { AreaPositive(areas, c, d); }
        assert InsideArea(areas, d, d) && InsideArea(areas, d, End(areas, d));
        OldLines(m, areas, c, b, a, n, d);
        OldLines(m, areas, c, b, a, n, End(areas, d));
      }
    }
  }

  lemma ShapeTiled(areas: Areas, c: Chunks)
    requires Shape(areas, c)
    ensures Tiled(areas, c)
  {
  }

  lemma AreaPositive(areas: Areas, c: Chunks, d: int)
    requires Shape(areas, c) && d in areas
    ensures areas[d] >= 0
  {
  }

  lemma AreaWritten(m: Mem, a: int, n: int)
    requires a in m && a + n in m && n > 0
    ensures var m' := FormatArea(m, a, n);
      && m'.Keys == m.Keys && m'[a].size == n && m'[a].prevSize == 1 && m'[a + n].prevSize == n && m'[a + n].size == 1
      && (forall x :: x in m && x != a && x != a + n ==> m'[x] == m[x])
  {
  }

  lemma AddBins(m: Mem, blocks: seq<nat>, areas: Areas, c: Chunks, rings: seq<seq<int>>, b: Block, a: int, n: int)
    requires Shape(areas, c) && BinsOk(m, blocks, rings) && Binned(c, rings, {})
    requires GoodBlock(areas, b, n) && b.Memory? && a == AreaChunk(b.ptr) && n % ALIGN == 0 && 0 < n
    requires a in m + b.lines && a + n in m + b.lines
    ensures BinsOk(FormatArea(m + b.lines, a, n), blocks, rings)
  {
    hide BinIndex, BinIndex2, Marked, Shape, GoodBlock, FormatArea, AreaChunk;
    var m' := FormatArea(m + b.lines, a, n);
    forall i: nat | i < NUM_BINS
      ensures BinOk(m', i, rings[i])
    {
      assert BinOk(m, i, rings[i]);
      OldLines(m, areas, c, b, a, n, BinHead(i));
      forall x | x in rings[i]
        ensures x in m && SameLinks(m, m', x) && m'[x].size == m[x].size
      {
        assert FreeIn(c, {}, x);
        AreaPositiveChunk(areas, c, x);
        ChunkInArea(areas, c, x, x);
        OldLines(m, areas, c, b, a, n, x);
      }
      BinFrame(m, m', i, rings[i]);
    }
  }

  lemma AreaPositiveChunk(areas: Areas, c: Chunks, p: int)
    requires Shape(areas, c) && p in c
    ensures c[p].size >= MIN_ALLOC
  {
    assert ChunkOk(areas, p, c[p]);
  }

  lemma AddEvolves(m: Mem, areas: Areas, c: Chunks, b: Block, a: int, n: int)
    requires Shape(areas, c) && GoodBlock(areas, b, n) && b.Memory? && a == AreaChunk(b.ptr) && n % ALIGN == 0 && n > 0
    requires a in m + b.lines && a + n in m + b.lines && a !in c
    ensures Evolves(m, c, FormatArea(m + b.lines, a, n), AddedChunks(c, a, n), {}, {})
  {
    hide FormatArea, GoodBlock, Shape, AreaChunk;
    var m', c' := FormatArea(m + b.lines, a, n), AddedChunks(c, a, n);
    forall q | q in c && c[q].inUse && q !in {}
      ensures Kept(m, c, m', c', q)
    {
      forall y | y in m && q < y < q + c[q].size
        ensures y in m' && m'[y] == m[y]
      {
        ChunkInArea(areas, c, q, y);
        OldLines(m, areas, c, b, a, n, y);
      }
    }
  }

  lemma AddMapped(m: Mem, areas: Areas, b: Block, a: int, n: int)
    requires AreasOk(areas) && Mapped(m, areas) && GoodBlock(areas, b, n) && b.Memory? && a == AreaChunk(b.ptr)
    requires n % ALIGN == 0 && 0 < n
    ensures a in m + b.lines && a + n in m + b.lines
    ensures Mapped(FormatArea(m + b.lines, a, n), areas[a := n])
  {
    hide FormatArea, AreaChunk, AreasOk;
    NewLines(areas, b, a, n);
    hide GoodBlock;
    AreaWritten(m + b.lines, a, n);
    var m' := FormatArea(m + b.lines, a, n);
    var areas' := areas[a := n];
    forall d, x | d in areas' && d - HEADER <= x <= End(areas', d) && x % HEADER == 0
      ensures x in m'
    {
      if d != a { assert d in areas && x in m; }
    }
  }

  lemma NewLines(areas: Areas, b: Block, a: int, n: int)
    requires GoodBlock(areas, b, n) && b.Memory? && a == AreaChunk(b.ptr) && n % ALIGN == 0 && 0 < n
    ensures a % HEADER == 0 && (a + n) % HEADER == 0
    ensures forall x :: a - HEADER <= x <= a + n && x % HEADER == 0 ==> x in b.lines
  {
    AreaFits(b.ptr, n);
    hide AreaChunk;
    assert a % HEADER == 0;
  }

  lemma BlockClear(areas: Areas, b: Block, a: int, n: int)
    requires GoodBlock(areas, b, n) && b.Memory? && a == AreaChunk(b.ptr) && n % ALIGN == 0 && 0 < n
    ensures Clear(areas, a, n) && FIRST_ADDRESS <= a - HEADER && OnGrid(a, n)
  {
    AreaFits(b.ptr, n);
    hide AreaChunk;
  }

  lemma ShapeAreas(areas: Areas, c: Chunks)
    requires Shape(areas, c)
    ensures AreasOk(areas)
  {
  }

  /** The new area is one free chunk, not linked yet; everything else is as before. */
  lemma AddArea(m: Mem, blocks: seq<nat>, list: seq<int>, areas: Areas, c: Chunks, rings: seq<seq<int>>, b: Block,
                a: int, n: int)
    requires PoolInv(m, blocks, list, areas, c, rings)
    requires GoodBlock(areas, b, n) && b.Memory? && a == AreaChunk(b.ptr) && n % ALIGN == 0 && MIN_ALLOC <= n < INT31
    ensures a in m + b.lines && a + n in m + b.lines && a !in c && a !in areas
    ensures Unsettled(FormatArea(m + b.lines, a, n), blocks, [a] + list, areas[a := n], AddedChunks(c, a, n), rings, a)
    ensures Evolves(m, c, FormatArea(m + b.lines, a, n), AddedChunks(c, a, n), {}, {})
  {
    hide AreaChunk, BinIndex, BinIndex2, BinsOk, Tagged, Coalesced;
    hide Shape, FormatArea, Evolves, GoodBlock, Mapped, OnGrid, Clear;
    BlockClear(areas, b, a, n);
    assert AreasOk(areas) by { ShapeAreas(areas, c); }
    AddMapped(m, areas, b, a, n);
    AddShape(areas, c, a, n);
    AddTagged(m, areas, c, b, a, n);
    AddBins(m, blocks, areas, c, rings, b, a, n);
    AddEvolves(m, areas, c, b, a, n);
    var c' := AddedChunks(c, a, n);
    forall i: nat, x | i < NUM_BINS && x in rings[i]
      ensures FreeIn(c', {a}, x)
    {
      assert FreeIn(c, {}, x);
    }
    forall p | FreeIn(c', {a}, p)
      ensures InBin(c', rings, p)
    {
      assert FreeIn(c, {}, p) && InBin(c, rings, p);
    }
  }

  /** The effect of NewArea. */
  ghost predicate Grown(m: Mem, c: Chunks, areas: Areas, m': Mem, c': Chunks, areas': Areas, a: int, n: int) {
    && a !in areas && a !in c && areas' == areas[a := n] && c' == AddedChunks(c, a, n)
    && Evolves(m, c, m', c', {}, {})
  }
}

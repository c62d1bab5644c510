/** How chunks tile the areas of a pool, and how the boundary tags in memory describe that tiling.

    A chunk is named by the address of its header; `chunks` maps it to its size, its in-use flag and
    the area it lies in. An area is named by the address of its first chunk. The area header line sits
    just below that address and the end marker (a header line of size 0, always in use) just after the
    area's bytes. */
module Layout {
  import opened Bins
  import opened Rings

  datatype Chunk = Chunk(size: int, inUse: bool, area: int)

  type Chunks = map<int, Chunk>
  type Areas = map<int, int>

  /** The pool object, with the 128 bin heads, lies below this address and all areas above it. */
  const FIRST_ADDRESS := 8192
  const BINS_BASE := 4096

  function BinHead(i: nat): int {
    BINS_BASE + HEADER * i
  }

  // ---------- tag words ----------

  /** inSize | kChunkInUse, or inSize */
  function TagWord(size: int, inUse: bool): int {
    if inUse then size + 1 else size
  }

  function Tag(c: Chunk): int {
    TagWord(c.size, c.inUse)
  }

  /** w & kChunkInUse */
  predicate InUseBit(w: int) {
    w % 2 == 1
  }

  /** w & kSizeBits */
  function SizeBits(w: int): int {
    w - w % 2
  }

  /** A tag word of an aligned size gives back the size and the flag. */
  lemma TagRead(size: int, inUse: bool)
    requires size % ALIGN == 0
    ensures SizeBits(TagWord(size, inUse)) == size
    ensures InUseBit(TagWord(size, inUse)) <==> inUse
  {
  }

  // ---------- areas and tiling ----------

  function End(areas: Areas, a: int): int
    requires a in areas
  {
    a + areas[a]
  }

  ghost predicate AreasOk(areas: Areas) {
    && (forall a :: a in areas ==> FIRST_ADDRESS <= a - HEADER && MIN_ALLOC <= areas[a] < INT31)
    && (forall a, b {:trigger AreasApart(areas, a, b)} :: a in areas && b in areas ==> AreasApart(areas, a, b))
  }

  /** Headers and end markers included, the bytes of the lower area end before those of the higher one. */
  ghost predicate AreasApart(areas: Areas, a: int, b: int) {
    a in areas && b in areas && a < b ==> End(areas, a) + HEADER <= b - HEADER
  }

  ghost predicate ChunkOk(areas: Areas, p: int, c: Chunk) {
    && c.size >= MIN_ALLOC
    && c.area in areas && c.area <= p && p + c.size <= End(areas, c.area)
  }

  /** Chunks fill every area from its first address to its end without gap or overlap. */
  ghost predicate Tiled(areas: Areas, c: Chunks) {
    && (forall p {:trigger ChunkOk(areas, p, c[p])} :: p in c ==> ChunkOk(areas, p, c[p]))
    && (forall p, q {:trigger Apart(c, p, q)} :: p in c && q in c ==> Apart(c, p, q))
    && (forall a :: a in areas ==> a in c)
    && (forall p {:trigger NextOk(areas, c, p)} :: p in c ==> NextOk(areas, c, p))
  }

  ghost predicate Apart(c: Chunks, p: int, q: int) {
    p in c && q in c && p < q ==> p + c[p].size <= q
  }

  /** The chunk at p ends at a boundary. */
  ghost predicate NextOk(areas: Areas, c: Chunks, p: int) {
    p in c ==> Boundary(areas, c, c[p].area, p + c[p].size)
  }

  /** e is the end of the area or the start of another of its chunks. */
  ghost predicate Boundary(areas: Areas, c: Chunks, area: int, e: int) {
    area in areas && (e == End(areas, area) || (e in c && c[e].area == area))
  }

  /** A block of size bytes at p keeps the 64-byte grid: sizes are multiples of it and payloads, which
      start one header after p, are aligned to it. */
  ghost predicate OnGrid(p: int, size: int) {
    p % ALIGN == HEADER && size % ALIGN == 0
  }

  ghost predicate Aligned(areas: Areas, c: Chunks) {
    && (forall p {:trigger OnGrid(p, c[p].size)} :: p in c ==> OnGrid(p, c[p].size))
    && (forall a {:trigger OnGrid(a, areas[a])} :: a in areas ==> OnGrid(a, areas[a]))
  }

  ghost predicate Shape(areas: Areas, c: Chunks) {
    AreasOk(areas) && Aligned(areas, c) && Tiled(areas, c)
  }

  /** No two free chunks touch. */
  ghost predicate Coalesced(c: Chunks) {
    forall p :: p in c && !c[p].inUse && p + c[p].size in c ==> c[p + c[p].size].inUse
  }

  // ---------- boundary tags ----------

  function PrevOf(m: Mem, p: int): int
    requires p in m
  {
    p - SizeBits(m[p].prevSize)
  }

  ghost predicate ChunkTags(m: Mem, p: int, c: Chunk) {
    && p in m && m[p].size == Tag(c)
    && p + c.size in m && m[p + c.size].prevSize == Tag(c)
  }

  ghost predicate AreaTags(m: Mem, a: int, e: int) {
    && a in m && m[a].prevSize == 1
    && e in m && m[e].size == 1
  }

  ghost predicate HasPrev(m: Mem, areas: Areas, c: Chunks, p: int) {
    p in areas || (p in m && PrevOf(m, p) in c && PrevOf(m, p) + c[PrevOf(m, p)].size == p)
  }

  /** The headers in memory describe exactly the chunks. */
  ghost predicate Tagged(m: Mem, areas: Areas, c: Chunks) {
    && (forall p {:trigger ChunkTags(m, p, c[p])} :: p in c ==> ChunkTags(m, p, c[p]))
    && (forall p {:trigger HasPrev(m, areas, c, p)} :: p in c ==> HasPrev(m, areas, c, p))
    && (forall a {:trigger AreaTags(m, a, End(areas, a))} :: a in areas ==> AreaTags(m, a, End(areas, a)))
  }

  /** Every line of every area, headers and end marker included, is memory the pool owns. */
  ghost predicate Mapped(m: Mem, areas: Areas) {
    forall a, x :: a in areas && a - HEADER <= x <= End(areas, a) && x % HEADER == 0 ==> x in m
  }

  // ---------- facts about areas ----------

  lemma SameArea(areas: Areas, a: int, b: int, x: int)
    requires AreasOk(areas) && a in areas && b in areas
    requires a <= x <= End(areas, a) && b <= x <= End(areas, b)
    ensures a == b
  {
    assert AreasApart(areas, a, b) && AreasApart(areas, b, a);
  }

  /** Looking forward from a chunk: the next boundary is a chunk of the same area or the end marker. */
  lemma NextOf(m: Mem, areas: Areas, c: Chunks, p: int)
    requires Shape(areas, c) && Tagged(m, areas, c) && p in c
    ensures c[p].area in areas && p in m
    ensures var e := p + c[p].size;
      && e in m && m[p].size == Tag(c[p]) && m[e].prevSize == Tag(c[p])
      && (e in c ==> c[e].area == c[p].area && m[e].size == Tag(c[e]))
      && (e !in c ==> e == End(areas, c[p].area) && m[e].size == 1)
      && (InUseBit(m[e].size) <==> (e in c ==> c[e].inUse))
      && (m[e].size == 1 <==> e !in c)
  {
    var e := p + c[p].size;
    assert ChunkTags(m, p, c[p]) && ChunkOk(areas, p, c[p]);
    if e in c {
      assert ChunkTags(m, e, c[e]) && ChunkOk(areas, e, c[e]) && OnGrid(e, c[e].size);
      TagRead(c[e].size, c[e].inUse);
      SameArea(areas, c[e].area, c[p].area, e);
    } else {
      assert NextOk(areas, c, p);
      assert AreaTags(m, c[p].area, End(areas, c[p].area));
    }
  }

  /** Looking backward from a chunk: its prevSize tag is 1 at the start of an area, else it is the tag of
      the chunk just before. */
  lemma PrevTag(m: Mem, areas: Areas, c: Chunks, p: int)
    requires Shape(areas, c) && Tagged(m, areas, c) && p in c
    ensures p in m
    ensures p in areas ==> m[p].prevSize == 1 && c[p].area == p
    ensures p !in areas ==> var q := PrevOf(m, p);
      q in c && q + c[q].size == p && m[p].prevSize == Tag(c[q]) && c[q].area == c[p].area
    ensures p !in areas ==> m[p].prevSize != 1
  {
    assert ChunkTags(m, p, c[p]);
    assert ChunkOk(areas, p, c[p]);
    if p in areas {
      assert AreaTags(m, p, End(areas, p));
      SameArea(areas, p, c[p].area, p);
    } else {
      assert HasPrev(m, areas, c, p);
      var q := PrevOf(m, p);
      assert ChunkTags(m, q, c[q]);
      assert ChunkOk(areas, q, c[q]);
      SameArea(areas, c[q].area, c[p].area, p);
    }
  }

  /** Only one chunk ends at a given address. */
  lemma PrevUnique(areas: Areas, c: Chunks, p: int, q: int)
    requires Tiled(areas, c) && p in c && q in c
    requires p + c[p].size == q + c[q].size
    ensures p == q
  {
    assert ChunkOk(areas, p, c[p]) && ChunkOk(areas, q, c[q]);
    assert Apart(c, p, q) && Apart(c, q, p);
  }

  /** A chunk start, other than itself, is never inside a chunk. */
  lemma NotInside(areas: Areas, c: Chunks, p: int, q: int)
    requires Tiled(areas, c) && p in c && q in c
    ensures !(q < p < q + c[q].size)
  {
    assert Apart(c, q, p);
  }

  // ---------- replacing a run of chunks ----------

  /** [a, e) is a run of whole chunks of one area. */
  ghost predicate Run(areas: Areas, c: Chunks, a: int, e: int) {
    a in c && a < e && Boundary(areas, c, c[a].area, e) && e <= End(areas, c[a].area)
  }

  ghost function Outside(c: Chunks, a: int, e: int): Chunks {
    map p | p in c && !(a <= p < e) :: c[p]
  }

  /** The run [a, e) becomes one chunk of s bytes and, if s is less than the run, a second with the rest. */
  ghost function Splice(c: Chunks, a: int, e: int, s: int, u1: bool, u2: bool): Chunks
    requires a in c
  {
    var one := Outside(c, a, e)[a := Chunk(s, u1, c[a].area)];
    if a + s == e then one else one[a + s := Chunk(e - a - s, u2, c[a].area)]
  }

  ghost predicate SpliceSize(a: int, e: int, s: int) {
    s >= MIN_ALLOC && (s == e - a || s <= e - a - MIN_ALLOC)
  }

  /** Chunks starting in a run end in it. */
  lemma InRun(areas: Areas, c: Chunks, a: int, e: int, p: int)
    requires AreasOk(areas) && Tiled(areas, c) && Run(areas, c, a, e) && p in c && a <= p < e
    ensures p + c[p].size <= e && c[p].area == c[a].area
  {
    assert ChunkOk(areas, p, c[p]) && ChunkOk(areas, a, c[a]);
    SameArea(areas, c[p].area, c[a].area, p);
    assert Apart(c, p, e);
  }

  lemma RunArea(areas: Areas, c: Chunks, a: int, e: int)
    requires AreasOk(areas) && Tiled(areas, c) && Run(areas, c, a, e)
    ensures c[a].area in areas && c[a].area <= a
    ensures e - a >= MIN_ALLOC
  {
    assert ChunkOk(areas, a, c[a]);
    InRun(areas, c, a, e, a);
  }

  lemma RunAligned(areas: Areas, c: Chunks, a: int, e: int)
    requires Aligned(areas, c) && Run(areas, c, a, e)
    ensures OnGrid(a, e - a)
  {
    assert OnGrid(a, c[a].size);
    if e in c {
      assert OnGrid(e, c[e].size);
    } else {
      assert OnGrid(c[a].area, areas[c[a].area]);
    }
  }

  lemma GridCut(a: int, n: int, s: int)
    requires OnGrid(a, n) && s % ALIGN == 0
    ensures OnGrid(a, s) && OnGrid(a + s, n - s)
  {
  }

  lemma SpliceAligned(areas: Areas, c: Chunks, a: int, e: int, s: int, u1: bool, u2: bool)
    requires Aligned(areas, c) && Run(areas, c, a, e) && SpliceSize(a, e, s) && s % ALIGN == 0
    ensures Aligned(areas, Splice(c, a, e, s, u1, u2))
  {
    var c' := Splice(c, a, e, s, u1, u2);
    RunAligned(areas, c, a, e);
    GridCut(a, e - a, s);
    hide OnGrid;
    forall p | p in c'
      ensures OnGrid(p, c'[p].size)
    {
      if !(a <= p < e) { assert OnGrid(p, c[p].size); }
    }
  }

  lemma SpliceTiled(areas: Areas, c: Chunks, a: int, e: int, s: int, u1: bool, u2: bool)
    requires AreasOk(areas) && Tiled(areas, c) && Run(areas, c, a, e) && SpliceSize(a, e, s)
    ensures Tiled(areas, Splice(c, a, e, s, u1, u2))
  {
    var c' := Splice(c, a, e, s, u1, u2);
    RunArea(areas, c, a, e);
    forall p | p in c'
      ensures ChunkOk(areas, p, c'[p])
    {
      if p in c { assert ChunkOk(areas, p, c[p]); }
    }
    forall p, q | p in c' && q in c'
      ensures Apart(c', p, q)
    {
      SpliceApart(areas, c, a, e, s, u1, u2, p, q);
    }
    forall b | b in areas
      ensures b in c'
    {
      if a < b < e {
        assert ChunkOk(areas, a, c[a]);
        SameArea(areas, b, c[a].area, b);
      }
    }
    forall p | p in c'
      ensures NextOk(areas, c', p)
    {
      SpliceNext(areas, c, a, e, s, u1, u2, p);
    }
  }

  lemma SpliceApart(areas: Areas, c: Chunks, a: int, e: int, s: int, u1: bool, u2: bool, p: int, q: int)
    requires Tiled(areas, c) && Run(areas, c, a, e) && SpliceSize(a, e, s)
    requires p in Splice(c, a, e, s, u1, u2) && q in Splice(c, a, e, s, u1, u2)
    ensures Apart(Splice(c, a, e, s, u1, u2), p, q)
  {
    assert Apart(c, p, q) && Apart(c, p, a);
  }

  lemma SpliceNext(areas: Areas, c: Chunks, a: int, e: int, s: int, u1: bool, u2: bool, p: int)
    requires Tiled(areas, c) && Run(areas, c, a, e) && SpliceSize(a, e, s)
    requires p in Splice(c, a, e, s, u1, u2)
    ensures NextOk(areas, Splice(c, a, e, s, u1, u2), p)
  {
    if !(a <= p < e) {
      assert NextOk(areas, c, p) && ChunkOk(areas, p, c[p]);
      assert Apart(c, p, a);
    }
  }

  /** m' differs from m, in its tags, only by what SetSize writes for the one or two chunks of a splice. */
  ghost predicate TagsWritten(m: Mem, m': Mem, a: int, e: int, s: int, u1: bool, u2: bool) {
    && m'.Keys == m.Keys && a in m && a + s in m && e in m
    && m'[a].size == TagWord(s, u1) && m'[a + s].prevSize == TagWord(s, u1)
    && (a + s != e ==> m'[a + s].size == TagWord(e - a - s, u2) && m'[e].prevSize == TagWord(e - a - s, u2))
    && (forall x :: x in m && x != a && !(x == a + s && a + s != e) ==> m'[x].size == m[x].size)
    && (forall x :: x in m && x != a + s && x != e ==> m'[x].prevSize == m[x].prevSize)
  }

  lemma SpliceTagged(m: Mem, m': Mem, areas: Areas, c: Chunks, a: int, e: int, s: int, u1: bool, u2: bool)
    requires Shape(areas, c) && Tagged(m, areas, c)
    requires Run(areas, c, a, e) && SpliceSize(a, e, s)
    requires s % ALIGN == 0 && TagsWritten(m, m', a, e, s, u1, u2)
    ensures Tagged(m', areas, Splice(c, a, e, s, u1, u2))
  {
    var c' := Splice(c, a, e, s, u1, u2);
    RunArea(areas, c, a, e);
    forall p | p in c'
      ensures ChunkTags(m', p, c'[p])
    {
      if !(a <= p < e) {
        assert ChunkTags(m, p, c[p]);
        assert ChunkOk(areas, p, c[p]);
        assert Apart(c, p, a);
      }
    }
    forall p | p in c'
      ensures HasPrev(m', areas, c', p)
    {
      if p !in areas { SpliceHasPrev(m, m', areas, c, a, e, s, u1, u2, p); }
    }
    forall b | b in areas
      ensures AreaTags(m', b, End(areas, b))
    {
      SpliceAreaTags(m, m', areas, c, a, e, s, u1, u2, b);
    }
  }

  lemma SpliceHasPrev(m: Mem, m': Mem, areas: Areas, c: Chunks, a: int, e: int, s: int, u1: bool, u2: bool, p: int)
    requires Shape(areas, c) && Tagged(m, areas, c)
    requires Run(areas, c, a, e) && SpliceSize(a, e, s)
    requires s % ALIGN == 0 && TagsWritten(m, m', a, e, s, u1, u2)
    requires p in Splice(c, a, e, s, u1, u2) && p !in areas
    ensures HasPrev(m', areas, Splice(c, a, e, s, u1, u2), p)
  {
    var c' := Splice(c, a, e, s, u1, u2);
    RunArea(areas, c, a, e);
    RunAligned(areas, c, a, e);
    assert (e - a - s) % ALIGN == 0;
    TagRead(s, u1);
    TagRead(e - a - s, u2);
    if a < p < e {
      assert p == a + s && PrevOf(m', p) == a;
    } else if p == e {
      assert PrevOf(m', p) == if a + s == e then a else a + s;
    } else {
      PrevTag(m, areas, c, p);
      var q := PrevOf(m, p);
      assert PrevOf(m', p) == q;
      assert ChunkOk(areas, q, c[q]);
      if a <= q < e { InRun(areas, c, a, e, q); }
    }
  }

  lemma SpliceAreaTags(m: Mem, m': Mem, areas: Areas, c: Chunks, a: int, e: int, s: int, u1: bool, u2: bool, b: int)
    requires Shape(areas, c) && Tagged(m, areas, c)
    requires Run(areas, c, a, e) && SpliceSize(a, e, s)
    requires TagsWritten(m, m', a, e, s, u1, u2)
    requires b in areas
    ensures AreaTags(m', b, End(areas, b))
  {
    assert AreaTags(m, b, End(areas, b));
    assert ChunkOk(areas, a, c[a]);
    var area := c[a].area;
    if a < b <= e { SameArea(areas, area, b, b); }
    var end := End(areas, b);
    if a <= end < e { SameArea(areas, area, b, end); }
  }

  /** Splicing keeps free chunks apart when the new free chunks touch no other free chunk. */
  lemma SpliceCoalesced(areas: Areas, c: Chunks, a: int, e: int, s: int, u1: bool, u2: bool)
    requires AreasOk(areas) && Tiled(areas, c) && Coalesced(c) && Run(areas, c, a, e) && SpliceSize(a, e, s)
    requires !u1 ==> forall q :: q in c && q + c[q].size == a ==> c[q].inUse
    requires a + s != e ==> u1 || u2
    requires !(if a + s == e then u1 else u2) && e in c ==> c[e].inUse
    ensures Coalesced(Splice(c, a, e, s, u1, u2))
  {
    var c' := Splice(c, a, e, s, u1, u2);
    RunArea(areas, c, a, e);
    hide AreasOk;
    forall p | p in c' && !c'[p].inUse && p + c'[p].size in c'
      ensures c'[p + c'[p].size].inUse
    {
      if !(a <= p < e) { assert ChunkOk(areas, p, c[p]); }
      assert Apart(c, p, a);
    }
  }
}

/** Conservation of space: what the chunks of a pool add up to. Sums run over addresses below a bound
    `top` that lies above everything in the pool, with a weight for each address. */
module Accounting {
  import opened Bins
  import opened Rings
  import opened Layout
  import opened FreeLists
  import opened PoolState
  import opened Resetting

  ghost function Sum(weight: int -> int, top: nat): int {
    if top == 0 then 0 else Sum(weight, top - 1) + weight(top - 1)
  }

  ghost function FreeWeight(c: Chunks): int -> int {
    x => if x in c && !c[x].inUse then c[x].size else 0
  }

  ghost function LiveWeight(c: Chunks): int -> int {
    x => if x in c && c[x].inUse then c[x].size else 0
  }

  ghost function AreaWeight(areas: Areas): int -> int {
    x => if x in areas then areas[x] else 0
  }

  ghost predicate Above(c: Chunks, areas: Areas, top: int) {
    && (forall p :: p in c ==> 0 <= p < top)
    && (forall a :: a in areas ==> 0 <= a < top && End(areas, a) < top)
  }

  lemma {:induction false} SumZero(f: int -> int, top: nat)
    requires forall x :: 0 <= x < top ==> f(x) == 0
    ensures Sum(f, top) == 0
  {
    if top > 0 { SumZero(f, top - 1); }
  }

  lemma {:induction false} SumEqual(f: int -> int, g: int -> int, top: nat)
    requires forall x :: 0 <= x < top ==> f(x) == g(x)
    ensures Sum(f, top) == Sum(g, top)
  {
    if top > 0 { SumEqual(f, g, top - 1); }
  }

  lemma {:induction false} SumAdd(f: int -> int, g: int -> int, h: int -> int, top: nat)
    requires forall x :: 0 <= x < top ==> h(x) == f(x) + g(x)
    ensures Sum(h, top) == Sum(f, top) + Sum(g, top)
  {
    if top > 0 { SumAdd(f, g, h, top - 1); }
  }

  /** Changing the weight of one address changes the sum by as much. */
  lemma {:induction false} SumPoint(f: int -> int, g: int -> int, p: int, top: nat)
    requires 0 <= p < top && forall x :: 0 <= x < top && x != p ==> f(x) == g(x)
    ensures Sum(f, top) == Sum(g, top) + f(p) - g(p)
  {
    if p == top - 1 { SumEqual(f, g, top - 1); } else { SumPoint(f, g, p, top - 1); }
  }

  /** What the sums count: nothing in an empty pool, and each chunk or area with its size. */
  lemma SumsCount(c: Chunks, areas: Areas, p: int, k: Chunk, n: int, top: nat)
    requires 0 <= p < top
    ensures Sum(FreeWeight(map[]), top) == Sum(LiveWeight(map[]), top) == Sum(AreaWeight(map[]), top) == 0
    ensures p !in c ==>
      && Sum(FreeWeight(c[p := k]), top) == Sum(FreeWeight(c), top) + (if k.inUse then 0 else k.size)
      && Sum(LiveWeight(c[p := k]), top) == Sum(LiveWeight(c), top) + (if k.inUse then k.size else 0)
    ensures p !in areas ==> Sum(AreaWeight(areas[p := n]), top) == Sum(AreaWeight(areas), top) + n
  {
    SumZero(FreeWeight(map[]), top);
    SumZero(LiveWeight(map[]), top);
    SumZero(AreaWeight(map[]), top);
    SumPoint(FreeWeight(c[p := k]), FreeWeight(c), p, top);
    SumPoint(LiveWeight(c[p := k]), LiveWeight(c), p, top);
    SumPoint(AreaWeight(areas[p := n]), AreaWeight(areas), p, top);
  }

  // ---------- chunks fill their areas ----------

  /** The space an area still lacks when its chunks below x are counted: x - 1 lies in the chunk p. */
  ghost predicate Covers(c: Chunks, p: int, x: int) {
    p in c && p < x <= p + c[p].size
  }

  ghost predicate Uncovered(c: Chunks, x: int) {
    forall p :: !Covers(c, p, x)
  }

  ghost predicate InArea(areas: Areas, c: Chunks, p: int, x: nat)
    requires p in c
  {
    && c[p].area in areas
    && Sum(FreeWeight(c), x) + Sum(LiveWeight(c), x) - Sum(AreaWeight(areas), x)
      == p + c[p].size - End(areas, c[p].area)
  }

  /** Counting addresses upwards, the free and live chunks and the areas run in step: they differ by what
      the current chunk leaves of its area, and agree between areas. */
  lemma {:induction false} InStep(m: Mem, areas: Areas, c: Chunks, x: nat)
    requires Shape(areas, c) && Tagged(m, areas, c)
    ensures forall p :: Covers(c, p, x) ==> InArea(areas, c, p, x)
    ensures Uncovered(c, x) ==> Sum(FreeWeight(c), x) + Sum(LiveWeight(c), x) == Sum(AreaWeight(areas), x)
  {
    hide Shape, Tagged;
    if x == 0 {
      NothingBelow(areas, c);
    } else {
      var y := x - 1;
      InStep(m, areas, c, y);
      if y in c {
        AtStart(m, areas, c, y);
        forall p | Covers(c, p, x)
          ensures p == y
        {
          OneCover(areas, c, p, y, x);
        }
        assert Covers(c, y, x);
      } else {
        assert y !in areas by { StartsAreChunks(areas, c, y); }
        Between(m, areas, c, y, x);
      }
    }
  }

  lemma NothingBelow(areas: Areas, c: Chunks)
    requires Shape(areas, c)
    ensures Uncovered(c, 0)
  {
    assert forall p :: p in c ==> ChunkOk(areas, p, c[p]);
  }

  lemma NothingAbove(areas: Areas, c: Chunks, top: nat)
    requires Shape(areas, c) && Above(c, areas, top)
    ensures Uncovered(c, top)
  {
    assert forall p :: p in c ==> ChunkOk(areas, p, c[p]);
  }

  lemma OneCover(areas: Areas, c: Chunks, p: int, q: int, x: int)
    requires Shape(areas, c) && Covers(c, p, x) && Covers(c, q, x)
    ensures p == q
  {
    assert Apart(c, p, q) && Apart(c, q, p);
  }

  lemma StartsAreChunks(areas: Areas, c: Chunks, y: int)
    requires Shape(areas, c) && y !in c
    ensures y !in areas
  {
  }

  /** Where a chunk starts, either its area starts or the chunk before ends. */
  lemma AtStart(m: Mem, areas: Areas, c: Chunks, y: int)
    requires Shape(areas, c) && Tagged(m, areas, c) && y in c
    ensures c[y].area in areas && c[y].size > 0 && Covers(c, y, y + 1)
    ensures y in areas ==> c[y].area == y && Uncovered(c, y)
    ensures y !in areas ==> exists q :: Covers(c, q, y) && q + c[q].size == y && c[q].area == c[y].area
  {
    assert ChunkOk(areas, y, c[y]);
    PrevTag(m, areas, c, y);
    if y in areas {
      FirstUncovered(areas, c, y);
    } else {
      var q := PrevOf(m, y);
      assert ChunkOk(areas, q, c[q]);
      assert Covers(c, q, y);
    }
  }

  /** No chunk reaches the start of an area from below. */
  lemma FirstUncovered(areas: Areas, c: Chunks, y: int)
    requires Shape(areas, c) && y in areas
    ensures Uncovered(c, y)
  {
    forall p | p in c
      ensures !Covers(c, p, y)
    {
      assert ChunkOk(areas, p, c[p]);
      if Covers(c, p, y) { SameArea(areas, c[p].area, y, y); }
    }
  }

  /** Where no chunk starts, the same chunk goes on, or its area has just ended, or there is none. */
  lemma Between(m: Mem, areas: Areas, c: Chunks, y: int, x: int)
    requires Shape(areas, c) && y !in c && x == y + 1
    ensures forall p :: Covers(c, p, x) ==> Covers(c, p, y)
    ensures forall p :: Covers(c, p, y) && !Covers(c, p, x) ==>
      c[p].area in areas && p + c[p].size == End(areas, c[p].area) && Uncovered(c, x)
  {
    forall p | Covers(c, p, y) && !Covers(c, p, x)
      ensures c[p].area in areas && p + c[p].size == End(areas, c[p].area) && Uncovered(c, x)
    {
      assert NextOk(areas, c, p) && ChunkOk(areas, p, c[p]);
      assert forall q :: q in c ==> Apart(c, p, q);
      assert forall q :: q in c ==> Apart(c, q, p);
    }
  }

  /** Conservation: in every state of the pool, free and live chunk sizes together are the area sizes. */
  lemma Conservation(m: Mem, blocks: seq<nat>, list: seq<int>, areas: Areas, c: Chunks, rings: seq<seq<int>>, top: nat)
    requires PoolInv(m, blocks, list, areas, c, rings) && Above(c, areas, top)
    ensures Sum(FreeWeight(c), top) + Sum(LiveWeight(c), top) == Sum(AreaWeight(areas), top)
  {
    hide BinsOk, Binned, Coalesced, Tagged, Mapped, Shape;
    InStep(m, areas, c, top);
    NothingAbove(areas, c, top);
  }

  /** When no block is live, every area is one free chunk again. */
  lemma AllFreed(areas: Areas, c: Chunks)
    requires Shape(areas, c) && Coalesced(c) && forall p :: p in c ==> !c[p].inUse
    ensures c == AllFree(areas)
  {
    forall p | p in c
      ensures p in areas && c[p] == AllFree(areas)[p]
    {
      assert ChunkOk(areas, p, c[p]);
      var a := c[p].area;
      assert a in c && ChunkOk(areas, a, c[a]) && NextOk(areas, c, a);
      SameArea(areas, a, c[a].area, a);
      assert a + c[a].size == End(areas, a);
      assert Apart(c, a, p);
    }
    assert c.Keys == AllFree(areas).Keys;
  }

  // ---------- sums along the bins ----------

  ghost function TotalSeq(c: Chunks, s: seq<int>): int {
    if s == [] then 0 else (if s[0] in c then c[s[0]].size else 0) + TotalSeq(c, s[1..])
  }

  ghost function SeqWeight(c: Chunks, s: seq<int>): int -> int {
    x => if x in s && x in c then c[x].size else 0
  }

  lemma {:induction false} TotalOfSeq(c: Chunks, s: seq<int>, top: nat)
    requires NoDup(s) && forall x :: x in s ==> x in c && 0 <= x < top
    ensures TotalSeq(c, s) == Sum(SeqWeight(c, s), top)
  {
    if s == [] {
      SumZero(SeqWeight(c, s), top);
    } else {
      assert s[0] in s;
      assert s == [s[0]] + s[1..];
      SumPoint(SeqWeight(c, s), SeqWeight(c, s[1..]), s[0], top);
      TotalOfSeq(c, s[1..], top);
    }
  }

  /** Free chunks in the first i bins. */
  ghost function BelowWeight(c: Chunks, i: nat): int -> int {
    x => if x in c && !c[x].inUse && c[x].size >= 0 && BinIndex(c[x].size) < i then c[x].size else 0
  }

  lemma BinAdds(areas: Areas, c: Chunks, rings: seq<seq<int>>, i: nat, top: nat)
    requires Shape(areas, c) && Binned(c, rings, {}) && i < NUM_BINS && NoDup(rings[i]) && Above(c, areas, top)
    requires forall x :: x in rings[i] && x in c && c[x].size >= 0 ==> BinIndex(c[x].size) == i
    ensures Sum(BelowWeight(c, i + 1), top) == Sum(BelowWeight(c, i), top) + TotalSeq(c, rings[i])
  {
    hide BinIndex, BinIndex2, Shape;
    var s := rings[i];
    forall x | x in s
      ensures x in c && !c[x].inUse && c[x].size >= 0
    {
      assert FreeIn(c, {}, x);
      ShapeChunk(areas, c, x);
    }
    TotalOfSeq(c, s, top);
    forall x | 0 <= x < top
      ensures BelowWeight(c, i + 1)(x) == BelowWeight(c, i)(x) + SeqWeight(c, s)(x)
    {
      if x in c && !c[x].inUse {
        assert FreeIn(c, {}, x) && InBin(c, rings, x);
      }
    }
    SumAdd(BelowWeight(c, i), SeqWeight(c, s), BelowWeight(c, i + 1), top);
  }

  lemma AllBelow(areas: Areas, c: Chunks, top: nat)
    requires Shape(areas, c)
    ensures Sum(BelowWeight(c, 0), top) == 0 && Sum(BelowWeight(c, NUM_BINS), top) == Sum(FreeWeight(c), top)
  {
    hide BinIndex2, Shape;
    SumZero(BelowWeight(c, 0), top);
    forall x | 0 <= x < top
      ensures BelowWeight(c, NUM_BINS)(x) == FreeWeight(c)(x)
    {
      if x in c { ShapeChunk(areas, c, x); }
    }
    SumEqual(BelowWeight(c, NUM_BINS), FreeWeight(c), top);
  }
}

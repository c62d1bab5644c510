/** Starting over: empty bins, and areas formatted as single free chunks. */
module Resetting {
  import opened Bins
  import opened Bits
  import opened BinBlocks
  import opened Rings
  import opened Layout
  import opened FreeLists
  import opened PoolState

  ghost function NoRings(): seq<seq<int>> {
    seq(NUM_BINS, i => [])
  }

  ghost predicate HeadsMapped(m: Mem) {
    forall i: nat {:trigger BinHead(i)} :: i < NUM_BINS ==> BinHead(i) in m
  }

  /** Words of zero mark nothing. */
  lemma ZeroBlocks(blocks: seq<nat>, i: nat)
    requires blocks == [0, 0, 0, 0] && i < NUM_BINS
    ensures Words(blocks) && !Marked(blocks, i)
  {
    assert blocks[i / 32] == 0;
    NoHighBit(0, 0, i % 32);
  }

  lemma EmptyBinsOk(m: Mem, blocks: seq<nat>)
    requires HeadsMapped(m) && blocks == [0, 0, 0, 0]
    requires forall i: nat {:trigger BinHead(i)} :: i < NUM_BINS ==>
      m[BinHead(i)].next == m[BinHead(i)].prev == BinHead(i)
    ensures BinsOk(m, blocks, NoRings())
  {
    hide Marked;
    ZeroBlocks(blocks, 0);
    forall i: nat | i < NUM_BINS
      ensures BinOk(m, i, NoRings()[i]) && !Marked(blocks, i)
    {
      ZeroBlocks(blocks, i);
      assert BinHead(i) in m;
    }
  }

  /** Every area is one free chunk. */
  ghost function AllFree(areas: Areas): Chunks {
    map a | a in areas :: Chunk(areas[a], false, a)
  }

  lemma AllFreeShape(areas: Areas, c: Chunks)
    requires Shape(areas, c)
    ensures Shape(areas, AllFree(areas)) && Coalesced(AllFree(areas))
  {
    var c' := AllFree(areas);
    forall p | p in c'
      ensures OnGrid(p, c'[p].size) && ChunkOk(areas, p, c'[p]) && NextOk(areas, c', p)
    {
      assert OnGrid(p, areas[p]);
    }
    forall p, q | p in c' && q in c'
      ensures Apart(c', p, q) && p + c'[p].size != q
    {
      assert AreasApart(areas, p, q) && AreasApart(areas, q, p);
    }
  }

  /** The first k areas of the list are formatted in memory and linked. */
  ghost predicate Formatted(m: Mem, areas: Areas, list: seq<int>, k: int, rings: seq<seq<int>>) {
    && 0 <= k <= |list| && |rings| == NUM_BINS
    && (forall j {:trigger list[j]} :: 0 <= j < k ==>
          list[j] in areas && AreaFormatted(m, list[j], areas[list[j]]) && list[j] in rings[BinOf(areas, list[j])])
    && (forall i: nat, x {:trigger x in rings[i]} :: i < NUM_BINS && x in rings[i] ==> x in list[..k])
  }

  ghost function BinOf(areas: Areas, a: int): (i: nat)
    requires a in areas
    ensures i < NUM_BINS
  {
    if areas[a] >= 0 then BinIndex(areas[a]) else 0
  }

  ghost predicate AreaFormatted(m: Mem, a: int, n: int) {
    && a in m && a + n in m && m[a].size == n && m[a].prevSize == 1 && m[a + n].prevSize == n && m[a + n].size == 1
  }

  lemma AllFormatted(m: Mem, blocks: seq<nat>, list: seq<int>, areas: Areas, c: Chunks, rings: seq<seq<int>>)
    requires Shape(areas, c) && Mapped(m, areas) && AreaList(list, areas) && BinsOk(m, blocks, rings)
    requires Formatted(m, areas, list, |list|, rings)
    ensures PoolInv(m, blocks, list, areas, AllFree(areas), rings)
  {
    hide BinsOk, BinIndex, BinIndex2;
    AllFreeShape(areas, c);
    hide Shape, Coalesced;
    var c' := AllFree(areas);
    assert list[..|list|] == list;
    forall a | a in areas
      ensures AreaFormatted(m, a, areas[a]) && a in rings[BinOf(areas, a)]
    {
      assert a in list;
      var j :| 0 <= j < |list| && list[j] == a;
    }
    forall p | p in c'
      ensures ChunkTags(m, p, c'[p]) && HasPrev(m, areas, c', p)
    {
    }
    forall a | a in areas
      ensures AreaTags(m, a, End(areas, a))
    {
    }
    forall p | FreeIn(c', {}, p)
      ensures InBin(c', rings, p)
    {
      assert ChunkOk(areas, p, c'[p]) by { ShapeChunk(areas, c', p); }
    }
    forall i: nat, x | i < NUM_BINS && x in rings[i]
      ensures FreeIn(c', {}, x)
    {
      assert x in list;
    }
  }

  lemma ShapeChunk(areas: Areas, c: Chunks, p: int)
    requires Shape(areas, c) && p in c
    ensures ChunkOk(areas, p, c[p]) && OnGrid(p, c[p].size) && c[p].area in areas && p >= FIRST_ADDRESS
  {
    assert ChunkOk(areas, p, c[p]) && OnGrid(p, c[p].size);
  }

  /** Formatting the header and the end marker of one more area. */
  lemma FormatOne(m: Mem, m1: Mem, blocks: seq<nat>, list: seq<int>, areas: Areas, c: Chunks, rings: seq<seq<int>>,
                  k: nat)
    requires Shape(areas, c) && Mapped(m, areas) && AreaList(list, areas) && k < |list|
    requires BinsOk(m, blocks, rings) && Formatted(m, areas, list, k, rings)
    requires var a := list[k]; var n := areas[a];
      a in m && a + n in m && m1 == SetNeighborsInUse(SetSizeFree(m, a, n), a, n)
    ensures BinsOk(m1, blocks, rings) && Formatted(m1, areas, list, k, rings)
    ensures AreaFormatted(m1, list[k], areas[list[k]])
    ensures Member(m1, BinOf(areas, list[k]), list[k]) && list[k] !in rings[BinOf(areas, list[k])]
    ensures m1[list[k]].size == areas[list[k]] >= 0
  {
    hide BinIndex, BinIndex2, Marked;
    var a := list[k];
    var n := areas[a];
    assert a in list && OnGrid(a, n);
    forall i: nat, x | i < NUM_BINS && x in rings[i]
      ensures x != a && x != a + n && x in list
    {
      var j :| 0 <= j < k && list[j] == x;
      assert list[j] in list && list[k] in list;
      assert AreasApart(areas, x, a) && AreasApart(areas, a, x);
    }
    BinsFrame(m, m1, blocks, rings);
    forall j | 0 <= j < k
      ensures AreaFormatted(m1, list[j], areas[list[j]])
    {
      var b := list[j];
      assert b in list;
      assert AreaFormatted(m, b, areas[b]);
      assert AreasApart(areas, b, a) && AreasApart(areas, a, b);
    }
  }

  lemma LinkOne(m1: Mem, m2: Mem, list: seq<int>, areas: Areas, rings: seq<seq<int>>, k: nat, pos: nat)
    requires k < |list| && Formatted(m1, areas, list, k, rings) && list[k] in areas
    requires AreaFormatted(m1, list[k], areas[list[k]])
    requires SameTags(m1, m2) && pos <= |rings[BinOf(areas, list[k])]|
    ensures var i := BinOf(areas, list[k]);
      Formatted(m2, areas, list, k + 1, rings[i := Inserted(rings[i], pos, list[k])])
  {
    hide BinOf;
    var i, x := BinOf(areas, list[k]), list[k];
    var rings2 := rings[i := Inserted(rings[i], pos, x)];
    assert list[..k + 1] == list[..k] + [x];
    assert x in rings2[i];
    forall j | 0 <= j < k + 1
      ensures list[j] in areas && AreaFormatted(m2, list[j], areas[list[j]]) && list[j] in rings2[BinOf(areas, list[j])]
    {
      if j < k { assert AreaFormatted(m1, list[j], areas[list[j]]) && list[j] in rings[BinOf(areas, list[j])]; }
    }
    forall h: nat, y | h < NUM_BINS && y in rings2[h]
      ensures y in list[..k + 1]
    {
      if y != x { assert y in rings[h]; }
    }
  }

  /** A pool with no area. */
  lemma NoAreas(m: Mem, blocks: seq<nat>)
    requires BinsOk(m, blocks, NoRings())
    ensures PoolInv(m, blocks, [], map[], map[], NoRings())
  {
    hide BinsOk;
  }
}

/** The 128 bins of free chunks: each a ring of chunk headers in pool memory, ordered by size, with a
    bitmap that marks the non-empty ones. Everything here reads sizes from memory. */
module FreeLists {
  import opened Bins
  import opened BinBlocks
  import opened Rings
  import opened Layout

  /** x is a header in an area whose tag says it is free, of a size that belongs in bin i. */
  ghost predicate Member(m: Mem, i: nat, x: int) {
    && x in m && x >= FIRST_ADDRESS
    && m[x].size >= 0 && m[x].size % ALIGN == 0 && BinIndex(m[x].size) == i
  }

  /** Sizes do not grow along mNext: the smallest chunk of a bin is at bin->Prev(). */
  ghost predicate Descending(m: Mem, s: seq<int>) {
    forall j, k :: 0 <= j < k < |s| && s[j] in m && s[k] in m ==> m[s[j]].size >= m[s[k]].size
  }

  ghost predicate BinOk(m: Mem, i: nat, s: seq<int>) {
    && Ring(m, BinHead(i), s)
    && (forall x {:trigger Member(m, i, x)} :: x in s ==> Member(m, i, x))
    && Descending(m, s)
  }

  ghost predicate BinsOk(m: Mem, blocks: seq<nat>, rings: seq<seq<int>>) {
    && |rings| == NUM_BINS && Words(blocks)
    && (forall i: nat {:trigger BinOk(m, i, rings[i])} :: i < NUM_BINS ==> BinOk(m, i, rings[i]))
    && (forall i: nat {:trigger Marked(blocks, i)} :: i < NUM_BINS ==> (Marked(blocks, i) <==> rings[i] != []))
  }

  /** A bin is unaffected by writes outside its head and its members, and by writes that keep tags. */
  lemma BinFrame(m: Mem, m': Mem, i: nat, s: seq<int>)
    requires BinOk(m, i, s)
    requires SameLinks(m, m', BinHead(i))
    requires forall x :: x in s ==> x in m && SameLinks(m, m', x) && m'[x].size == m[x].size
    ensures BinOk(m', i, s)
  {
    RingFrame(m, m', BinHead(i), s);
    forall x | x in s
      ensures Member(m', i, x)
    {
      assert Member(m, i, x);
    }
    forall j, k | 0 <= j < k < |s| && s[j] in m' && s[k] in m'
      ensures m'[s[j]].size >= m'[s[k]].size
    {
      assert s[j] in s && s[k] in s;
    }
  }

  /** Bins are disjoint: a member of bin i is no other bin's member and no bin's head. */
  lemma OneBin(m: Mem, i: nat, j: nat, s: seq<int>, x: int)
    requires i < NUM_BINS && j < NUM_BINS && BinOk(m, j, s) && Member(m, i, x)
    ensures x != BinHead(j)
    ensures i != j ==> x !in s
  {
    if x in s { assert Member(m, j, x); }
  }

  lemma HeadNotMember(m: Mem, i: nat, s: seq<int>, j: nat)
    requires BinOk(m, i, s) && j < NUM_BINS
    ensures BinHead(j) !in s
  {
    assert BinHead(j) in s ==> Member(m, i, BinHead(j));
  }

  /** Rewriting the ring of bin i leaves every other bin intact. */
  lemma OtherBin(m: Mem, m': Mem, blocks: seq<nat>, rings: seq<seq<int>>, i: nat, x: int, j: nat)
    requires BinsOk(m, blocks, rings) && i < NUM_BINS && j < NUM_BINS && i != j && Member(m, i, x)
    requires SameTags(m, m')
    requires forall y :: y in m && y != x && y != BinHead(i) && y !in rings[i] ==> m'[y] == m[y]
    ensures BinOk(m', j, rings[j])
  {
    assert BinOk(m, i, rings[i]) && BinOk(m, j, rings[j]);
    forall y | y in rings[j]
      ensures y in m && SameLinks(m, m', y) && m'[y].size == m[y].size
    {
      assert Member(m, j, y);
      OneBin(m, j, i, rings[i], y);
    }
    HeadNotMember(m, i, rings[i], j);
    BinFrame(m, m', j, rings[j]);
  }

  lemma LinkKeeps(m: Mem, m': Mem, blocks: seq<nat>, blocks': seq<nat>, rings: seq<seq<int>>, i: nat, k: nat, x: int)
    requires BinsOk(m, blocks, rings) && i < NUM_BINS && k <= |rings[i]| && Member(m, i, x)
    requires SameTags(m, m') && Ring(m', BinHead(i), Inserted(rings[i], k, x))
    requires forall y :: y in m && y != x && y != BinHead(i) && y !in rings[i] ==> m'[y] == m[y]
    requires Words(blocks') && forall j: nat :: j < NUM_BINS ==> (Marked(blocks', j) <==> j == i || Marked(blocks, j))
    requires forall j :: 0 <= j < k && rings[i][j] in m ==> m[rings[i][j]].size >= m[x].size
    requires forall j :: k <= j < |rings[i]| && rings[i][j] in m ==> m[rings[i][j]].size <= m[x].size
    ensures BinsOk(m', blocks', rings[i := Inserted(rings[i], k, x)])
  {
    var s := rings[i];
    var t := Inserted(s, k, x);
    var rings' := rings[i := t];
    assert BinOk(m, i, s);
    assert BinOk(m', i, t) by {
      forall y | y in t
        ensures Member(m', i, y)
      {
        if y != x { assert y in s && Member(m, i, y); }
      }
      InsertDescending(m, m', s, k, x);
    }
    forall j: nat | j < NUM_BINS
      ensures BinOk(m', j, rings'[j])
    {
      if j != i { OtherBin(m, m', blocks, rings, i, x, j); }
    }
  }

  lemma InsertDescending(m: Mem, m': Mem, s: seq<int>, k: nat, x: int)
    requires k <= |s| && Descending(m, s) && SameTags(m, m') && x in m
    requires forall j :: 0 <= j < k && s[j] in m ==> m[s[j]].size >= m[x].size
    requires forall j :: k <= j < |s| && s[j] in m ==> m[s[j]].size <= m[x].size
    ensures Descending(m', Inserted(s, k, x))
  {
    var t := Inserted(s, k, x);
    forall a, b | 0 <= a < b < |t| && t[a] in m' && t[b] in m'
      ensures m'[t[a]].size >= m'[t[b]].size
    {
      var a' := if a < k then a else a - 1;
      var b' := if b < k then b else b - 1;
      if a != k { assert t[a] == s[a']; }
      if b != k { assert t[b] == s[b']; }
    }
  }

  lemma UnlinkKeeps(m: Mem, m': Mem, blocks: seq<nat>, blocks': seq<nat>, rings: seq<seq<int>>, i: nat, k: nat)
    requires BinsOk(m, blocks, rings) && i < NUM_BINS && k < |rings[i]|
    requires SameTags(m, m') && Ring(m', BinHead(i), Removed(rings[i], k))
    requires forall y :: y in m && y != BinHead(i) && y !in rings[i] ==> m'[y] == m[y]
    requires Words(blocks')
    requires forall j: nat :: j < NUM_BINS ==>
      (Marked(blocks', j) <==> Marked(blocks, j) && !(j == i && Removed(rings[i], k) == []))
    ensures BinsOk(m', blocks', rings[i := Removed(rings[i], k)])
  {
    var s := rings[i];
    var t := Removed(s, k);
    var rings' := rings[i := t];
    assert BinOk(m, i, s);
    assert BinOk(m', i, t) by {
      forall y | y in t
        ensures Member(m', i, y)
      {
        assert y in s && Member(m, i, y);
      }
      forall a, b | 0 <= a < b < |t| && t[a] in m' && t[b] in m'
        ensures m'[t[a]].size >= m'[t[b]].size
      {
        var a' := if a < k then a else a + 1;
        var b' := if b < k then b else b + 1;
        assert t[a] == s[a'] && t[b] == s[b'];
      }
    }
    assert s[k] in s && Member(m, i, s[k]);
    forall j: nat | j < NUM_BINS
      ensures BinOk(m', j, rings'[j])
    {
      if j != i { OtherBin(m, m', blocks, rings, i, s[k], j); }
    }
    forall j: nat | j < NUM_BINS
      ensures Marked(blocks', j) <==> rings'[j] != []
    {
      assert Marked(blocks, j) <==> rings[j] != [];
    }
  }
}

/** The circular doubly linked list `Link<T>` of SC_List.h, whose nodes live in pool memory.

    Memory is an array of 32-byte lines, indexed by byte address; a line is four 64-bit words. An
    `AllocChunk` header fills exactly one line: mNext, mPrev, mPrevSize, mSize. Every other line is
    payload and its words are user data. `Ring(m, h, s)` says that following mNext from the list head
    h visits exactly the nodes of s and returns to h, and that mPrev is the reverse walk. */
module Rings {

  datatype Line = Line(next: int, prev: int, prevSize: int, size: int)

  type Mem = map<int, Line>

  ghost predicate NoDup(s: seq<int>) {
    forall i, j :: 0 <= i < j < |s| ==> s[i] != s[j]
  }

  ghost predicate Ring(m: Mem, h: int, s: seq<int>) {
    && h in m && h !in s && NoDup(s)
    && (forall x :: x in s ==> x in m)
    && m[h].next == (if s == [] then h else s[0])
    && m[h].prev == (if s == [] then h else s[|s| - 1])
    && (s != [] ==> m[s[0]].prev == h && m[s[|s| - 1]].next == h)
    && (forall i, j :: 0 <= i && j == i + 1 && j < |s| ==> m[s[i]].next == s[j] && m[s[j]].prev == s[i])
  }

  /** m and m' hold the same list links at x. */
  ghost predicate SameLinks(m: Mem, m': Mem, x: int) {
    x in m ==> x in m' && m'[x].next == m[x].next && m'[x].prev == m[x].prev
  }

  /** m and m' hold the same boundary tags everywhere. */
  ghost predicate SameTags(m: Mem, m': Mem) {
    && m'.Keys == m.Keys
    && forall x :: x in m ==> m'[x].size == m[x].size && m'[x].prevSize == m[x].prevSize
  }

  lemma RingFrame(m: Mem, m': Mem, h: int, s: seq<int>)
    requires Ring(m, h, s)
    requires SameLinks(m, m', h)
    requires forall x :: x in s ==> SameLinks(m, m', x)
    ensures Ring(m', h, s)
  {
    assert forall i :: 0 <= i < |s| ==> s[i] in s && SameLinks(m, m', s[i]);
  }

  /** Memory and head determine the list. */
  lemma RingUnique(m: Mem, h: int, s: seq<int>, t: seq<int>)
    requires Ring(m, h, s) && Ring(m, h, t)
    ensures s == t
  {
    SamePrefix(m, h, s, t, if |s| < |t| then |s| else |t|);
  }

  lemma {:induction false} SamePrefix(m: Mem, h: int, s: seq<int>, t: seq<int>, k: nat)
    requires Ring(m, h, s) && Ring(m, h, t) && k <= |s| && k <= |t|
    ensures s[..k] == t[..k] && (k == |s| <==> k == |t|)
  {
    if k > 0 {
      SamePrefix(m, h, s, t, k - 1);
      assert s[k - 1] == t[k - 1] by {
        if k > 1 {
          assert m[s[k - 2]].next == s[k - 1] && m[t[k - 2]].next == t[k - 1];
          assert s[..k - 1][k - 2] == t[..k - 1][k - 2];
        }
      }
      assert s[..k] == s[..k - 1] + [s[k - 1]] && t[..k] == t[..k - 1] + [t[k - 1]];
      var x := s[k - 1];
      assert m[x].next == (if k == |s| then h else s[k]);
      assert m[x].next == (if k == |t| then h else t[k]);
    }
  }

  // ---------- the operations, as they rewrite memory ----------

  function BeEmpty(m: Mem, x: int): Mem
    requires x in m
  {
    m[x := m[x].(next := x, prev := x)]
  }

  function RemoveLeaveDangling(m: Mem, x: int): Mem
    requires x in m && m[x].prev in m && m[x].next in m
  {
    var m1 := m[m[x].prev := m[m[x].prev].(next := m[x].next)];
    m1[m1[x].next := m1[m1[x].next].(prev := m1[x].prev)]
  }

  function Remove(m: Mem, x: int): Mem
    requires x in m && m[x].prev in m && m[x].next in m
  {
    BeEmpty(RemoveLeaveDangling(m, x), x)
  }

  function InsertAfter(m: Mem, x: int, l: int): Mem
    requires x in m && l in m && m[l].next in m
  {
    var m1 := m[x := m[x].(prev := l)];
    var m2 := m1[x := m1[x].(next := m1[l].next)];
    var m3 := m2[m2[x].next := m2[m2[x].next].(prev := x)];
    m3[m3[x].prev := m3[m3[x].prev].(next := x)]
  }

  function InsertBefore(m: Mem, x: int, l: int): Mem
    requires x in m && l in m && m[l].prev in m
  {
    var m1 := m[x := m[x].(next := l)];
    var m2 := m1[x := m1[x].(prev := m1[l].prev)];
    var m3 := m2[m2[x].next := m2[m2[x].next].(prev := x)];
    m3[m3[x].prev := m3[m3[x].prev].(next := x)]
  }

  function Cat(m: Mem, h: int, l: int): Mem
    requires h in m && l in m && m[h].prev in m && m[l].next in m && m[l].prev in m
  {
    if m[l].next == l then m
    else if m[h].next == h then
      var m1 := m[h := m[h].(next := m[l].next)];
      var m2 := m1[h := m1[h].(prev := m1[l].prev)];
      var m3 := m2[m2[l].next := m2[m2[l].next].(prev := h)];
      var m4 := m3[m3[l].prev := m3[m3[l].prev].(next := h)];
      BeEmpty(m4, l)
    else
      var m1 := m[m[l].next := m[m[l].next].(prev := m[h].prev)];
      var m2 := m1[m1[l].prev := m1[m1[l].prev].(next := h)];
      var m3 := m2[m2[h].prev := m2[m2[h].prev].(next := m2[l].next)];
      var m4 := m3[h := m3[h].(prev := m3[l].prev)];
      BeEmpty(m4, l)
  }

  // ---------- what they do to the list ----------

  /** The node before position k of the list, and the node at position k; the head closes the ring. */
  function Before(h: int, s: seq<int>, k: nat): int
    requires k <= |s|
  {
    if k == 0 then h else s[k - 1]
  }

  function At(h: int, s: seq<int>, k: nat): int
    requires k <= |s|
  {
    if k == |s| then h else s[k]
  }

  function Inserted(s: seq<int>, k: nat, x: int): seq<int>
    requires k <= |s|
  {
    s[..k] + [x] + s[k..]
  }

  function Removed(s: seq<int>, k: nat): seq<int>
    requires k < |s|
  {
    s[..k] + s[k + 1..]
  }

  lemma AtLinks(m: Mem, h: int, s: seq<int>, k: nat)
    requires Ring(m, h, s) && k <= |s|
    ensures Before(h, s, k) in m && At(h, s, k) in m
    ensures m[Before(h, s, k)].next == At(h, s, k) && m[At(h, s, k)].prev == Before(h, s, k)
  {
    if 0 < k < |s| { assert m[s[k - 1]].next == s[k]; }
  }

  /** Linking x between two neighbours inserts it into the list. */
  lemma SpliceIn(m: Mem, m': Mem, h: int, s: seq<int>, k: nat, x: int)
    requires Ring(m, h, s) && k <= |s|
    requires x in m && x != h && x !in s
    requires m'.Keys == m.Keys
    requires m'[x].next == At(h, s, k) && m'[x].prev == Before(h, s, k)
    requires m'[Before(h, s, k)].next == x && m'[At(h, s, k)].prev == x
    requires forall y :: y in m && y != x && y != Before(h, s, k) ==> m'[y].next == m[y].next
    requires forall y :: y in m && y != x && y != At(h, s, k) ==> m'[y].prev == m[y].prev
    ensures Ring(m', h, Inserted(s, k, x))
  {
    var t := Inserted(s, k, x);
    forall i, j | 0 <= i && j == i + 1 && j < |t|
      ensures m'[t[i]].next == t[j] && m'[t[j]].prev == t[i]
    {
      if j < k {
        assert t[i] == s[i] && t[j] == s[j];
      } else if i > k {
        assert t[i] == s[i - 1] && t[j] == s[j - 1];
      }
    }
  }

  lemma InsertAfterRefines(m: Mem, h: int, s: seq<int>, k: nat, x: int)
    requires Ring(m, h, s) && k <= |s|
    requires x in m && x != h && x !in s
    ensures Before(h, s, k) in m && m[Before(h, s, k)].next in m
    ensures var m' := InsertAfter(m, x, Before(h, s, k));
      Ring(m', h, Inserted(s, k, x)) && SameTags(m, m') &&
      forall y :: y in m && y != x && y != h && y !in s ==> m'[y] == m[y]
  {
    AtLinks(m, h, s, k);
    var m' := InsertAfter(m, x, Before(h, s, k));
    SpliceIn(m, m', h, s, k, x);
  }

  lemma InsertBeforeRefines(m: Mem, h: int, s: seq<int>, k: nat, x: int)
    requires Ring(m, h, s) && k <= |s|
    requires x in m && x != h && x !in s
    ensures At(h, s, k) in m && m[At(h, s, k)].prev in m
    ensures var m' := InsertBefore(m, x, At(h, s, k));
      Ring(m', h, Inserted(s, k, x)) && SameTags(m, m') &&
      forall y :: y in m && y != x && y != h && y !in s ==> m'[y] == m[y]
  {
    AtLinks(m, h, s, k);
    var m' := InsertBefore(m, x, At(h, s, k));
    SpliceIn(m, m', h, s, k, x);
  }

  lemma RemoveRefines(m: Mem, h: int, s: seq<int>, k: nat)
    requires Ring(m, h, s) && k < |s|
    ensures s[k] in m && m[s[k]].prev in m && m[s[k]].next in m
    ensures var m' := RemoveLeaveDangling(m, s[k]);
      Ring(m', h, Removed(s, k)) && SameTags(m, m') &&
      forall y :: y in m && y != h && y !in s ==> m'[y] == m[y]
  {
    var x := s[k];
    AtLinks(m, h, s, k);
    AtLinks(m, h, s, k + 1);
    var m' := RemoveLeaveDangling(m, x);
    var t := Removed(s, k);
    forall i, j | 0 <= i && j == i + 1 && j < |t|
      ensures m'[t[i]].next == t[j] && m'[t[j]].prev == t[i]
    {
      if j < k {
        assert t[i] == s[i] && t[j] == s[j];
      } else if i >= k {
        assert t[i] == s[i + 1] && t[j] == s[j + 1];
      } else {
        assert t[i] == s[k - 1] && t[j] == s[k + 1];
      }
    }
  }

  /** A removed node is the head of an empty list again. */
  lemma RemoveDetaches(m: Mem, h: int, s: seq<int>, k: nat)
    requires Ring(m, h, s) && k < |s|
    ensures s[k] in m && m[s[k]].prev in m && m[s[k]].next in m
    ensures var m' := Remove(m, s[k]); Ring(m', h, Removed(s, k)) && Ring(m', s[k], [])
  {
    RemoveRefines(m, h, s, k);
    var m1 := RemoveLeaveDangling(m, s[k]);
    RingFrame(m1, Remove(m, s[k]), h, Removed(s, k));
  }

  /** Removing a node right after inserting it restores the list and every line but the node's own. */
  lemma InsertThenRemove(m: Mem, h: int, s: seq<int>, k: nat, x: int)
    requires Ring(m, h, s) && k <= |s|
    requires x in m && x != h && x !in s
    ensures Before(h, s, k) in m && m[Before(h, s, k)].next in m
    ensures var m1 := InsertAfter(m, x, Before(h, s, k));
      && x in m1 && m1[x].prev in m1 && m1[x].next in m1
      && var m2 := RemoveLeaveDangling(m1, x);
         Ring(m2, h, s) && m2.Keys == m.Keys && forall y :: y in m && y != x ==> m2[y] == m[y]
  {
    AtLinks(m, h, s, k);
    var m1 := InsertAfter(m, x, Before(h, s, k));
    var m2 := RemoveLeaveDangling(m1, x);
    assert forall y :: y in m && y != x ==> m2[y] == m[y];
    RingFrame(m, m2, h, s);
  }

  lemma CatRefines(m: Mem, h: int, s: seq<int>, l: int, t: seq<int>)
    requires Ring(m, h, s) && Ring(m, l, t)
    requires h != l && h !in t && l !in s
    requires forall x :: x in s ==> x !in t
    ensures m[h].prev in m && m[l].next in m && m[l].prev in m
    ensures Ring(Cat(m, h, l), h, s + t) && Ring(Cat(m, h, l), l, [])
  {
    if t == [] {
      assert s + t == s;
    } else if s == [] {
      assert s + t == t;
      CatOnEmpty(m, h, l, t);
    } else {
      assert s[0] in s && s[|s| - 1] in s && t[0] in t && t[|t| - 1] in t;
      CatEffect(m, h, s[0], s[|s| - 1], l, t[0], t[|t| - 1]);
      CatBoth(m, Cat(m, h, l), h, s, l, t);
    }
  }

  lemma CatOnEmpty(m: Mem, h: int, l: int, t: seq<int>)
    requires Ring(m, h, []) && Ring(m, l, t) && t != [] && h != l && h !in t
    ensures Ring(Cat(m, h, l), h, t) && Ring(Cat(m, h, l), l, [])
  {
    var m' := Cat(m, h, l);
    var t0, t1 := t[0], t[|t| - 1];
    assert t0 in t && t1 in t;
    assert m'.Keys == m.Keys;
    assert forall y :: y in m && y != l && y != h && y != t1 ==> m'[y].next == m[y].next;
    assert forall y :: y in m && y != l && y != h && y != t0 ==> m'[y].prev == m[y].prev;
    forall i, j | 0 <= i && j == i + 1 && j < |t|
      ensures m'[t[i]].next == t[j] && m'[t[j]].prev == t[i]
    {
      assert t[i] in t && t[j] in t && t[i] != t1 && t[j] != t0;
    }
  }

  /** What Cat writes when neither list is empty. */
  lemma CatEffect(m: Mem, h: int, s0: int, s1: int, l: int, t0: int, t1: int)
    requires {h, s0, s1, l, t0, t1} <= m.Keys
    requires h != l && s0 != h && t0 != l && s1 !in {h, l, t0, t1} && t0 != h && t1 !in {h, l}
    requires m[h].next == s0 && m[h].prev == s1 && m[l].next == t0 && m[l].prev == t1
    ensures var m' := Cat(m, h, l);
      && m'.Keys == m.Keys && m'[l].next == m'[l].prev == l
      && m'[h].next == s0 && m'[h].prev == t1 && m'[t1].next == h && m'[s1].next == t0 && m'[t0].prev == s1
      && (forall y :: y in m && y != l && y != t1 && y != s1 ==> m'[y].next == m[y].next)
      && (forall y :: y in m && y != l && y != h && y != t0 ==> m'[y].prev == m[y].prev)
  {
  }

  lemma CatBoth(m: Mem, m': Mem, h: int, s: seq<int>, l: int, t: seq<int>)
    requires Ring(m, h, s) && Ring(m, l, t) && s != [] && t != []
    requires h != l && h !in t && l !in s
    requires forall x :: x in s ==> x !in t
    requires m'.Keys == m.Keys && m'[l].next == m'[l].prev == l
    requires m'[h].next == s[0] && m'[h].prev == t[|t| - 1] && m'[t[|t| - 1]].next == h
    requires m'[s[|s| - 1]].next == t[0] && m'[t[0]].prev == s[|s| - 1]
    requires forall y :: y in m && y != l && y != t[|t| - 1] && y != s[|s| - 1] ==> m'[y].next == m[y].next
    requires forall y :: y in m && y != l && y != h && y != t[0] ==> m'[y].prev == m[y].prev
    ensures Ring(m', h, s + t) && Ring(m', l, [])
  {
    var u := s + t;
    NoDupCat(s, t);
    assert forall x :: x in u ==> x in s || x in t;
    forall i, j | 0 <= i && j == i + 1 && j < |u|
      ensures m'[u[i]].next == u[j] && m'[u[j]].prev == u[i]
    {
      if j < |s| {
        assert u[i] == s[i] && u[j] == s[j] && s[i] in s && s[j] in s;
      } else if i >= |s| {
        assert u[i] == t[i - |s|] && u[j] == t[j - |s|] && t[i - |s|] in t && t[j - |s|] in t;
      }
    }
  }

  lemma NoDupCat(s: seq<int>, t: seq<int>)
    requires NoDup(s) && NoDup(t) && forall x :: x in s ==> x !in t
    ensures NoDup(s + t)
  {
    assert forall i :: 0 <= i < |s| ==> s[i] in s;
    assert forall i :: 0 <= i < |t| ==> t[i] in t;
  }

  /** PopHead: null (0) on an empty list, else the first node, taken out of the list. */
  method PopHead(m: Mem, h: int, ghost s: seq<int>) returns (m': Mem, x: int)
    requires Ring(m, h, s)
    ensures s == [] ==> m' == m && x == 0
    ensures s != [] ==> x == s[0] && Ring(m', h, s[1..]) && Ring(m', x, [])
  {
    if m[h].next == h {
      return m, 0;
    }
    x := m[h].next;
    RemoveDetaches(m, h, s, 0);
    assert Removed(s, 0) == s[1..];
    m' := Remove(m, x);
  }

  /** PopTail: null (0) on an empty list, else the last node, taken out of the list. */
  method PopTail(m: Mem, h: int, ghost s: seq<int>) returns (m': Mem, x: int)
    requires Ring(m, h, s)
    ensures s == [] ==> m' == m && x == 0
    ensures s != [] ==> x == s[|s| - 1] && Ring(m', h, s[..|s| - 1]) && Ring(m', x, [])
  {
    if m[h].next == h {
      return m, 0;
    }
    x := m[h].prev;
    RemoveDetaches(m, h, s, |s| - 1);
    assert Removed(s, |s| - 1) == s[..|s| - 1];
    m' := Remove(m, x);
  }

  /** ContainsBuf walks the ring and decides membership. */
  method ContainsBuf(m: Mem, h: int, x: int, ghost s: seq<int>) returns (found: bool)
    requires Ring(m, h, s)
    ensures found <==> x in s
  {
    ghost var k := 0;
    var cur := m[h].next;
    while cur != h
      invariant 0 <= k <= |s| && cur == At(h, s, k)
      invariant x !in s[..k]
      decreases |s| - k
    {
      if cur == x { return true; }
      AtLinks(m, h, s, k + 1);
      cur := m[cur].next;
      k := k + 1;
    }
    assert s[..k] == s;
    return false;
  }

  /** Following mNext from h visits s and returns; mPrev may lead anywhere that is mapped. */
  ghost predicate Chain(m: Mem, h: int, s: seq<int>) {
    && h in m && h !in s && m[h].next == At(h, s, 0)
    && forall k :: 0 <= k < |s| ==> s[k] in m && m[s[k]].next == At(h, s, k + 1) && m[s[k]].prev in m
  }

  /** Both neighbours of the link point back to it. */
  predicate LinkSound(m: Mem, x: int) {
    x in m && m[x].prev in m && m[x].next in m && m[m[x].prev].next == x && m[m[x].next].prev == x
  }

  /** SanityCheck on any chain: false, for the exception, exactly when some link is bad. */
  method SanityCheck(m: Mem, h: int, ghost s: seq<int>) returns (ok: bool)
    requires Chain(m, h, s)
    ensures ok <==> forall x :: x in s ==> LinkSound(m, x)
  {
    ghost var k := 0;
    var link := m[h].next;
    while link != h
      invariant 0 <= k <= |s| && link == At(h, s, k)
      invariant forall j :: 0 <= j < k ==> LinkSound(m, s[j])
      decreases |s| - k
    {
      assert m[link].next == At(h, s, k + 1) && link in s;
      if m[m[link].prev].next != link { return false; }
      if m[m[link].next].prev != link { return false; }
      link := m[link].next;
      k := k + 1;
    }
    return true;
  }

  /** On a ring it never throws. */
  lemma RingIsSound(m: Mem, h: int, s: seq<int>)
    requires Ring(m, h, s)
    ensures Chain(m, h, s) && forall x :: x in s ==> LinkSound(m, x)
  {
    forall k | 0 <= k < |s|
      ensures s[k] in m && m[s[k]].next == At(h, s, k + 1) && LinkSound(m, s[k])
    {
      AtLinks(m, h, s, k);
      AtLinks(m, h, s, k + 1);
    }
  }
}

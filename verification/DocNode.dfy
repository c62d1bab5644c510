/** The document nodes of the parser: `DocNode` objects with an array of children, normalised and
    released in place. `Release` stands for free() on a node and counts how often it is called. */
module DocNodes {
  import opened Chars
  import opened Wrappers
  import opened DocTrees

  /** The children that are still there, in order. */
  function NonNull(s: seq<DocNode?>): seq<DocNode> {
    if s == [] then []
    else
      var c := s[|s| - 1];
      NonNull(s[..|s| - 1]) + (if c == null then [] else [c])
  }

  /** Is the last of these children merged into the text child before it? */
  predicate MergedAway(kids: seq<Doc>)
    requires kids != []
  {
    Mergeable(kids[|kids| - 1]) && EndsInText(FixKids(kids[..|kids| - 1]))
  }

  /** The slots of these children once those merged away are cleared. */
  function Cleared(nodes: seq<DocNode?>, kids: seq<Doc>): seq<DocNode?>
    requires |kids| <= |nodes|
  {
    seq(|kids|, k requires 0 <= k < |kids| => if MergedAway(kids[..k + 1]) then null else nodes[k])
  }

  /** The first i slots have been gone through. */
  predicate RowAt(children: seq<DocNode?>, was: seq<DocNode?>, kids: seq<Doc>, i: nat) {
    && i <= |kids| <= |was| == |children|
    && children[..i] == Cleared(was, kids[..i]) && children[i..] == was[i..]
  }

  lemma RowStart(children: seq<DocNode?>, kids: seq<Doc>)
    requires |kids| <= |children|
    ensures RowAt(children, children, kids, 0)
  {
  }

  lemma RowStep(children: seq<DocNode?>, was: seq<DocNode?>, kids: seq<Doc>, i: nat)
    requires RowAt(children, was, kids, i) && i < |kids|
    ensures if MergedAway(kids[..i + 1]) then RowAt(children[i := null], was, kids, i + 1)
      else RowAt(children, was, kids, i + 1)
  {
    hide MergedAway;
    var c, d := Cleared(was, kids[..i]), Cleared(was, kids[..i + 1]);
    var next := if MergedAway(kids[..i + 1]) then children[i := null] else children;
    assert children[i] == children[i..][0] == was[i..][0] == was[i];
    assert kids[..i + 1][..i + 1] == kids[..i + 1];
    forall k | 0 <= k < i
      ensures d[k] == next[k]
    {
      assert kids[..i + 1][..k + 1] == kids[..i][..k + 1];
      assert next[k] == children[..i][k] == c[k];
    }
    assert next[..i + 1] == d;
    assert children[i + 1..] == children[i..][1..] && was[i + 1..] == was[i..][1..];
    assert next[i + 1..] == children[i + 1..];
  }

  lemma RowEnd(children: seq<DocNode?>, was: seq<DocNode?>, kids: seq<Doc>)
    requires RowAt(children, was, kids, |kids|)
    ensures children[..|kids|] == Cleared(was, kids)
  {
    assert kids[..|kids|] == kids;
  }

  /** A tree's nodes: the root and the regions of its children, all apart. */
  ghost predicate Laid(root: DocNode, all: set<DocNode>, regions: seq<set<DocNode>>) {
    && Spread(root, all, regions)
    && (forall x {:trigger x in all} :: x in all ==> x == root || InSome(x, regions))
  }

  ghost predicate Spread(root: DocNode, all: set<DocNode>, regions: seq<set<DocNode>>) {
    && root in all
    && (forall k {:trigger regions[k]} :: 0 <= k < |regions| ==> regions[k] <= all && root !in regions[k])
    && (forall j, k {:trigger regions[j], regions[k]} :: 0 <= j < k < |regions| ==> regions[j] !! regions[k])
  }

  ghost predicate InSome(x: DocNode, regions: seq<set<DocNode>>) {
    exists k {:trigger regions[k]} :: 0 <= k < |regions| && x in regions[k]
  }

  lemma LaidAppend(root: DocNode, all: set<DocNode>, regions: seq<set<DocNode>>, more: set<DocNode>)
    requires Laid(root, all, regions) && all !! more
    ensures Laid(root, all + more, regions + [more])
  {
    var longer := regions + [more];
    assert longer[|regions|] == more;
    forall x | x in all + more
      ensures x == root || InSome(x, longer)
    {
      if x in more {
        assert x in longer[|regions|];
      } else if x != root {
        var k :| 0 <= k < |regions| && x in regions[k];
        assert x in longer[k];
      }
    }
  }

  /** striptrailingws. */
  method StripTrailingWs(s: string) returns (r: string)
    ensures r == StripTrailing(s)
    ensures r <= s && (r == "" ==> s == "")
    ensures forall i :: |r| <= i < |s| ==> s[i] in " \t\n\U{000B}\U{000C}\r"
    ensures |r| > 1 ==> r[|r| - 1] !in " \t\n\U{000B}\U{000C}\r"
  {
    Stripped(s);
    r := s;
    while |r| > 1 && IsSpace(r[|r| - 1])
      invariant StripTrailing(r) == StripTrailing(s)
    {
      r := r[..|r| - 1];
    }
  }

  class DocNode {
    const id: Id
    var text: Option<string>
    var n_childs: nat
    var children: seq<DocNode?>
    var released: nat
    ghost var doc: Doc
    ghost var Repr: set<DocNode>
    ghost var regions: seq<set<DocNode>>

    /** A tree no part of which has been released; slots from n_childs on may hold anything. */
    ghost predicate Valid()
      reads this, Repr
      decreases Repr, 0
    {
      && Laid(this, Repr, regions) && released == 0
      && doc.id == id && doc.text == text && n_childs <= |children|
      && |regions| == |doc.kids| == n_childs
      && forall k {:trigger Holds(children[k], regions[k], doc.kids[k])} :: 0 <= k < n_childs ==>
           Holds(children[k], regions[k], doc.kids[k])
    }

    /** The node is the root of a tree in this region that reads as the document. */
    static ghost predicate Holds(c: DocNode?, region: set<DocNode>, d: Doc)
      reads region
      decreases region, 1
    {
      c != null && c in region && c.Repr == region && c.Valid() && c.doc == d
    }

    /** doc_node_create. */
    constructor (id: Id)
      ensures Valid() && Repr == {this} && this.id == id && doc == Doc(id, None, [])
    {
      this.id := id;
      text := None;
      n_childs := 0;
      children := [];
      released := 0;
      doc := Doc(id, None, []);
      Repr := {this};
      regions := [];
    }

    /** free(). */
    method Release()
      modifies this`released
      ensures released == old(released) + 1
    {
      released := released + 1;
    }

    /** doc_node_add_child: the node takes over the child. */
    method AddChild(child: DocNode?)
      requires Valid() && (child != null ==> child.Valid() && child.Repr !! Repr)
      modifies this
      ensures Valid()
      ensures child == null ==> doc == old(doc) && Repr == old(Repr)
      ensures child != null ==>
        doc == old(doc).(kids := old(doc).kids + [child.doc]) && Repr == old(Repr) + child.Repr
    {
      if child != null {
        children := children[..n_childs] + [child];
        n_childs := n_childs + 1;
        doc := doc.(kids := doc.kids + [child.doc]);
        LaidAppend(this, Repr, regions, child.Repr);
        Repr := Repr + child.Repr;
        regions := regions + [child.Repr];
      }
    }

    /** doc_node_move_children: the children of src become the children of this node, and src goes. */
    method MoveChildren(src: DocNode?)
      requires Valid() && (src != null ==> src.Valid() && src.Repr !! Repr)
      modifies this, if src == null then {} else {src}
      ensures Valid()
      ensures src == null ==> doc == old(doc) && Repr == old(Repr)
      ensures src != null ==>
        && doc == old(doc).(kids := old(src.doc).kids) && Repr == {this} + old(src.Repr) - {src}
        && src.released == 1
    {
      if src != null {
        children := src.children;
        n_childs := src.n_childs;
        doc := doc.(kids := src.doc.kids);
        Repr := {this} + src.Repr - {src};
        regions := src.regions;
        src.Release();
      }
    }

    /** doc_node_free_tree on a node: every node of the tree is released, each once. */
    method FreeTree()
      requires Valid()
      modifies Repr
      ensures Once(old(Repr))
      decreases Repr
    {
      var i := 0;
      while i < n_childs
        invariant 0 <= i <= n_childs
        invariant n_childs == old(n_childs) && children == old(children) && released == 0
        invariant regions == old(regions) && doc == old(doc)
        invariant forall k {:trigger Holds(children[k], regions[k], doc.kids[k])} :: i <= k < n_childs ==>
          Holds(children[k], regions[k], doc.kids[k])
        invariant forall k {:trigger regions[k]} :: 0 <= k < i ==> Once(regions[k])
      {
        assert Holds(children[i], regions[i], doc.kids[i]);
        children[i].FreeTree();
        i := i + 1;
      }
      Release();
      AllOnce(this, old(Repr), regions);
    }

    /** strmerge, or a space for a newline: the text of the child goes to the end of this node's text, and
        the child is released. */
    method TakeText(child: DocNode, ghost region: set<DocNode>)
      requires id.TEXT? && WellFormed(doc) && Part(this, region, Some(doc))
      requires child.Valid() && Mergeable(child.doc) && WellFormed(child.doc) && child.Repr !! region
      modifies this`text, this`doc, child`released
      ensures doc == old(doc).(text := MergeText(old(text), Reading(old(child.doc))))
      ensures old(doc.text) == old(text) && Part(this, region, Some(doc)) && Part(null, old(child.Repr), None)
    {
      if child.id.NL? {
        text := Some(text.value + " ");
      } else {
        text := MergeText(text, child.text);
      }
      doc := doc.(text := text);
      child.Release();
      assert child.regions == [];
    }

    /** A text or newline child goes into the text child before it, and its slot is cleared. */
    method MergeChild(i: nat, last: DocNode, child: DocNode, ghost all: set<DocNode>, ghost kids: seq<Doc>,
                      ghost R: seq<set<DocNode>>, ghost slots: seq<Option<Doc>>, ghost lastAt: nat)
      requires Spread(this, all, R) && n_childs == |kids| == |R| <= |children| && |slots| == i < n_childs
      requires forall k {:trigger Holds(children[k], R[k], kids[k])} :: i <= k < n_childs ==>
        Holds(children[k], R[k], kids[k])
      requires forall k {:trigger Part(children[k], R[k], slots[k])} :: 0 <= k < i ==>
        Part(children[k], R[k], slots[k])
      requires lastAt < i && children[lastAt] == last && children[i] == child
      requires last.id.TEXT? && WellFormed(last.doc) && Mergeable(kids[i]) && WellFormed(kids[i])
      modifies this`children, R[lastAt], R[i]
      ensures children == old(children)[i := null]
      ensures last.doc == old(last.doc).(text := MergeText(old(last.doc.text), Reading(kids[i])))
      ensures forall k {:trigger Holds(children[k], R[k], kids[k])} :: i < k < n_childs ==>
        Holds(children[k], R[k], kids[k])
      ensures forall k {:trigger Part(children[k], R[k], slots[k])} :: 0 <= k < i && k != lastAt ==>
        Part(children[k], R[k], slots[k])
      ensures Part(last, R[lastAt], Some(last.doc)) && Part(null, R[i], None)
    {
      hide Part, Holds, DocNode.Valid, WellFormed;
      HoldsMeans(child, R[i], kids[i]);
      PartMeans(last, R[lastAt], slots[lastAt]);
      last.TakeText(child, R[lastAt]);
      children := children[i := null];
    }

    /** The merging pass of doc_node_fixup_tree: a text or newline child after a text child is merged into
        it and its slot cleared; every other child is normalised. */
    method FixChildren(ghost all: set<DocNode>, ghost kids: seq<Doc>, ghost R: seq<set<DocNode>>)
      returns (ghost slots: seq<Option<Doc>>)
      requires Spread(this, all, R) && AllWellFormed(kids) && n_childs == |kids| == |R| && n_childs <= |children|
      requires forall k {:trigger Holds(children[k], R[k], kids[k])} :: 0 <= k < n_childs ==>
        Holds(children[k], R[k], kids[k])
      modifies this`children, all - {this}
      ensures |children| == |old(children)| && |slots| == n_childs
      ensures forall k {:trigger Part(children[k], R[k], slots[k])} :: 0 <= k < n_childs ==>
        Part(children[k], R[k], slots[k])
      ensures Present(slots) == FixKids(kids)
      ensures children[..n_childs] == Cleared(old(children), kids)
      decreases all, 0
    {
      hide Part, Holds, Fixup, FixKids, Present, DocNode.Valid;
      hide WellFormed, AllWellFormed, Laid, MergedAway, RowAt, Cleared;
      RowStart(children, kids);
      var last: DocNode? := null;
      ghost var lastAt := 0;
      slots := [];
      assert Present(slots) == FixKids(kids[..0]) == [] by { NothingYet(); assert kids[..0] == []; }
      var i := 0;
      while i < n_childs
        invariant 0 <= i <= n_childs && |children| == |old(children)| && |slots| == i
        invariant forall k {:trigger Holds(children[k], R[k], kids[k])} :: i <= k < n_childs ==>
          Holds(children[k], R[k], kids[k])
        invariant forall k {:trigger Part(children[k], R[k], slots[k])} :: 0 <= k < i ==>
          Part(children[k], R[k], slots[k])
        invariant RowAt(children, old(children), kids, i)
        invariant Present(slots) == FixKids(kids[..i])
        invariant last == null <==> Present(slots) == []
        invariant last != null ==> LastPresent(slots, lastAt) && children[lastAt] == last
      {
        var child := children[i];
        HoldsMeans(child, R[i], kids[i]);
        FixKidsStep(kids, i);
        RowStep(children, old(children), kids, i);
        if last != null {
          PresentLast(slots, lastAt);
          PartMeans(last, R[lastAt], slots[lastAt]);
        }
        if (child.id.TEXT? || child.id.NL?) && last != null && last.id.TEXT? {
          MergeChild(i, last, child, all, kids, R, slots, lastAt);
          PresentExtend(slots, lastAt, last.doc);
          slots := slots[lastAt := Some(last.doc)] + [None];
        } else {
          child.FixupTree();
          last, lastAt := child, i;
          PresentSnoc(slots, child.doc);
          slots := slots + [Some(child.doc)];
        }
        i := i + 1;
      }
      assert kids[..i] == kids;
      RowEnd(children, old(children), kids);
    }

    /** The compaction pass: the slots that are left move to the front, in order. */
    method Compact()
      requires n_childs <= |children|
      modifies this`children, this`n_childs
      ensures n_childs <= |children| && children[..n_childs] == NonNull(old(children[..n_childs]))
    {
      ghost var was := children;
      var j, i := 0, 0;
      while i < n_childs
        invariant 0 <= j <= i <= n_childs <= |children| == |was| && n_childs == old(n_childs)
        invariant children[..j] == NonNull(was[..i])
        invariant children[i..] == was[i..]
      {
        assert was[..i + 1][..i] == was[..i] && was[i] == was[i..][0] == children[i];
        if children[i] != null {
          children := children[j := children[i]];
          j := j + 1;
        }
        i := i + 1;
      }
      n_childs := j;
    }

    /** doc_node_fixup_tree: this node keeps the children that were not merged away; everything else
        that was in the tree has been released. */
    method FixupTree()
      requires Valid() && WellFormed(doc)
      modifies Repr
      ensures Valid() && doc == Fixup(old(doc)) && Part(this, old(Repr), Some(doc))
      ensures children[..n_childs] == NonNull(Cleared(old(children), DropFinalNL(old(doc).kids)))
      decreases Repr, 2
    {
      hide FixKids, Holds, Present, NonNull, Once, OwnText, Cleared;
      NothingYet();
      assert Cleared(children, []) == [] by { RowStart(children, []); RowEnd(children, children, []); }
      assert NonNull([]) == [] by { NoNodes(); }
      ghost var was, all, R := doc, Repr, regions;
      ghost var row: seq<DocNode?>, slots: seq<Option<Doc>> := [], [];
      StripOwn();
      if n_childs != 0 {
        row, slots := FixRow(all, R);
      }
      ghost var rs, kept := Rebuild(this, all, R, was.kids, row, slots, children[..n_childs]);
      doc := Doc(was.id, OwnText(was), Present(slots));
      regions, Repr := rs, kept;
    }

    /** White space at the end of an element's own text goes. */
    method StripOwn()
      requires doc.id == id && doc.text == text
      modifies this`text
      ensures text == OwnText(doc)
    {
      if !id.TEXT? && text.Some? {
        var t := StripTrailingWs(text.value);
        text := Some(t);
      }
    }

    /** The final newline, the merging pass and the compaction. */
    method FixRow(ghost all: set<DocNode>, ghost R: seq<set<DocNode>>)
      returns (ghost row: seq<DocNode?>, ghost slots: seq<Option<Doc>>)
      requires Spread(this, all, R) && 0 < n_childs <= |children| && n_childs == |R| == |doc.kids|
      requires AllWellFormed(doc.kids)
      requires forall k {:trigger Holds(children[k], R[k], doc.kids[k])} :: 0 <= k < n_childs ==>
        Holds(children[k], R[k], doc.kids[k])
      modifies this`n_childs, this`children, all - {this}
      ensures n_childs <= |children| && children[..n_childs] == NonNull(row)
      ensures row == Cleared(old(children), DropFinalNL(doc.kids))
      ensures RowDone(R, doc.kids, row, slots)
      decreases all, 1
    {
      hide FixKids, Holds, DocNode.Valid, Part, WellFormed, AllWellFormed, Present, NonNull, Once;
      var n := n_childs;
      ghost var kids := DropFinalNL(doc.kids);
      assert AllWellFormed(kids) by { DropWellFormed(doc.kids); }
      DropLast(all, R);
      slots := FixChildren(if n_childs < |R| then all - R[n_childs] else all, kids, R[..n_childs]);
      row := children[..n_childs];
      forall k | 0 <= k < |row|
        ensures Part(row[k], R[k], slots[k])
      {
        assert Part(children[k], R[..n_childs][k], slots[k]);
      }
      Compact();
    }

    /** A final newline child is released and no longer counted. */
    method DropLast(ghost all: set<DocNode>, ghost R: seq<set<DocNode>>)
      requires Spread(this, all, R) && 0 < n_childs <= |children| && n_childs == |R| == |doc.kids|
      requires AllWellFormed(doc.kids)
      requires forall k {:trigger Holds(children[k], R[k], doc.kids[k])} :: 0 <= k < n_childs ==>
        Holds(children[k], R[k], doc.kids[k])
      modifies this`n_childs, all - {this}
      ensures var kids := DropFinalNL(doc.kids);
        && n_childs == |kids|
        && (forall k {:trigger Holds(children[k], R[k], kids[k])} :: 0 <= k < n_childs ==>
              Holds(children[k], R[k], kids[k]))
        && (n_childs < |R| ==> Once(R[n_childs]))
    {
      var last := children[n_childs - 1];
      HoldsMeans(last, R[n_childs - 1], doc.kids[n_childs - 1]);
      if last.id.NL? {
        assert WellFormed(last.doc);
        assert last.regions == [];
        last.Release();
        n_childs := n_childs - 1;
      }
    }
  }

  ghost predicate Once(region: set<DocNode>)
    reads region
  {
    forall x {:trigger x in region} :: x in region ==> x.released == 1
  }

  lemma AllOnce(root: DocNode, all: set<DocNode>, regions: seq<set<DocNode>>)
    requires Laid(root, all, regions) && root.released == 1
    requires forall k {:trigger regions[k]} :: 0 <= k < |regions| ==> Once(regions[k])
    ensures Once(all)
  {
  }

  /** doc_node_make. */
  method Make(id: Id, text: Option<string>, child: DocNode?) returns (n: DocNode)
    requires child != null ==> child.Valid()
    ensures n.Valid() && n.doc == Doc(id, text, if child == null then [] else [child.doc])
    ensures fresh(n) && n.Repr == {n} + (if child == null then {} else child.Repr)
  {
    n := new DocNode(id);
    n.text := text;
    n.doc := n.doc.(text := text);
    n.AddChild(child);
  }

  /** doc_node_make_take_children. */
  method MakeTakeChildren(id: Id, text: Option<string>, src: DocNode?) returns (n: DocNode)
    requires src != null ==> src.Valid()
    modifies if src == null then {} else {src}
    ensures n.Valid() && n.doc == Doc(id, text, if src == null then [] else old(src.doc).kids)
    ensures fresh(n) && n.Repr == {n} + (if src == null then {} else old(src.Repr) - {src})
    ensures src != null ==> src.released == 1
  {
    n := Make(id, text, null);
    n.MoveChildren(src);
  }

  /** A parsed document is normalised, used and then released: every node of the parsed tree is released
      exactly once, either by the normalisation or by the final doc_node_free_tree. */
  method NormaliseAndFree(n: DocNode?)
    requires n != null ==> n.Valid() && WellFormed(n.doc)
    modifies if n == null then {} else n.Repr
    ensures n != null ==> Once(old(n.Repr))
  {
    if n != null {
      ghost var all := n.Repr;
      n.FixupTree();
      ghost var left := n.Repr;
      n.FreeTree();
      OnceJoined(all, left);
    }
  }

  // ---------- slots ----------

  /** A slot after the merging pass: cleared and all its nodes released, or a node whose tree reads as
      the document and from whose region everything else has been released. */
  ghost predicate Part(c: DocNode?, region: set<DocNode>, d: Option<Doc>)
    reads region
  {
    if c == null then d.None? && Once(region)
    else c in region && c.Repr <= region && c.Valid() && d == Some(c.doc) && Once(region - c.Repr)
  }

  lemma HoldsMeans(c: DocNode?, region: set<DocNode>, d: Doc)
    requires DocNode.Holds(c, region, d)
    ensures c != null && c in region && c.Repr == region && c.Valid() && c.doc == d && d.id == c.id
  {
  }

  lemma PartMeans(c: DocNode, region: set<DocNode>, d: Option<Doc>)
    requires Part(c, region, d)
    ensures d == Some(c.doc) && c in region && c.Repr <= region && c.doc.id == c.id && c.doc.text == c.text
  {
  }

  lemma NothingYet()
    ensures Present([]) == [] && FixKids([]) == []
  {
  }

  lemma DropWellFormed(kids: seq<Doc>)
    requires AllWellFormed(kids)
    ensures AllWellFormed(DropFinalNL(kids))
  {
  }

  lemma NoNodes()
    ensures NonNull([]) == []
  {
  }

  /** What the passes over the children leave in the slots. */
  ghost predicate RowDone(R: seq<set<DocNode>>, kids: seq<Doc>, row: seq<DocNode?>, slots: seq<Option<Doc>>)
    reads Joined(R)
  {
    var m := |DropFinalNL(kids)|;
    && |row| == |slots| == m <= |R| <= m + 1
    && (forall k {:trigger Part(row[k], R[k], slots[k])} :: 0 <= k < m ==> Part(row[k], R[k], slots[k]))
    && Present(slots) == FixKids(DropFinalNL(kids))
    && (m < |R| ==> Once(R[m]))
  }

  ghost function Joined(R: seq<set<DocNode>>): set<DocNode> {
    set k, x | 0 <= k < |R| && x in R[k] :: x
  }

  /** The node's new children, regions and nodes. */
  lemma Rebuild(root: DocNode, all: set<DocNode>, R: seq<set<DocNode>>, kids: seq<Doc>, row: seq<DocNode?>,
                slots: seq<Option<Doc>>, children: seq<DocNode?>)
    returns (regions: seq<set<DocNode>>, kept: set<DocNode>)
    requires Laid(root, all, R) && RowDone(R, kids, row, slots) && children == NonNull(row)
    ensures Laid(root, kept, regions) && kept <= all && Once(all - kept)
    ensures |regions| == |children| == |Present(slots)|
    ensures var docs := Present(slots);
      forall k {:trigger DocNode.Holds(children[k], regions[k], docs[k])} :: 0 <= k < |children| ==>
        DocNode.Holds(children[k], regions[k], docs[k])
  {
    hide NonNull, Present, FixKids, DocNode.Holds, Once, Part;
    var m := |DropFinalNL(kids)|;
    assert forall k {:trigger R[..m][k]} :: 0 <= k < m ==> R[..m][k] == R[k] && Part(row[k], R[k], slots[k]);
    regions, kept := Gather(root, all, R[..m], row, slots);
    KeptOnce(root, all, R, kept, m);
  }

  /** The slots that are left make up the new tree. */
  lemma {:induction false} Gather(root: DocNode, all: set<DocNode>, R: seq<set<DocNode>>, row: seq<DocNode?>,
                                  slots: seq<Option<Doc>>)
    returns (regions: seq<set<DocNode>>, kept: set<DocNode>)
    requires Spread(root, all, R) && |row| == |R| == |slots|
    requires forall k {:trigger Part(row[k], R[k], slots[k])} :: 0 <= k < |row| ==> Part(row[k], R[k], slots[k])
    ensures |regions| == |NonNull(row)| == |Present(slots)|
    ensures var nodes, docs := NonNull(row), Present(slots);
      forall j {:trigger DocNode.Holds(nodes[j], regions[j], docs[j])} :: 0 <= j < |nodes| ==>
        DocNode.Holds(nodes[j], regions[j], docs[j])
    ensures Laid(root, kept, regions) && kept <= all
    ensures forall x {:trigger x in kept} :: x in kept ==> x == root || InSome(x, R)
    ensures forall k {:trigger R[k]} :: 0 <= k < |R| ==> Once(R[k] - kept)
  {
    if row == [] {
      regions, kept := [], {root};
    } else {
      var n := |row| - 1;
      regions, kept := Gather(root, all, R[..n], row[..n], slots[..n]);
      assert Part(row[n], R[n], slots[n]);
      assert kept !! R[n];
      ghost var before := kept;
      if row[n] != null {
        LaidAppend(root, kept, regions, row[n].Repr);
        assert DocNode.Holds(row[n], row[n].Repr, row[n].doc);
        regions, kept := regions + [row[n].Repr], kept + row[n].Repr;
      }
      forall k | 0 <= k < |R|
        ensures Once(R[k] - kept)
      {
        if k < n {
          OnceLess(R[..n][k] - before, R[k] - kept);
        } else {
          OnceLess(if row[n] == null then R[n] else R[n] - row[n].Repr, R[k] - kept);
        }
      }
    }
  }

  lemma OnceLess(a: set<DocNode>, b: set<DocNode>)
    requires Once(a) && b <= a
    ensures Once(b)
  {
  }

  lemma OnceJoined(all: set<DocNode>, part: set<DocNode>)
    requires Once(all - part) && Once(part)
    ensures Once(all)
  {
    forall x | x in all
      ensures x.released == 1
    {
      if x !in part { assert x in all - part; }
    }
  }

  lemma KeptOnce(root: DocNode, all: set<DocNode>, R: seq<set<DocNode>>, kept: set<DocNode>, m: nat)
    requires Laid(root, all, R) && root in kept && m <= |R| <= m + 1
    requires forall k {:trigger R[..m][k]} :: 0 <= k < m ==> Once(R[..m][k] - kept)
    requires m < |R| ==> Once(R[m])
    ensures Once(all - kept)
  {
    forall x | x in all - kept
      ensures x.released == 1
    {
      var k :| 0 <= k < |R| && x in R[k];
      if k < m { assert x in R[..m][k] - kept; }
    }
  }

  /** The children merged so far, one child further. */
  lemma FixKidsStep(kids: seq<Doc>, i: nat)
    requires i < |kids| && AllWellFormed(kids)
    ensures var done, c := FixKids(kids[..i]), kids[i];
      && WellFormed(c)
      && (done != [] ==> WellFormed(done[|done| - 1]))
      && (MergedAway(kids[..i + 1]) <==> Mergeable(c) && EndsInText(done))
      && FixKids(kids[..i + 1]) == (if Mergeable(c) && EndsInText(done) then Extend(done, c) else done + [Fixup(c)])
  {
    assert kids[..i + 1][..i] == kids[..i];
    FixKidsWellFormed(kids[..i]);
  }

  /** The documents in the slots that are not cleared. */
  function Present(slots: seq<Option<Doc>>): seq<Doc> {
    if slots == [] then []
    else
      var d := slots[|slots| - 1];
      Present(slots[..|slots| - 1]) + (if d.None? then [] else [d.value])
  }

  predicate LastPresent(slots: seq<Option<Doc>>, at: nat) {
    at < |slots| && slots[at].Some? && forall k :: at < k < |slots| ==> slots[k].None?
  }

  lemma PresentSnoc(slots: seq<Option<Doc>>, d: Doc)
    ensures Present(slots + [Some(d)]) == Present(slots) + [d]
  {
    assert (slots + [Some(d)])[..|slots|] == slots;
  }

  lemma {:induction false} PresentLast(slots: seq<Option<Doc>>, at: nat)
    requires LastPresent(slots, at)
    ensures Present(slots) == Present(slots[..at]) + [slots[at].value]
  {
    if at < |slots| - 1 {
      PresentLast(slots[..|slots| - 1], at);
      assert slots[..|slots| - 1][..at] == slots[..at];
    }
  }

  /** The last present document replaced, and a cleared slot added. */
  lemma PresentExtend(slots: seq<Option<Doc>>, at: nat, d: Doc)
    requires LastPresent(slots, at)
    ensures var r := slots[at := Some(d)] + [None]; var p := Present(slots);
      p != [] && Present(r) == p[..|p| - 1] + [d] && LastPresent(r, at)
  {
    var r := slots[at := Some(d)] + [None];
    PresentLast(slots, at);
    PresentLast(r, at);
    assert r[..at] == slots[..at];
  }
}

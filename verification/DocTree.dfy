/** Help documents as trees, and the normalisation the parser applies to them. */
module DocTrees {

  import opened Chars
  import opened Wrappers

  datatype Id = TEXT | NL | ELEMENT(name: string)

  datatype Doc = Doc(id: Id, text: Option<string>, kids: seq<Doc>)

  /** What the grammar builds: a TEXT node has a text and no children, an NL node has neither. */
  predicate WellFormed(t: Doc) {
    && (t.id.TEXT? ==> t.text.Some? && t.kids == [])
    && (t.id.NL? ==> t.text.None? && t.kids == [])
    && forall i :: 0 <= i < |t.kids| ==> WellFormed(t.kids[i])
  }

  predicate AllWellFormed(kids: seq<Doc>) {
    forall i :: 0 <= i < |kids| ==> WellFormed(kids[i])
  }

  // ---------- strings ----------

  /** Drops trailing white space; the scan stops at the first character, which always stays. */
  function StripTrailing(s: string): string {
    if |s| > 1 && IsSpace(s[|s| - 1]) then StripTrailing(s[..|s| - 1]) else s
  }

  /** What is left is a prefix, what went is white space, and the end of what is left is not, if there are two
      characters or more: these determine the result. */
  lemma {:induction false} Stripped(s: string)
    ensures var r := StripTrailing(s);
      && r <= s && (r == "" ==> s == "")
      && (forall i :: |r| <= i < |s| ==> s[i] in " \t\n\U{000B}\U{000C}\r")
      && (|r| > 1 ==> r[|r| - 1] !in " \t\n\U{000B}\U{000C}\r")
    decreases |s|
  {
    if |s| > 1 && IsSpace(s[|s| - 1]) {
      Stripped(s[..|s| - 1]);
    }
  }

  // ---------- the normalisation ----------

  /** strmerge: either string may be missing. */
  function MergeText(a: Option<string>, b: Option<string>): Option<string> {
    if a.None? then b else if b.None? then a else Some(a.value + b.value)
  }

  predicate Mergeable(c: Doc) {
    c.id.TEXT? || c.id.NL?
  }

  predicate EndsInText(kids: seq<Doc>) {
    kids != [] && kids[|kids| - 1].id.TEXT?
  }

  function OwnText(t: Doc): Option<string> {
    if !t.id.TEXT? && t.text.Some? then Some(StripTrailing(t.text.value)) else t.text
  }

  function DropFinalNL(kids: seq<Doc>): seq<Doc> {
    if kids != [] && kids[|kids| - 1].id.NL? then kids[..|kids| - 1] else kids
  }

  /** The text taken over from a child that is merged away. */
  function Reading(c: Doc): Option<string> {
    if c.id.NL? then Some(" ") else c.text
  }

  /** The last child with more text at its end. */
  function Extend(done: seq<Doc>, c: Doc): seq<Doc>
    requires done != []
  {
    var last := done[|done| - 1];
    done[..|done| - 1] + [last.(text := MergeText(last.text, Reading(c)))]
  }

  function Fixup(t: Doc): Doc
    decreases t
  {
    Doc(t.id, OwnText(t), FixKids(DropFinalNL(t.kids)))
  }

  function FixKids(kids: seq<Doc>): seq<Doc>
    decreases kids
  {
    if kids == [] then []
    else
      var done, c := FixKids(kids[..|kids| - 1]), kids[|kids| - 1];
      if Mergeable(c) && EndsInText(done) then Extend(done, c) else done + [Fixup(c)]
  }

  // ---------- what a tree says ----------

  /** A document read from start to end: characters, with marks where elements begin and end. */
  datatype Event = Ch(c: char) | Begin(name: string, text: Option<string>) | End

  function Characters(s: string): seq<Event> {
    seq(|s|, i requires 0 <= i < |s| => Ch(s[i]))
  }

  /** A newline node reads as one space. */
  function Render(t: Doc): seq<Event>
    decreases t
  {
    match t.id
    case TEXT => if t.text.Some? then Characters(t.text.value) else []
    case NL => [Ch(' ')]
    case ELEMENT(name) => [Begin(name, t.text)] + RenderAll(t.kids) + [End]
  }

  function RenderAll(kids: seq<Doc>): seq<Event>
    decreases kids
  {
    if kids == [] then [] else RenderAll(kids[..|kids| - 1]) + Render(kids[|kids| - 1])
  }

  /** The tree without the final newline child of each node and without the white space at the end of
      the nodes' own texts; nothing is merged. */
  function Tidy(t: Doc): Doc
    decreases t
  {
    Doc(t.id, OwnText(t), TidyAll(DropFinalNL(t.kids)))
  }

  function TidyAll(kids: seq<Doc>): (r: seq<Doc>)
    decreases kids
  {
    if kids == [] then [] else TidyAll(kids[..|kids| - 1]) + [Tidy(kids[|kids| - 1])]
  }

  /** What Tidy takes away: one newline child at the end, and white space at the end of an element's text, as far
      as the first character; throughout the tree. */
  lemma TidyShape(t: Doc)
    ensures var r, n := Tidy(t), |t.kids|;
      && r.id == t.id && |r.kids| == (if n > 0 && t.kids[n - 1].id.NL? then n - 1 else n)
      && (forall i :: 0 <= i < |r.kids| ==> r.kids[i] == Tidy(t.kids[i]))
      && (t.id.TEXT? || t.text.None? ==> r.text == t.text)
      && (!t.id.TEXT? && t.text.Some? ==> r.text.Some? && r.text.value == StripTrailing(t.text.value))
  {
    TidyEach(DropFinalNL(t.kids));
  }

  lemma {:induction false} TidyEach(kids: seq<Doc>)
    ensures |TidyAll(kids)| == |kids| && forall i :: 0 <= i < |kids| ==> TidyAll(kids)[i] == Tidy(kids[i])
  {
    if kids != [] { TidyEach(kids[..|kids| - 1]); }
  }

  lemma CharactersAppend(a: string, b: string)
    ensures Characters(a + b) == Characters(a) + Characters(b)
  {
  }

  lemma RenderAppend(done: seq<Doc>, c: Doc)
    ensures RenderAll(done + [c]) == RenderAll(done) + Render(c)
  {
    assert (done + [c])[..|done|] == done;
  }

  lemma RenderMerged(last: Doc, c: Doc)
    requires last.id.TEXT? && last.text.Some? && WellFormed(c) && Mergeable(c)
    ensures Render(last.(text := MergeText(last.text, Reading(c)))) == Render(last) + Render(c)
  {
    CharactersAppend(last.text.value, Reading(c).value);
    assert Characters(" ") == [Ch(' ')];
  }

  lemma RenderExtend(done: seq<Doc>, c: Doc)
    requires EndsInText(done) && done[|done| - 1].text.Some? && WellFormed(c) && Mergeable(c)
    ensures RenderAll(Extend(done, c)) == RenderAll(done) + Render(c)
  {
    hide Render, MergeText, Reading, WellFormed, RenderAll;
    var init, last := done[..|done| - 1], done[|done| - 1];
    RenderMerged(last, c);
    RenderAppend(init, last.(text := MergeText(last.text, Reading(c))));
    RenderAppend(init, last);
    assert init + [last] == done;
    Assoc(RenderAll(init), Render(last), Render(c));
  }

  lemma Assoc(x: seq<Event>, y: seq<Event>, z: seq<Event>)
    ensures x + (y + z) == x + y + z
  {
  }

  /** Every document has a text where the grammar puts one. */
  lemma {:induction false} FixupWellFormed(t: Doc)
    requires WellFormed(t)
    ensures WellFormed(Fixup(t))
    decreases t
  {
    FixKidsWellFormed(DropFinalNL(t.kids));
  }

  lemma {:induction false} FixKidsWellFormed(kids: seq<Doc>)
    requires AllWellFormed(kids)
    ensures AllWellFormed(FixKids(kids))
    decreases kids
  {
    if kids != [] {
      var init, c := kids[..|kids| - 1], kids[|kids| - 1];
      FixKidsWellFormed(init);
      FixupWellFormed(c);
      var done := FixKids(init);
      if Mergeable(c) && EndsInText(done) {
        var last := done[|done| - 1];
        assert WellFormed(last);
        assert WellFormed(last.(text := MergeText(last.text, Reading(c))));
      }
    }
  }

  /** Normalisation changes nothing a reader sees, beyond what Tidy takes away. */
  lemma {:induction false} FixupKeepsMeaning(t: Doc)
    requires WellFormed(t)
    ensures Render(Fixup(t)) == Render(Tidy(t))
    decreases t
  {
    FixKidsKeepMeaning(DropFinalNL(t.kids));
  }

  lemma {:induction false} FixKidsKeepMeaning(kids: seq<Doc>)
    requires AllWellFormed(kids)
    ensures RenderAll(FixKids(kids)) == RenderAll(TidyAll(kids))
    decreases kids
  {
    if kids != [] {
      var init, c := kids[..|kids| - 1], kids[|kids| - 1];
      FixKidsKeepMeaning(init);
      FixKidsWellFormed(init);
      RenderAppend(TidyAll(init), Tidy(c));
      var done := FixKids(init);
      if Mergeable(c) && EndsInText(done) {
        assert WellFormed(done[|done| - 1]);
        RenderExtend(done, c);
        assert Render(Tidy(c)) == Render(c);
      } else {
        FixupKeepsMeaning(c);
        RenderAppend(done, Fixup(c));
      }
    }
  }

  // ---------- the normal form ----------

  predicate NoneToMerge(kids: seq<Doc>) {
    forall i :: 0 <= i < |kids| - 1 ==> !(kids[i].id.TEXT? && Mergeable(kids[i + 1]))
  }

  /** No text child is followed by a text or newline child, and no element's own text of two or more characters
      ends in white space, throughout the tree. */
  predicate Settled(t: Doc) {
    && (!t.id.TEXT? && t.text.Some? && |t.text.value| > 1 ==>
          t.text.value[|t.text.value| - 1] !in " \t\n\U{000B}\U{000C}\r")
    && NoneToMerge(t.kids)
    && forall i :: 0 <= i < |t.kids| ==> Settled(t.kids[i])
  }

  predicate AllSettled(kids: seq<Doc>) {
    forall i :: 0 <= i < |kids| ==> Settled(kids[i])
  }

  lemma {:induction false} StripTwice(s: string)
    ensures var r := StripTrailing(s); r <= s && StripTrailing(r) == r
    decreases |s|
  {
    if |s| > 1 && IsSpace(s[|s| - 1]) { StripTwice(s[..|s| - 1]); }
  }

  lemma {:induction false} FixupSettles(t: Doc)
    requires WellFormed(t)
    ensures Settled(Fixup(t))
    decreases t
  {
    if t.text.Some? { Stripped(t.text.value); }
    FixKidsSettle(DropFinalNL(t.kids));
  }

  lemma {:induction false} FixKidsSettle(kids: seq<Doc>)
    requires AllWellFormed(kids)
    ensures AllSettled(FixKids(kids)) && NoneToMerge(FixKids(kids))
    decreases kids
  {
    if kids != [] {
      var init, c := kids[..|kids| - 1], kids[|kids| - 1];
      FixKidsSettle(init);
      FixKidsWellFormed(init);
      FixupSettles(c);
      var done := FixKids(init);
      if Mergeable(c) && EndsInText(done) {
        var last := done[|done| - 1];
        assert WellFormed(last);
        assert Settled(last.(text := MergeText(last.text, Reading(c))));
      }
    }
  }

  // ---------- normalising twice ----------

  function BeforeNLs(kids: seq<Doc>): seq<Doc> {
    if kids != [] && kids[|kids| - 1].id.NL? then BeforeNLs(kids[..|kids| - 1]) else kids
  }

  predicate EndsInNL(kids: seq<Doc>) {
    kids != [] && kids[|kids| - 1].id.NL?
  }

  /** The children end in two or more newlines that no text child comes right before. */
  predicate BlankTail(kids: seq<Doc>) {
    |kids| >= 2 && kids[|kids| - 1].id.NL? && kids[|kids| - 2].id.NL? && !EndsInText(BeforeNLs(kids))
  }

  predicate HasBlankTail(t: Doc) {
    BlankTail(t.kids) || exists i :: 0 <= i < |t.kids| && HasBlankTail(t.kids[i])
  }

  predicate AnyBlankTail(kids: seq<Doc>) {
    exists i :: 0 <= i < |kids| && HasBlankTail(kids[i])
  }

  lemma {:induction false} LastKind(kids: seq<Doc>)
    ensures EndsInText(FixKids(kids)) <==> EndsInText(BeforeNLs(kids))
    ensures EndsInNL(FixKids(kids)) <==> EndsInNL(kids) && !EndsInText(BeforeNLs(kids))
  {
    if kids != [] { LastKind(kids[..|kids| - 1]); }
  }

  /** Children that need no merging are normalised one by one. */
  lemma {:induction false} OneByOne(kids: seq<Doc>)
    requires NoneToMerge(kids)
    ensures |FixKids(kids)| == |kids| && forall i :: 0 <= i < |kids| ==> FixKids(kids)[i] == Fixup(kids[i])
  {
    if kids != [] {
      OneByOne(kids[..|kids| - 1]);
    }
  }

  predicate Stable(t: Doc) {
    Fixup(t) == t
  }

  predicate AllStable(kids: seq<Doc>) {
    forall i :: 0 <= i < |kids| ==> Stable(kids[i])
  }

  lemma StableText(t: Doc)
    requires WellFormed(t) && Mergeable(t)
    ensures Stable(t) && !HasBlankTail(t)
  {
  }

  lemma StableSnoc(kids: seq<Doc>, c: Doc)
    ensures AllStable(kids + [c]) <==> AllStable(kids) && Stable(c)
  {
    hide Stable;
    var all := kids + [c];
    assert all[|kids|] == c && forall i :: 0 <= i < |kids| ==> all[i] == kids[i];
  }

  lemma BlankSnoc(kids: seq<Doc>, c: Doc)
    ensures AnyBlankTail(kids + [c]) <==> AnyBlankTail(kids) || HasBlankTail(c)
  {
    hide HasBlankTail;
    var all := kids + [c];
    assert all[|kids|] == c && forall i :: 0 <= i < |kids| ==> all[i] == kids[i];
  }

  lemma StableList(kids: seq<Doc>)
    requires NoneToMerge(kids)
    ensures FixKids(kids) == kids <==> AllStable(kids)
  {
    OneByOne(kids);
  }

  lemma {:induction false} StableKids(kids: seq<Doc>)
    requires AllWellFormed(kids)
    ensures AllStable(FixKids(kids)) <==> !AnyBlankTail(kids)
    decreases kids
  {
    if kids != [] {
      var init, c := kids[..|kids| - 1], kids[|kids| - 1];
      assert kids == init + [c];
      StableKids(init);
      BlankSnoc(init, c);
      FixKidsWellFormed(init);
      var done := FixKids(init);
      hide Stable, AllStable, HasBlankTail, AnyBlankTail, Fixup;
      if Mergeable(c) && EndsInText(done) {
        StableText(c);
        StableExtend(done, c);
      } else {
        FixupTwice(c);
        assert Stable(Fixup(c)) <==> Fixup(Fixup(c)) == Fixup(c) by { StableMeans(Fixup(c)); }
        StableSnoc(done, Fixup(c));
      }
    }
  }

  lemma StableMeans(t: Doc)
    ensures Stable(t) <==> Fixup(t) == t
  {
  }

  lemma StableExtend(done: seq<Doc>, c: Doc)
    requires AllWellFormed(done) && EndsInText(done) && WellFormed(c) && Mergeable(c)
    ensures AllStable(Extend(done, c)) <==> AllStable(done)
  {
    var init, last := done[..|done| - 1], done[|done| - 1];
    var longer := last.(text := MergeText(last.text, Reading(c)));
    assert WellFormed(last) && done == init + [last];
    StableText(last);
    StableText(longer);
    StableSnoc(init, last);
    StableSnoc(init, longer);
  }

  /** Normalising again changes nothing, exactly when no node's children end in such a tail. */
  lemma {:induction false} FixupTwice(t: Doc)
    requires WellFormed(t)
    ensures Fixup(Fixup(t)) == Fixup(t) <==> !HasBlankTail(t)
    decreases t, 0
  {
    var kept := DropFinalNL(t.kids);
    var done := FixKids(kept);
    FixupSettles(t);
    if t.text.Some? { StripTwice(t.text.value); }
    StableKids(kept);
    LastKind(kept);
    BlankKept(t);
    hide FixKids, Settled, AllStable, AnyBlankTail, HasBlankTail, BlankTail;
    if EndsInNL(done) {
      assert NoneToMerge(done[..|done| - 1]);
      OneByOne(done[..|done| - 1]);
    } else {
      StableList(done);
    }
  }

  lemma BlankKept(t: Doc)
    requires WellFormed(t)
    ensures var kept := DropFinalNL(t.kids);
      && (BlankTail(t.kids) <==> EndsInNL(kept) && !EndsInText(BeforeNLs(kept)) && kept != t.kids)
      && (EndsInNL(kept) ==> kept != t.kids)
      && (HasBlankTail(t) <==> BlankTail(t.kids) || AnyBlankTail(kept))
  {
    HasMeans(t);
    hide HasBlankTail, AnyBlankTail, BeforeNLs, BlankTail, WellFormed;
    var kept := DropFinalNL(t.kids);
    if EndsInNL(t.kids) {
      LastOk(t);
      BlankLast(kept, t.kids[|kept|]);
      assert t.kids == kept + [t.kids[|kept|]];
    } else {
      NoBlankTail(t.kids);
    }
  }

  lemma LastOk(t: Doc)
    requires WellFormed(t) && t.kids != []
    ensures WellFormed(t.kids[|t.kids| - 1])
  {
  }

  lemma NoBlankTail(kids: seq<Doc>)
    requires !EndsInNL(kids)
    ensures !BlankTail(kids)
  {
  }

  lemma BlankLast(kept: seq<Doc>, c: Doc)
    requires WellFormed(c) && c.id.NL?
    ensures BlankTail(kept + [c]) <==> EndsInNL(kept) && !EndsInText(BeforeNLs(kept))
    ensures AnyBlankTail(kept + [c]) <==> AnyBlankTail(kept)
  {
    StableText(c);
    BlankSnoc(kept, c);
    assert (kept + [c])[..|kept|] == kept;
  }

  lemma HasMeans(t: Doc)
    ensures HasBlankTail(t) <==> BlankTail(t.kids) || AnyBlankTail(t.kids)
  {
  }

  /** An element with two newlines and nothing else loses one newline each time. */
  lemma TwoNewlines()
    ensures var nl := Doc(NL, None, []); var t := Doc(ELEMENT("BODY"), None, [nl, nl]);
      && WellFormed(t) && HasBlankTail(t)
      && Fixup(t).kids == [nl] && Fixup(Fixup(t)).kids == []
  {
    var nl := Doc(NL, None, []);
    var t := Doc(ELEMENT("BODY"), None, [nl, nl]);
    assert DropFinalNL(t.kids) == [nl] && [nl][..0] == [];
    assert FixKids([]) == [];
    assert FixKids([nl]) == [Fixup(nl)];
    assert Fixup(nl) == nl;
    assert DropFinalNL([nl]) == [];
    assert BeforeNLs([nl]) == BeforeNLs([]) == [];
    assert t.kids[..1] == [nl];
    assert BeforeNLs(t.kids) == [];
  }
}

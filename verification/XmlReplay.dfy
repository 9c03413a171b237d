/** What the parser's handlers build from a document, and what becomes of a tree that is
    printed and read again. */
module XmlReplay {
  import opened XmlText
  import opened XmlReading

  /** The tree built from a document: an item of the body at a time. */
  function Built(d: Doc): Tree
    decreases d, 1
  {
    BuiltBody(Tree(d.name, d.attrs, "", [], Leaf), d.body)
  }

  function BuiltBody(t: Tree, body: seq<Item>): Tree
    decreases body, 0
  {
    if body == [] then t
    else if body[0].Text? then BuiltBody(t.(contents := body[0].chunk, kind := Leaf), body[1..])
    else BuiltBody(t.(kids := t.kids + [Built(body[0])], kind := Node), body[1..])
  }

  /** The trees of a body's elements, in order. */
  function BuiltKids(body: seq<Item>): seq<Tree> {
    if body == [] then []
    else if body[0].Text? then BuiltKids(body[1..])
    else [Built(body[0])] + BuiltKids(body[1..])
  }

  lemma {:induction false} BodyBuilds(t: Tree, body: seq<Item>)
    ensures var b := BuiltBody(t, body);
            && b.name == t.name && b.attrs == t.attrs
            && b.kids == t.kids + BuiltKids(body)
            && (body == [] ==> b == t)
            && (body != [] && body[|body| - 1].Text? ==> b.kind == Leaf && b.contents == body[|body| - 1].chunk)
            && (body != [] && body[|body| - 1].Elem? ==> b.kind == Node)
    decreases body
  {
    if body != [] {
      var next := if body[0].Text? then t.(contents := body[0].chunk, kind := Leaf)
                  else t.(kids := t.kids + [Built(body[0])], kind := Node);
      BodyBuilds(next, body[1..]);
      if body[0].Elem? {
        assert t.kids + ([Built(body[0])] + BuiltKids(body[1..])) == (t.kids + [Built(body[0])]) + BuiltKids(body[1..]);
      }
    }
  }

  /** What is built has the document's name, attributes and children in order; a node whose
      body ends in text, and an empty one, is a leaf with the last chunk for its contents. */
  lemma BuiltIs(d: Doc)
    ensures var b := Built(d);
            && b.name == d.name && b.attrs == d.attrs && b.kids == BuiltKids(d.body)
            && (d.body == [] ==> b.kind == Leaf && b.contents == "")
            && (d.body != [] && d.body[|d.body| - 1].Text? ==> b.kind == Leaf && b.contents == d.body[|d.body| - 1].chunk)
            && (d.body != [] && d.body[|d.body| - 1].Elem? ==> b.kind == Node)
  {
    BodyBuilds(Tree(d.name, d.attrs, "", [], Leaf), d.body);
    assert [] + BuiltKids(d.body) == BuiltKids(d.body);
  }

  /** The text of every element without children comes in one chunk. */
  predicate Whole(d: Doc)
    decreases d, 1
  {
    if Texts(d.body) == |d.body| then |d.body| <= 1 else WholeBody(d.body)
  }

  predicate WholeBody(body: seq<Item>)
    decreases body, 0
  {
    body == [] || ((body[0].Elem? ==> Whole(body[0])) && WholeBody(body[1..]))
  }

  /** Past its leading text a body goes on with its first element. */
  lemma {:induction false} SkipTexts(body: seq<Item>)
    ensures var n := Texts(body);
            && BuiltKids(body) == (if n == |body| then [] else [Built(body[n])] + BuiltKids(body[n + 1..]))
            && (n < |body| ==> (WholeBody(body) <==> Whole(body[n]) && WholeBody(body[n + 1..])))
            && (n == |body| ==> WholeBody(body))
  {
    if body != [] && body[0].Text? {
      SkipTexts(body[1..]);
      var n := Texts(body[1..]);
      assert n < |body[1..]| ==> body[1..][n + 1..] == body[n + 2..] && body[1..][n] == body[n + 1];
    }
  }

  /** Text in several chunks is longer than the last of them. */
  lemma {:induction false} SaidLonger(body: seq<Item>)
    requires CleanBody(body) && Texts(body) == |body| > 0
    ensures |Said(body, |body|)| >= |body[|body| - 1].chunk| > 0
    ensures |Said(body, |body|)| == |body[|body| - 1].chunk| <==> |body| == 1
    ensures |body| == 1 ==> Said(body, |body|) == body[0].chunk
  {
    if |body| > 1 {
      SaidLonger(body[1..]);
      assert body[1..][|body| - 2] == body[|body| - 1];
    } else {
      assert Said(body, 1) == body[0].chunk + Said(body[1..], 0);
    }
  }

  /** Whether layout or an element comes last. */
  lemma {:induction false} KidsEnd(body: seq<Item>, lay: Layout, kids: seq<Tree>, deeper: string, indent: string)
    requires CleanBody(body) && ReadingKids(body, lay, kids, deeper, indent)
    ensures lay.Indented? ==> body != [] && body[|body| - 1].Text?
    ensures lay.Flat? && kids != [] ==> body != [] && body[|body| - 1].Elem?
    ensures lay.Flat? && kids == [] ==> body == []
    decreases kids
  {
    var n := Texts(body);
    if kids == [] {
      if body != [] { SaidLonger(body); }
    } else {
      BodyClean(body);
      KidsEnd(body[n + 1..], lay, kids[1..], deeper, indent);
    }
  }

  /** As the original prints, or shorter. */
  ghost predicate Prints(replayed: string, original: string, whole: bool) {
    && |replayed| <= |original|
    && (|replayed| == |original| <==> whole)
    && (whole ==> replayed == original)
  }

  lemma PrintsAround(before: string, replayed: string, original: string, after: string, whole: bool)
    requires Prints(replayed, original, whole)
    ensures Prints(before + (replayed + after), before + (original + after), whole)
  {
  }

  lemma PrintsBoth(a: string, b: string, c: string, d: string, w1: bool, w2: bool)
    requires Prints(a, c, w1) && Prints(b, d, w2)
    ensures Prints(a + b, c + d, w1 && w2)
  {
  }

  lemma {:induction false} CoreReplays(d: Doc, lay: Layout, t: Tree, indent: string)
    requires CleanDoc(d) && Clean(t) && Reading(d, lay, t, indent)
    ensures Prints(Core(lay, Built(d), indent), Core(lay, t, indent), Whole(d))
    decreases t, 1
  {
    BuiltIs(d);
    if !Short(t) {
      if t.kids == [] {
        LeafReplays(d, lay, t, indent);
      } else {
        KidsReplay(d.body, lay, t.kids, Deeper(lay, indent), indent, t.name);
        KidsEnd(d.body, lay, t.kids, Deeper(lay, indent), indent);
        ElementReplays(d, lay, t, indent);
      }
    }
  }

  lemma LeafReplays(d: Doc, lay: Layout, t: Tree, indent: string)
    requires CleanDoc(d) && Clean(t) && Reading(d, lay, t, indent) && !Short(t) && t.kids == []
    ensures Prints(Core(lay, Built(d), indent), Core(lay, t, indent), Whole(d))
  {
    BuiltIs(d);
    SaidLonger(d.body);
    SkipTexts(d.body);
    var b := Built(d);
    PrintsAround(">", b.contents, t.contents, EndTag(t.name), Whole(d));
    PrintsAround(AttrText(t.attrs), ">" + (b.contents + EndTag(t.name)), ">" + (t.contents + EndTag(t.name)), "", Whole(d));
    Surround(AttrText(t.attrs), ">" + (b.contents + EndTag(t.name)), ">" + (t.contents + EndTag(t.name)), "<" + t.name, Whole(d));
  }

  /** The tag in front of what is printed. */
  lemma Surround(attrs: string, replayed: string, original: string, tag: string, whole: bool)
    requires Prints(replayed, original, whole)
    ensures Prints(tag + (attrs + replayed), tag + (attrs + original), whole)
  {
    PrintsAround(attrs, replayed, original, "", whole);
    assert replayed + "" == replayed && original + "" == original;
    PrintsAround(tag, attrs + replayed, attrs + original, "", whole);
    assert (attrs + replayed) + "" == attrs + replayed && (attrs + original) + "" == attrs + original;
  }

  lemma ElementReplays(d: Doc, lay: Layout, t: Tree, indent: string)
    requires CleanDoc(d) && Clean(t) && Reading(d, lay, t, indent) && !Short(t) && t.kids != []
    requires d.body != [] && (d.body[|d.body| - 1].Text? || lay.Flat?)
    requires lay.Flat? ==> d.body[|d.body| - 1].Elem?
    requires Prints(CoreKids(lay, BuiltKids(d.body), Deeper(lay, indent), indent, t.name),
                    CoreKids(lay, t.kids, Deeper(lay, indent), indent, t.name), WholeBody(d.body))
    ensures Prints(Core(lay, Built(d), indent), Core(lay, t, indent), Whole(d))
  {
    BuiltIs(d);
    SkipTexts(d.body);
    LastChunk(d.body);
    var b := Built(d);
    assert b.kids != [] && !Short(b) && Whole(d) == WholeBody(d.body);
    PrintsAround(">", Inner(lay, b, indent), Inner(lay, t, indent), "", Whole(d));
    assert Inner(lay, b, indent) + "" == Inner(lay, b, indent) && Inner(lay, t, indent) + "" == Inner(lay, t, indent);
    Surround(AttrText(t.attrs), ">" + Inner(lay, b, indent), ">" + Inner(lay, t, indent), "<" + t.name, Whole(d));
  }

  lemma {:induction false} LastChunk(body: seq<Item>)
    requires CleanBody(body)
    ensures body != [] && body[|body| - 1].Text? ==> body[|body| - 1].chunk != ""
  {
    if |body| > 1 {
      LastChunk(body[1..]);
      assert body[1..][|body| - 2] == body[|body| - 1];
    }
  }

  lemma {:induction false} KidsReplay(body: seq<Item>, lay: Layout, kids: seq<Tree>, deeper: string, indent: string, name: string)
    requires CleanBody(body) && (forall i :: 0 <= i < |kids| ==> Clean(kids[i])) && ReadingKids(body, lay, kids, deeper, indent)
    ensures Prints(CoreKids(lay, BuiltKids(body), deeper, indent, name), CoreKids(lay, kids, deeper, indent, name), WholeBody(body))
    decreases kids, 0
  {
    SkipTexts(body);
    if kids != [] {
      BodyClean(body);
      var n := Texts(body);
      CoreReplays(body[n], lay, kids[0], deeper);
      KidsReplay(body[n + 1..], lay, kids[1..], deeper, indent, name);
      KidReplays(Built(body[n]), BuiltKids(body[n + 1..]), lay, kids, deeper, indent, name,
                 Whole(body[n]), WholeBody(body[n + 1..]));
    }
  }

  lemma KidReplays(first: Tree, rest: seq<Tree>, lay: Layout, kids: seq<Tree>, deeper: string, indent: string, name: string,
                   w1: bool, w2: bool)
    requires kids != []
    requires Prints(Core(lay, first, deeper), Core(lay, kids[0], deeper), w1)
    requires Prints(CoreKids(lay, rest, deeper, indent, name), CoreKids(lay, kids[1..], deeper, indent, name), w2)
    ensures Prints(CoreKids(lay, [first] + rest, deeper, indent, name), CoreKids(lay, kids, deeper, indent, name), w1 && w2)
  {
    assert ([first] + rest)[1..] == rest;
    var a, b := Core(lay, first, deeper), CoreKids(lay, rest, deeper, indent, name);
    var c, d := Core(lay, kids[0], deeper), CoreKids(lay, kids[1..], deeper, indent, name);
    PrintsBoth(a, b, c, d, w1, w2);
    PrintsAround(Break(lay, deeper), a + b, c + d, "", w1 && w2);
    assert (a + b) + "" == a + b && (c + d) + "" == c + d;
  }

  /** Print and replay theorem: of the documents without markup in their strings that have
      a tree's indented print for their text (the line feed after the root aside), exactly
      those that report every childless element's text in one chunk build a tree that prints
      the same. */
  lemma PrintReplays(t: Tree, d: Doc)
    requires Clean(t) && CleanDoc(d) && Render(d) + "\n" == Print(t, "")
    ensures Print(Built(d), "") == Print(t, "") <==> Whole(d)
  {
    assert "" + Core(Indented, t, "") + "\n" == Core(Indented, t, "") + "\n";
    CoreReads(d, Indented, t, "", "\n", "\n");
    CoreReplays(d, Indented, t, "");
    assert |Print(Built(d), "")| == |Core(Indented, Built(d), "")| + 1;
    assert |Print(t, "")| == |Core(Indented, t, "")| + 1;
  }

  /** The same for the printer without layout. */
  lemma PrintFlatReplays(t: Tree, d: Doc)
    requires Clean(t) && CleanDoc(d) && Render(d) == PrintFlat(t)
    ensures PrintFlat(Built(d)) == PrintFlat(t) <==> Whole(d)
  {
    assert Core(Flat, t, "") + "" == Core(Flat, t, "") && Render(d) + "" == Render(d);
    CoreReads(d, Flat, t, "", "", "");
    CoreReplays(d, Flat, t, "");
  }

  // --------------------------------------------------------- there is a reading

  /** The reading with as few chunks as there can be. */
  function Canonical(lay: Layout, t: Tree, indent: string): Doc
    decreases t, 1
  {
    if Short(t) then Elem(t.name, t.attrs, [])
    else if t.kids == [] then Elem(t.name, t.attrs, [Text(t.contents)])
    else Elem(t.name, t.attrs, CanonicalKids(lay, t.kids, Deeper(lay, indent), indent))
  }

  function Spacing(lay: Layout, indent: string): seq<Item> {
    if lay.Indented? then [Text("\n" + indent)] else []
  }

  function CanonicalKids(lay: Layout, kids: seq<Tree>, deeper: string, indent: string): seq<Item>
    decreases kids, 0
  {
    if kids == [] then Spacing(lay, indent)
    else Spacing(lay, deeper) + ([Canonical(lay, kids[0], deeper)] + CanonicalKids(lay, kids[1..], deeper, indent))
  }

  /** Every print can be read in one chunk per text. */
  lemma {:induction false} CanonicalReads(lay: Layout, t: Tree, indent: string)
    requires Clean(t) && IsText(indent)
    ensures var d := Canonical(lay, t, indent); CleanDoc(d) && Whole(d) && Reading(d, lay, t, indent)
    decreases t, 1
  {
    if !Short(t) {
      if t.kids == [] {
        var body := [Text(t.contents)];
        assert body[1..] == [];
        assert Said(body, 1) == t.contents;
      } else {
        CanonicalKidsRead(lay, t.kids, Deeper(lay, indent), indent);
        SkipTexts(CanonicalKids(lay, t.kids, Deeper(lay, indent), indent));
      }
    }
  }

  lemma {:induction false} CanonicalKidsRead(lay: Layout, kids: seq<Tree>, deeper: string, indent: string)
    requires (forall i :: 0 <= i < |kids| ==> Clean(kids[i])) && IsText(deeper) && IsText(indent)
    ensures var body := CanonicalKids(lay, kids, deeper, indent);
            CleanBody(body) && WholeBody(body) && ReadingKids(body, lay, kids, deeper, indent)
    decreases kids, 0
  {
    if kids == [] {
      GapBefore(lay, indent, []);
      assert Spacing(lay, indent) + [] == Spacing(lay, indent);
    } else {
      CanonicalReads(lay, kids[0], deeper);
      CanonicalKidsRead(lay, kids[1..], deeper, indent);
      var first, rest := Canonical(lay, kids[0], deeper), CanonicalKids(lay, kids[1..], deeper, indent);
      assert ([first] + rest)[1..] == rest;
      GapBefore(lay, deeper, [first] + rest);
      OneMoreKid(Spacing(lay, deeper) + ([first] + rest), lay, kids, deeper, indent);
    }
  }

  /** Layout in front of what does not begin with text. */
  lemma GapBefore(lay: Layout, indent: string, body: seq<Item>)
    requires IsText(indent) && CleanBody(body) && WholeBody(body) && Texts(body) == 0
    ensures var all := Spacing(lay, indent) + body;
            && CleanBody(all) && WholeBody(all)
            && Texts(all) == |Spacing(lay, indent)| && Said(all, Texts(all)) == Break(lay, indent)
            && all[Texts(all)..] == body
            && (body != [] ==> all[Texts(all)] == body[0] && all[Texts(all) + 1..] == body[1..])
  {
    var all := Spacing(lay, indent) + body;
    if lay.Indented? {
      assert all[0] == Text("\n" + indent) && all[1..] == body;
      assert Said(all, 1) == ("\n" + indent) + Said(body, 0);
    } else {
      assert all == body;
    }
  }
}

/** Reading a print: the markup-free documents whose text is a tree's print are exactly the
    readings of that print, text in any chunks. */
module XmlReading {
  import opened XmlText

  /** Two strings cut where a character that a does not hold first stands. */
  lemma {:induction false} NameSpan(a: string, b: string, x: string, y: string)
    requires (forall i :: 0 <= i < |a| ==> NameChar(a[i])) && (forall i :: 0 <= i < |b| ==> NameChar(b[i]))
    requires x != "" && !NameChar(x[0]) && y != "" && !NameChar(y[0])
    requires a + x == b + y
    ensures a == b && x == y
  {
    assert (a == "" ==> a + x == x) && (b == "" ==> b + y == y);
    assert (a != "" ==> (a + x)[0] == a[0]) && (b != "" ==> (b + y)[0] == b[0]);
    if a != "" {
      assert a[0] == (a + x)[0] == (b + y)[0] == b[0];
      assert a[1..] + x == (a + x)[1..] && b[1..] + y == (b + y)[1..];
      NameSpan(a[1..], b[1..], x, y);
      assert a == [a[0]] + a[1..] && b == [b[0]] + b[1..];
    }
  }

  lemma {:induction false} SpanBefore(c: char, a: string, b: string, x: string, y: string)
    requires (forall i :: 0 <= i < |a| ==> a[i] != c) && (forall i :: 0 <= i < |b| ==> b[i] != c)
    requires x != "" && x[0] == c && y != "" && y[0] == c
    requires a + x == b + y
    ensures a == b && x == y
  {
    assert (a == "" ==> a + x == x) && (b == "" ==> b + y == y);
    assert (a != "" ==> (a + x)[0] == a[0]) && (b != "" ==> (b + y)[0] == b[0]);
    if a != "" {
      assert a[0] == (a + x)[0] == (b + y)[0] == b[0];
      assert a[1..] + x == (a + x)[1..] && b[1..] + y == (b + y)[1..];
      SpanBefore(c, a[1..], b[1..], x, y);
      assert a == [a[0]] + a[1..] && b == [b[0]] + b[1..];
    }
  }

  /** Same beginnings leave same ends. */
  lemma Strip(p: string, x: string, y: string)
    requires p + x == p + y
    ensures x == y
  {
    assert x == (p + x)[|p|..] && y == (p + y)[|p|..];
  }

  /** What can follow the attributes: `>` or ` />`. */
  predicate TagTail(x: string) {
    x != "" && (x[0] == '>' || (x[0] == ' ' && |x| > 1 && x[1] == '/'))
  }

  lemma FirstAttr(attrs: seq<Attr>, x: string)
    requires attrs != []
    ensures AttrText(attrs) + x
         == " " + (attrs[0].name + ("=\"" + (attrs[0].val + ("\"" + (AttrText(attrs[1..]) + x)))))
  {
  }

  lemma {:induction false} AttrsSpan(a: seq<Attr>, b: seq<Attr>, x: string, y: string)
    requires CleanAttrs(a) && CleanAttrs(b) && TagTail(x) && TagTail(y)
    requires AttrText(a) + x == AttrText(b) + y
    ensures a == b && x == y
    decreases |a|
  {
    if a == [] && b == [] {
      assert AttrText(a) + x == x && AttrText(b) + y == y;
    } else if a == [] {
      AttrNotTail(b, y, x);
    } else if b == [] {
      AttrNotTail(a, x, y);
    } else {
      FirstAttr(a, x);
      FirstAttr(b, y);
      var va, vb := AttrText(a[1..]) + x, AttrText(b[1..]) + y;
      AttrSpan(a[0], b[0], va, vb);
      AttrsSpan(a[1..], b[1..], x, y);
      assert a == [a[0]] + a[1..] && b == [b[0]] + b[1..];
    }
  }

  lemma AttrNotTail(b: seq<Attr>, y: string, x: string)
    requires b != [] && CleanAttrs(b) && TagTail(x)
    ensures AttrText(b) + y != AttrText([]) + x
  {
    FirstAttr(b, y);
    assert AttrText([]) + x == x;
    var rest := b[0].name + ("=\"" + (b[0].val + ("\"" + (AttrText(b[1..]) + y))));
    assert (" " + rest)[0] == ' ' && (" " + rest)[1] == b[0].name[0];
  }

  lemma AttrSpan(a: Attr, b: Attr, x: string, y: string)
    requires IsName(a.name) && IsName(b.name) && IsValue(a.val) && IsValue(b.val)
    requires " " + (a.name + ("=\"" + (a.val + ("\"" + x)))) == " " + (b.name + ("=\"" + (b.val + ("\"" + y))))
    ensures a == b && x == y
  {
    Strip(" ", a.name + ("=\"" + (a.val + ("\"" + x))), b.name + ("=\"" + (b.val + ("\"" + y))));
    NameSpan(a.name, b.name, "=\"" + (a.val + ("\"" + x)), "=\"" + (b.val + ("\"" + y)));
    Strip("=\"", a.val + ("\"" + x), b.val + ("\"" + y));
    SpanBefore('"', a.val, b.val, "\"" + x, "\"" + y);
    Strip("\"", x, y);
  }

  predicate Plain(s: string) {
    forall i :: 0 <= i < |s| ==> s[i] != '<'
  }

  // ------------------------------------------------------------------- bodies

  /** What a body shows after its leading text: a child or the end tag. */
  function AfterTexts(body: seq<Item>, name: string): string {
    var n := Texts(body);
    if n == |body| then EndTag(name) else Render(body[n]) + RenderBody(body[n + 1..], name)
  }

  lemma {:induction false} BodySplits(body: seq<Item>, name: string)
    ensures RenderBody(body, name) == Said(body, Texts(body)) + AfterTexts(body, name)
  {
    if body != [] && body[0].Text? {
      BodySplits(body[1..], name);
      AfterTextsTail(body, name);
      Assoc(body[0].chunk, Said(body[1..], Texts(body[1..])), AfterTexts(body[1..], name));
    } else {
      assert "" + AfterTexts(body, name) == AfterTexts(body, name);
    }
  }

  lemma AfterTextsTail(body: seq<Item>, name: string)
    requires body != [] && body[0].Text?
    ensures AfterTexts(body, name) == AfterTexts(body[1..], name)
  {
    var n := Texts(body[1..]);
    assert Texts(body) == n + 1;
    if n < |body[1..]| {
      assert body[1..][n] == body[n + 1] && body[1..][n + 1..] == body[n + 2..];
    }
  }

  lemma Assoc(a: string, b: string, c: string)
    ensures (a + b) + c == a + (b + c)
  {
  }

  lemma {:induction false} BodyClean(body: seq<Item>)
    requires CleanBody(body)
    ensures Plain(Said(body, Texts(body)))
    ensures Texts(body) < |body| ==> CleanDoc(body[Texts(body)]) && CleanBody(body[Texts(body) + 1..])
  {
    if body != [] && body[0].Text? {
      BodyClean(body[1..]);
      var n := Texts(body[1..]);
      assert n < |body[1..]| ==> body[1..][n + 1..] == body[n + 2..];
    }
  }

  lemma RenderBegins(d: Doc)
    requires CleanDoc(d)
    ensures |Render(d)| > 1 && Render(d)[0] == '<' && Render(d)[1] == d.name[0] && d.name[0] != '/'
  {
  }

  lemma CoreBegins(lay: Layout, t: Tree, indent: string)
    requires Clean(t)
    ensures var c := Core(lay, t, indent); |c| > 1 && c[0] == '<' && c[1] == t.name[0] && t.name[0] != '/'
  {
  }

  lemma AfterTextsBegins(body: seq<Item>, name: string, q: string)
    requires CleanBody(body)
    ensures var a := AfterTexts(body, name) + q;
            && |a| > 1 && a[0] == '<'
            && (Texts(body) == |body| <==> a[1] == '/')
  {
    BodyClean(body);
    if Texts(body) < |body| { RenderBegins(body[Texts(body)]); }
  }

  /** A plain text and the markup after it can only be read as the leading text of a body and
      what follows it. */
  lemma TextReads(body: seq<Item>, name: string, text: string, markup: string, q: string)
    requires CleanBody(body) && Plain(text) && markup != "" && markup[0] == '<'
    requires text + markup == RenderBody(body, name) + q
    ensures Said(body, Texts(body)) == text && markup == AfterTexts(body, name) + q
  {
    BodySplits(body, name);
    BodyClean(body);
    AfterTextsBegins(body, name, q);
    var said := Said(body, Texts(body));
    Assoc(said, AfterTexts(body, name), q);
    SpanBefore('<', text, said, markup, AfterTexts(body, name) + q);
  }

  /** An end tag can only be read as the end of the body. */
  lemma EndReads(body: seq<Item>, name: string, text: string, r: string, q: string)
    requires CleanBody(body) && Plain(text)
    requires text + (EndTag(name) + r) == RenderBody(body, name) + q
    ensures Texts(body) == |body| && Said(body, |body|) == text && r == q
  {
    assert (EndTag(name) + r)[0] == '<' && (EndTag(name) + r)[1] == '/';
    TextReads(body, name, text, EndTag(name) + r, q);
    AfterTextsBegins(body, name, q);
    Strip(EndTag(name), r, q);
  }

  /** A start tag can only be read as that of the next child. */
  lemma ChildReads(body: seq<Item>, name: string, text: string, element: string, q: string)
    requires CleanBody(body) && Plain(text)
    requires |element| > 1 && element[0] == '<' && element[1] != '/'
    requires text + element == RenderBody(body, name) + q
    ensures var n := Texts(body);
            && n < |body| && Said(body, n) == text
            && CleanDoc(body[n]) && CleanBody(body[n + 1..])
            && element == Render(body[n]) + (RenderBody(body[n + 1..], name) + q)
  {
    TextReads(body, name, text, element, q);
    AfterTextsBegins(body, name, q);
    BodyClean(body);
    AfterTextsChild(body, name, q);
  }

  lemma AfterTextsChild(body: seq<Item>, name: string, q: string)
    requires Texts(body) < |body|
    ensures var n := Texts(body);
            AfterTexts(body, name) + q == Render(body[n]) + (RenderBody(body[n + 1..], name) + q)
  {
    var n := Texts(body);
    Assoc(Render(body[n]), RenderBody(body[n + 1..], name), q);
  }

  // ----------------------------------------------------------------- elements

  ghost function TreeTail(lay: Layout, t: Tree, indent: string): string {
    if Short(t) then " />" else ">" + Inner(lay, t, indent)
  }

  ghost function DocTail(d: Doc): string {
    if d.body == [] then " />" else ">" + RenderBody(d.body, d.name)
  }

  /** The tags' names and attributes agree, and so do the texts after them. */
  lemma TagsAgree(d: Doc, lay: Layout, t: Tree, indent: string, r: string, q: string)
    requires CleanDoc(d) && Clean(t) && Core(lay, t, indent) + r == Render(d) + q
    ensures d.name == t.name && d.attrs == t.attrs
    ensures TreeTail(lay, t, indent) + r == DocTail(d) + q
  {
    var x, y := TreeTail(lay, t, indent) + r, DocTail(d) + q;
    CoreParts(lay, t, indent, r);
    RenderParts(d, q);
    Strip("<", t.name + (AttrText(t.attrs) + x), d.name + (AttrText(d.attrs) + y));
    AttrsBegin(t.attrs, x);
    AttrsBegin(d.attrs, y);
    NameSpan(t.name, d.name, AttrText(t.attrs) + x, AttrText(d.attrs) + y);
    AttrsSpan(t.attrs, d.attrs, x, y);
  }

  lemma CoreParts(lay: Layout, t: Tree, indent: string, r: string)
    ensures Core(lay, t, indent) + r == "<" + (t.name + (AttrText(t.attrs) + (TreeTail(lay, t, indent) + r)))
  {
  }

  lemma RenderParts(d: Doc, q: string)
    ensures Render(d) + q == "<" + (d.name + (AttrText(d.attrs) + (DocTail(d) + q)))
  {
  }

  lemma AttrsBegin(attrs: seq<Attr>, x: string)
    requires TagTail(x)
    ensures AttrText(attrs) + x != "" && !NameChar((AttrText(attrs) + x)[0])
  {
    if attrs != [] { FirstAttr(attrs, x); }
  }

  /** Uniqueness theorem: whatever markup-free document has an element's print for its text
      is a reading of it. */
  lemma {:induction false} CoreReads(d: Doc, lay: Layout, t: Tree, indent: string, r: string, q: string)
    requires CleanDoc(d) && Clean(t) && Plain(indent) && Core(lay, t, indent) + r == Render(d) + q
    ensures Reading(d, lay, t, indent) && r == q
    decreases t, 1
  {
    TagsAgree(d, lay, t, indent, r, q);
    if Short(t) {
      ShortTails(d, lay, t, indent, r, q);
    } else {
      LongTails(d, lay, t, indent, r, q);
      if t.kids == [] {
        Assoc(t.contents, EndTag(t.name), r);
        EndReads(d.body, d.name, t.contents, r, q);
      } else {
        KidsRead(d.body, lay, t.kids, Deeper(lay, indent), indent, t.name, r, q);
      }
    }
  }

  lemma ShortTails(d: Doc, lay: Layout, t: Tree, indent: string, r: string, q: string)
    requires Short(t) && TreeTail(lay, t, indent) + r == DocTail(d) + q
    ensures d.body == [] && r == q
  {
    assert (TreeTail(lay, t, indent) + r)[0] == ' ';
    assert d.body == [];
    Strip(" />", r, q);
  }

  lemma LongTails(d: Doc, lay: Layout, t: Tree, indent: string, r: string, q: string)
    requires !Short(t) && TreeTail(lay, t, indent) + r == DocTail(d) + q
    ensures d.body != [] && Inner(lay, t, indent) + r == RenderBody(d.body, d.name) + q
  {
    assert (TreeTail(lay, t, indent) + r)[0] == '>';
    assert d.body != [];
    Assoc(">", Inner(lay, t, indent), r);
    Assoc(">", RenderBody(d.body, d.name), q);
    Strip(">", Inner(lay, t, indent) + r, RenderBody(d.body, d.name) + q);
  }

  lemma {:induction false} KidsRead(body: seq<Item>, lay: Layout, kids: seq<Tree>, deeper: string, indent: string,
                                    name: string, r: string, q: string)
    requires CleanBody(body) && Plain(indent) && Plain(deeper) && forall i :: 0 <= i < |kids| ==> Clean(kids[i])
    requires CoreKids(lay, kids, deeper, indent, name) + r == RenderBody(body, name) + q
    ensures ReadingKids(body, lay, kids, deeper, indent) && r == q
    decreases kids, 0
  {
    if kids == [] {
      NoKidReads(body, lay, deeper, indent, name, r, q);
    } else {
      var first, rest, x, y := FirstKidReads(body, lay, kids, deeper, indent, name, r, q);
      CoreReads(first, lay, kids[0], deeper, x, y);
      assert x == y;
      assert forall i :: 0 <= i < |kids[1..]| ==> Clean(kids[1..][i]);
      assert CoreKids(lay, kids[1..], deeper, indent, name) + r == RenderBody(rest, name) + q;
      KidsRead(rest, lay, kids[1..], deeper, indent, name, r, q);
      OneMoreKid(body, lay, kids, deeper, indent);
    }
  }

  lemma OneMoreKid(body: seq<Item>, lay: Layout, kids: seq<Tree>, deeper: string, indent: string)
    requires kids != [] && Texts(body) < |body| && Said(body, Texts(body)) == Break(lay, deeper)
    requires Reading(body[Texts(body)], lay, kids[0], deeper)
    requires ReadingKids(body[Texts(body) + 1..], lay, kids[1..], deeper, indent)
    ensures ReadingKids(body, lay, kids, deeper, indent)
  {
  }

  lemma NoKidReads(body: seq<Item>, lay: Layout, deeper: string, indent: string, name: string, r: string, q: string)
    requires CleanBody(body) && Plain(indent)
    requires CoreKids(lay, [], deeper, indent, name) + r == RenderBody(body, name) + q
    ensures ReadingKids(body, lay, [], deeper, indent) && r == q
  {
    Assoc(Break(lay, indent), EndTag(name), r);
    EndReads(body, name, Break(lay, indent), r, q);
  }

  lemma FirstKidReads(body: seq<Item>, lay: Layout, kids: seq<Tree>, deeper: string, indent: string,
                      name: string, r: string, q: string)
    returns (first: Doc, rest: seq<Item>, x: string, y: string)
    requires CleanBody(body) && Plain(deeper) && kids != [] && Clean(kids[0])
    requires CoreKids(lay, kids, deeper, indent, name) + r == RenderBody(body, name) + q
    ensures var n := Texts(body);
            n < |body| && Said(body, n) == Break(lay, deeper) && body[n] == first && body[n + 1..] == rest
    ensures CleanDoc(first) && CleanBody(rest) && Core(lay, kids[0], deeper) + x == Render(first) + y
    ensures x == CoreKids(lay, kids[1..], deeper, indent, name) + r && y == RenderBody(rest, name) + q
  {
    var more := CoreKids(lay, kids[1..], deeper, indent, name);
    var element := Core(lay, kids[0], deeper) + (more + r);
    Assoc(Break(lay, deeper), Core(lay, kids[0], deeper) + more, r);
    Assoc(Core(lay, kids[0], deeper), more, r);
    CoreBegins(lay, kids[0], deeper);
    ChildReads(body, name, Break(lay, deeper), element, q);
    first, rest := body[Texts(body)], body[Texts(body) + 1..];
    x, y := more + r, RenderBody(rest, name) + q;
  }

  /** The converse: every reading has the print for its text. */
  lemma {:induction false} ReadingRenders(d: Doc, lay: Layout, t: Tree, indent: string)
    requires CleanDoc(d) && Clean(t) && Reading(d, lay, t, indent)
    ensures Render(d) == Core(lay, t, indent)
    decreases t, 1
  {
    if !Short(t) {
      BodySplits(d.body, d.name);
      if t.kids != [] {
        KidsRender(d.body, lay, t.kids, Deeper(lay, indent), indent, t.name);
        assert d.body != [];
      }
    }
  }

  lemma {:induction false} KidsRender(body: seq<Item>, lay: Layout, kids: seq<Tree>, deeper: string, indent: string, name: string)
    requires CleanBody(body) && (forall i :: 0 <= i < |kids| ==> Clean(kids[i])) && ReadingKids(body, lay, kids, deeper, indent)
    ensures RenderBody(body, name) == CoreKids(lay, kids, deeper, indent, name)
    decreases kids, 0
  {
    BodySplits(body, name);
    if kids != [] {
      BodyClean(body);
      var n := Texts(body);
      ReadingRenders(body[n], lay, kids[0], deeper);
      KidsRender(body[n + 1..], lay, kids[1..], deeper, indent, name);
      var more := CoreKids(lay, kids[1..], deeper, indent, name);
      assert AfterTexts(body, name) == Core(lay, kids[0], deeper) + more;
    }
  }
}

/** The printers of XMLNode.cc as they are written, comments and layout included, and that on
    trees without comments they are the printers of XmlText. */
module XmlPrinter {
  import opened XmlText
  import opened XmlReading

  /** The end of a line and the space before a line, where there are lines. */
  function LineFeed(lay: Layout): string {
    if lay.Indented? then "\n" else ""
  }

  function Lead(lay: Layout, indent: string): string {
    if lay.Indented? then indent else ""
  }

  function Pretty(lay: Layout, t: Tree, indent: string): string
    decreases t, 1
  {
    if t.kind.Comment? then "<!--" + t.contents + "-->" + LineFeed(lay)
    else Lead(lay, indent) + ("<" + t.name + (AttrText(t.attrs) + PrettyTail(lay, t, indent)))
  }

  /** What follows the attributes. */
  function PrettyTail(lay: Layout, t: Tree, indent: string): string
    decreases t, 0
  {
    if Short(t) then " />" + LineFeed(lay)
    else if t.kids == [] then ">" + (t.contents + (EndTag(t.name) + LineFeed(lay)))
    else ">" + (LineFeed(lay) + (PrettyKids(lay, t.kids, Deeper(lay, indent))
         + (Lead(lay, indent) + (EndTag(t.name) + LineFeed(lay)))))
  }

  function PrettyKids(lay: Layout, kids: seq<Tree>, deeper: string): string
    decreases kids, 0
  {
    if kids == [] then "" else Pretty(lay, kids[0], deeper) + PrettyKids(lay, kids[1..], deeper)
  }

  /** Without layout. */
  lemma FlatPretty(t: Tree)
    ensures Pretty(Flat, t, "") ==
            if t.kind.Comment? then "<!--" + t.contents + "-->"
            else "<" + t.name + (AttrText(t.attrs)
                 + if Short(t) then " />"
                   else ">" + ((if t.kids == [] then t.contents else PrettyKids(Flat, t.kids, "")) + EndTag(t.name)))
  {
    assert EndTag(t.name) + "" == EndTag(t.name) && "" + EndTag(t.name) == EndTag(t.name);
  }

  ghost predicate Uncommented(t: Tree) {
    !t.kind.Comment? && forall i :: 0 <= i < |t.kids| ==> Uncommented(t.kids[i])
  }

  /** Line by line, and gap by gap between the parts of an element: the same text. */
  lemma {:induction false} PrettyIsCore(lay: Layout, t: Tree, indent: string)
    requires Uncommented(t)
    ensures Pretty(lay, t, indent) == Lead(lay, indent) + (Core(lay, t, indent) + LineFeed(lay))
    decreases t, 1
  {
    if !Short(t) && t.kids != [] {
      KidsAreCore(lay, t.kids, Deeper(lay, indent), indent, t.name);
    }
    TailIsCore(lay, t, indent);
  }

  lemma TailIsCore(lay: Layout, t: Tree, indent: string)
    requires !Short(t) && t.kids != [] ==>
               LineFeed(lay) + (PrettyKids(lay, t.kids, Deeper(lay, indent)) + (Lead(lay, indent) + EndTag(t.name)))
               == CoreKids(lay, t.kids, Deeper(lay, indent), indent, t.name)
    ensures "<" + t.name + (AttrText(t.attrs) + PrettyTail(lay, t, indent)) == Core(lay, t, indent) + LineFeed(lay)
  {
    var lf := LineFeed(lay);
    var tail := if Short(t) then " />" else ">" + Inner(lay, t, indent);
    assert PrettyTail(lay, t, indent) == tail + lf by {
      if !Short(t) && t.kids != [] {
        var kids, end := PrettyKids(lay, t.kids, Deeper(lay, indent)), Lead(lay, indent) + EndTag(t.name);
        assert Lead(lay, indent) + (EndTag(t.name) + lf) == end + lf;
        Assoc(kids, end, lf);
        Assoc(lf, kids + end, lf);
      }
    }
    Assoc(AttrText(t.attrs), tail, lf);
    Assoc("<" + t.name, AttrText(t.attrs) + tail, lf);
  }

  lemma {:induction false} KidsAreCore(lay: Layout, kids: seq<Tree>, deeper: string, indent: string, name: string)
    requires forall i :: 0 <= i < |kids| ==> Uncommented(kids[i])
    ensures LineFeed(lay) + (PrettyKids(lay, kids, deeper) + (Lead(lay, indent) + EndTag(name)))
         == CoreKids(lay, kids, deeper, indent, name)
    decreases kids, 0
  {
    var lf, end := LineFeed(lay), Lead(lay, indent) + EndTag(name);
    if kids == [] {
      assert "" + end == end;
      Assoc(lf, Lead(lay, indent), EndTag(name));
    } else {
      PrettyIsCore(lay, kids[0], deeper);
      KidsAreCore(lay, kids[1..], deeper, indent, name);
      KidIsCore(lf, Lead(lay, deeper), Core(lay, kids[0], deeper), PrettyKids(lay, kids[1..], deeper), end);
    }
  }

  /** Moving the line feeds from behind the elements to between them. */
  lemma KidIsCore(lf: string, lead: string, core: string, kids: string, end: string)
    ensures lf + (((lead + (core + lf)) + kids) + end) == (lf + lead) + (core + (lf + (kids + end)))
  {
  }

  lemma PrettyPrints(t: Tree, indent: string)
    requires Uncommented(t)
    ensures Pretty(Indented, t, indent) == Print(t, indent)
    ensures Pretty(Flat, t, "") == PrintFlat(t)
  {
    PrettyIsCore(Indented, t, indent);
    PrettyIsCore(Flat, t, "");
  }
}

/** XML elements as text: the trees of XMLNode.cc, what its printers write, and the documents
    that can be read from it. */
module XmlText {
  datatype Kind = Undef | Node | Leaf | Comment

  datatype Attr = Attr(name: string, val: string)

  /** A node as the printers see it. */
  datatype Tree = Tree(name: string, attrs: seq<Attr>, contents: string, kids: seq<Tree>, kind: Kind)

  /** A document as a parser reports it. Character data comes in chunks. */
  datatype Item = Text(chunk: string) | Elem(name: string, attrs: seq<Attr>, body: seq<Item>)
  type Doc = d: Item | d.Elem? witness Elem("a", [], [])

  // ---------------------------------------------------------------- the printers

  /** With line feeds and indentation, or without any. */
  datatype Layout = Indented | Flat

  function AttrText(attrs: seq<Attr>): string {
    if attrs == [] then ""
    else " " + attrs[0].name + "=\"" + attrs[0].val + "\"" + AttrText(attrs[1..])
  }

  predicate Short(t: Tree) {
    t.kind.Leaf? && t.contents == ""
  }

  /** What stands between the parts of an element with children. */
  function Break(lay: Layout, indent: string): string {
    if lay.Indented? then "\n" + indent else ""
  }

  function Deeper(lay: Layout, indent: string): string {
    if lay.Indented? then indent + "  " else indent
  }

  /** An element without the indentation before it and the line feed after it. */
  function Core(lay: Layout, t: Tree, indent: string): string
    decreases t, 1
  {
    if Short(t) then "<" + t.name + (AttrText(t.attrs) + " />")
    else "<" + t.name + (AttrText(t.attrs) + (">" + Inner(lay, t, indent)))
  }

  /** From the start tag's end to the end tag. */
  function Inner(lay: Layout, t: Tree, indent: string): string
    decreases t, 0
  {
    if t.kids == [] then t.contents + EndTag(t.name)
    else CoreKids(lay, t.kids, Deeper(lay, indent), indent, t.name)
  }

  function EndTag(name: string): string {
    "</" + name + ">"
  }

  function CoreKids(lay: Layout, kids: seq<Tree>, deeper: string, indent: string, name: string): string
    decreases kids, 0
  {
    if kids == [] then Break(lay, indent) + EndTag(name)
    else Break(lay, deeper) + (Core(lay, kids[0], deeper) + CoreKids(lay, kids[1..], deeper, indent, name))
  }

  /** The indented printer's output for a tree without comments. */
  function Print(t: Tree, indent: string): string {
    indent + Core(Indented, t, indent) + "\n"
  }

  /** The other printer's. */
  function PrintFlat(t: Tree): string {
    Core(Flat, t, "")
  }

  /** A document as text; the form for empty elements is used where it can be. The tags
      have the form of section 3.1 of XML 1.0. */
  function Render(d: Doc): string
    decreases d, 1
  {
    if d.body == [] then "<" + d.name + (AttrText(d.attrs) + " />")
    else "<" + d.name + (AttrText(d.attrs) + (">" + RenderBody(d.body, d.name)))
  }

  function RenderBody(body: seq<Item>, name: string): string
    decreases body, 0
  {
    if body == [] then EndTag(name)
    else if body[0].Text? then body[0].chunk + RenderBody(body[1..], name)
    else Render(body[0]) + RenderBody(body[1..], name)
  }

  // ------------------------------------------------------------------ readings

  /** How many text chunks the body begins with, and what they say. */
  function Texts(body: seq<Item>): (n: nat)
    ensures n <= |body|
    ensures forall i :: 0 <= i < n ==> body[i].Text?
    ensures n < |body| ==> body[n].Elem?
  {
    if body != [] && body[0].Text? then 1 + Texts(body[1..]) else 0
  }

  function Said(body: seq<Item>, n: nat): string
    requires n <= |body| && forall i :: 0 <= i < n ==> body[i].Text?
  {
    if n == 0 then "" else body[0].chunk + Said(body[1..], n - 1)
  }

  /** d is a reading of t's print: the same element, text in any chunks, layout included. */
  ghost predicate Reading(d: Doc, lay: Layout, t: Tree, indent: string)
    decreases t, 1
  {
    && d.name == t.name && d.attrs == t.attrs
    && if Short(t) then d.body == []
       else if t.kids == [] then
         Texts(d.body) == |d.body| > 0 && Said(d.body, |d.body|) == t.contents
       else ReadingKids(d.body, lay, t.kids, Deeper(lay, indent), indent)
  }

  ghost predicate ReadingKids(body: seq<Item>, lay: Layout, kids: seq<Tree>, deeper: string, indent: string)
    decreases kids, 0
  {
    var n := Texts(body);
    if kids == [] then n == |body| && Said(body, n) == Break(lay, indent)
    else
      && n < |body| && Said(body, n) == Break(lay, deeper)
      && Reading(body[n], lay, kids[0], deeper)
      && ReadingKids(body[n + 1..], lay, kids[1..], deeper, indent)
  }

  // ------------------------------------------------------------- markup-free

  predicate NameChar(c: char) {
    c !in {' ', '/', '>', '<', '=', '"', '\n', '&', '!'}
  }

  predicate IsName(s: string) {
    s != "" && forall i :: 0 <= i < |s| ==> NameChar(s[i])
  }

  predicate IsText(s: string) {
    forall i :: 0 <= i < |s| ==> s[i] != '<' && s[i] != '&'
  }

  predicate IsValue(s: string) {
    forall i :: 0 <= i < |s| ==> s[i] != '<' && s[i] != '&' && s[i] != '"'
  }

  predicate CleanAttrs(attrs: seq<Attr>) {
    forall i :: 0 <= i < |attrs| ==> IsName(attrs[i].name) && IsValue(attrs[i].val)
  }

  /** A tree that the handlers can have built, from strings without markup. */
  ghost predicate Clean(t: Tree)
  {
    && IsName(t.name) && CleanAttrs(t.attrs) && IsText(t.contents)
    && (t.kids == [] ==> t.kind.Leaf?)
    && (t.kids != [] ==> !Short(t) && !t.kind.Comment?)
    && forall i :: 0 <= i < |t.kids| ==> Clean(t.kids[i])
  }

  /** A document of nonempty chunks without markup. */
  ghost predicate CleanDoc(d: Doc)
    decreases d, 1
  {
    && IsName(d.name) && CleanAttrs(d.attrs) && CleanBody(d.body)
  }

  ghost predicate CleanBody(body: seq<Item>)
    decreases body, 0
  {
    body == [] ||
    (&& CleanBody(body[1..])
     && if body[0].Text? then body[0].chunk != "" && IsText(body[0].chunk) else CleanDoc(body[0]))
  }
}

/** The parser's handlers (expat_parser.cc), and that they rebuild every document's tree. */
module XmlBuilder {
  import opened Options
  import opened XmlPrinter
  import opened XmlText
  import opened XmlReading
  import opened XmlReplay

  /** What the parser calls the handlers with. */
  datatype Event = Start(name: string, attrs: seq<Attr>) | End(name: string) | Contents(chunk: string)

  /** A node in memory. Nodes are known by their order of birth; a node that nothing has been
      added to as a child has no parent yet. */
  datatype Rec = Rec(name: string, attrs: seq<Attr>, contents: string, kids: seq<nat>, kind: Kind, parent: Option<nat>)

  /** The handlers' data, with all nodes made so far. */
  datatype Builder = Builder(level: int, current: Option<nat>, nodes: seq<Rec>)

  const FRESH := Builder(0, None, [])

  /** The nodes are a forest: children are younger than their parents and later ones younger
      than earlier ones, and exactly a node's children have it for their parent. */
  ghost predicate Forest(nodes: seq<Rec>) {
    && (forall i, j :: 0 <= i < |nodes| && 0 <= j < |nodes[i].kids| ==>
          i < nodes[i].kids[j] < |nodes| && nodes[nodes[i].kids[j]].parent == Some(i))
    && (forall i, j, k :: 0 <= i < |nodes| && 0 <= j < k < |nodes[i].kids| ==> nodes[i].kids[j] < nodes[i].kids[k])
    && (forall i :: 0 <= i < |nodes| && nodes[i].parent.Some? ==>
          nodes[i].parent.value < i && i in nodes[nodes[i].parent.value].kids)
  }

  ghost predicate Valid(b: Builder) {
    && Forest(b.nodes)
    && (b.current.Some? ==> b.current.value < |b.nodes|)
    && (b.current.None? ==> b.nodes == [])
  }

  function AddChild(nodes: seq<Rec>, n: nat, child: Rec): seq<Rec>
    requires n < |nodes|
  {
    nodes[n := nodes[n].(kids := nodes[n].kids + [|nodes|], kind := Node)] + [child.(parent := Some(n))]
  }

  lemma AddingKeepsForest(nodes: seq<Rec>, n: nat, child: Rec)
    requires Forest(nodes) && n < |nodes| && child.kids == []
    ensures Forest(AddChild(nodes, n, child))
  {
    var after := AddChild(nodes, n, child);
    assert after[n].kids[|nodes[n].kids|] == |nodes|;
    forall i | 0 <= i < |after| && after[i].parent.Some?
      ensures after[i].parent.value < i && i in after[after[i].parent.value].kids
    {
      if i < |nodes| { assert after[i].parent == nodes[i].parent; }
    }
  }

  /** One call of a handler. There is no answer when the handler follows a pointer that is
      NULL or was never set. */
  function Handle(b: Builder, e: Event): (r: Option<Builder>)
    requires Valid(b)
    ensures r.Some? ==> Valid(r.value)
  {
    match e
    case Start(name, attrs) =>
      var node := Rec(name, attrs, "", [], Leaf, None);
      if b.current.None? then Some(Builder(b.level + 1, Some(|b.nodes|), b.nodes + [node]))
      else
        AddingKeepsForest(b.nodes, b.current.value, node);
        Some(Builder(b.level + 1, Some(|b.nodes|), AddChild(b.nodes, b.current.value, node)))
    case End(_) =>
      if b.level <= 1 then Some(b.(level := b.level - 1))
      else if b.current.None? || b.nodes[b.current.value].parent.None? then None
      else Some(b.(level := b.level - 1, current := b.nodes[b.current.value].parent))
    case Contents(chunk) =>
      if b.current.None? then None
      else
        var n := b.current.value;
        Some(b.(nodes := b.nodes[n := b.nodes[n].(contents := chunk, kind := Leaf)]))
  }

  function Feed(b: Builder, events: seq<Event>): (r: Option<Builder>)
    requires Valid(b)
    ensures r.Some? ==> Valid(r.value)
    decreases events
  {
    if events == [] then Some(b)
    else
      var next := Handle(b, events[0]);
      if next.None? then None else Feed(next.value, events[1..])
  }

  lemma {:induction false} FeedCat(b: Builder, xs: seq<Event>, ys: seq<Event>)
    requires Valid(b) && Feed(b, xs).Some?
    ensures Feed(b, xs + ys) == Feed(Feed(b, xs).value, ys)
    decreases xs
  {
    if xs == [] {
      assert xs + ys == ys;
    } else {
      assert (xs + ys)[0] == xs[0] && (xs + ys)[1..] == xs[1..] + ys;
      FeedCat(Handle(b, xs[0]).value, xs[1..], ys);
    }
  }

  /** The events of a document, well nested as section 3.1 of XML 1.0 has them. */
  function Events(d: Doc): seq<Event>
    decreases d, 1
  {
    [Start(d.name, d.attrs)] + (BodyEvents(d.body) + [End(d.name)])
  }

  function BodyEvents(body: seq<Item>): seq<Event>
    decreases body, 0
  {
    if body == [] then []
    else if body[0].Text? then [Contents(body[0].chunk)] + BodyEvents(body[1..])
    else Events(body[0]) + BodyEvents(body[1..])
  }

  // ------------------------------------------------------- the tree in memory

  /** The tree under a node. */
  ghost function TreeAt(nodes: seq<Rec>, i: nat): Tree
    requires Forest(nodes) && i < |nodes|
    decreases |nodes| - i, |nodes[i].kids| + 1
  {
    var n := nodes[i];
    Tree(n.name, n.attrs, n.contents, TreesAt(nodes, i, n.kids), n.kind)
  }

  ghost function TreesAt(nodes: seq<Rec>, i: nat, kids: seq<nat>): (trees: seq<Tree>)
    requires Forest(nodes) && i < |nodes| && forall j :: 0 <= j < |kids| ==> i < kids[j] < |nodes|
    ensures |trees| == |kids|
    decreases |nodes| - i, |kids|
  {
    if kids == [] then [] else [TreeAt(nodes, kids[0])] + TreesAt(nodes, i, kids[1..])
  }

  /** A tree is made of nodes no older than its root. */
  lemma {:induction false} TreeFrame(a: seq<Rec>, c: seq<Rec>, i: nat)
    requires Forest(a) && Forest(c) && i < |a| <= |c|
    requires forall j :: i <= j < |a| ==> c[j] == a[j]
    ensures TreeAt(c, i) == TreeAt(a, i)
    decreases |a| - i, |a[i].kids| + 1
  {
    TreesFrame(a, c, i, a[i].kids);
  }

  lemma {:induction false} TreesFrame(a: seq<Rec>, c: seq<Rec>, i: nat, kids: seq<nat>)
    requires Forest(a) && Forest(c) && i < |a| <= |c|
    requires forall j :: i < j < |a| ==> c[j] == a[j]
    requires forall j :: 0 <= j < |kids| ==> i < kids[j] < |a|
    ensures TreesAt(c, i, kids) == TreesAt(a, i, kids)
    decreases |a| - i, |kids|
  {
    if kids != [] {
      TreeFrame(a, c, kids[0]);
      TreesFrame(a, c, i, kids[1..]);
    }
  }

  lemma {:induction false} TreesCat(nodes: seq<Rec>, i: nat, kids: seq<nat>, last: nat)
    requires Forest(nodes) && i < last < |nodes| && forall j :: 0 <= j < |kids| ==> i < kids[j] < |nodes|
    ensures TreesAt(nodes, i, kids + [last]) == TreesAt(nodes, i, kids) + [TreeAt(nodes, last)]
    decreases kids
  {
    if kids == [] {
      assert kids + [last] == [last] && [last][1..] == [];
    } else {
      assert (kids + [last])[0] == kids[0] && (kids + [last])[1..] == kids[1..] + [last];
      TreesCat(nodes, i, kids[1..], last);
    }
  }

  // ---------------------------------------------------------- the rebuilding

  /** From b to c only node n and its offspring have changed, and the tree at n is now t. */
  ghost predicate Grown(b: Builder, n: nat, c: Builder, t: Tree)
    requires Valid(b) && Valid(c)
  {
    && n < |b.nodes| <= |c.nodes|
    && c.level == b.level && c.current == Some(n)
    && (forall i :: 0 <= i < |b.nodes| && i != n ==> c.nodes[i] == b.nodes[i])
    && c.nodes[n].parent == b.nodes[n].parent
    && TreeAt(c.nodes, n) == t
  }

  lemma GrownTwice(b: Builder, c: Builder, d: Builder, n: nat, t: Tree, u: Tree)
    requires Valid(b) && Valid(c) && Valid(d) && Grown(b, n, c, t) && Grown(c, n, d, u)
    ensures Grown(b, n, d, u)
  {
  }

  lemma TextGrows(b: Builder, n: nat, chunk: string)
    requires Valid(b) && b.current == Some(n)
    ensures var r := Handle(b, Contents(chunk));
            r.Some? && Grown(b, n, r.value, TreeAt(b.nodes, n).(contents := chunk, kind := Leaf))
  {
    var c := Handle(b, Contents(chunk)).value;
    TreesFrame(b.nodes, c.nodes, n, b.nodes[n].kids);
  }

  /** A child's tree hung under node n. */
  lemma ChildGrows(b: Builder, n: nat, node: Rec, c: Builder, t: Tree)
    requires Valid(b) && b.current == Some(n) && node.kids == []
    requires Valid(c) && c.level == b.level && c.current == Some(n)
    requires var s := AddChild(b.nodes, n, node);
             && |s| <= |c.nodes| && (forall i :: 0 <= i < |b.nodes| ==> c.nodes[i] == s[i])
             && TreeAt(c.nodes, |b.nodes|) == t
    ensures Grown(b, n, c, TreeAt(b.nodes, n).(kids := TreeAt(b.nodes, n).kids + [t], kind := Node))
  {
    var kids, m := b.nodes[n].kids, |b.nodes|;
    assert c.nodes[n].kids == kids + [m];
    TreesFrame(b.nodes, c.nodes, n, kids);
    TreesCat(c.nodes, n, kids, m);
  }

  lemma {:induction false} BodyGrows(b: Builder, n: nat, body: seq<Item>)
    requires Valid(b) && b.current == Some(n) && b.level >= 1
    ensures var r := Feed(b, BodyEvents(body));
            r.Some? && Grown(b, n, r.value, BuiltBody(TreeAt(b.nodes, n), body))
    decreases body, 0
  {
    if body != [] {
      var first := if body[0].Text? then [Contents(body[0].chunk)] else Events(body[0]);
      if body[0].Text? {
        TextGrows(b, n, body[0].chunk);
        OneEvent(b, first[0]);
      } else {
        ElementGrows(b, n, body[0]);
      }
      var c := Feed(b, first).value;
      FeedCat(b, first, BodyEvents(body[1..]));
      BodyGrows(c, n, body[1..]);
      var d := Feed(c, BodyEvents(body[1..])).value;
      GrownTwice(b, c, d, n, TreeAt(c.nodes, n), TreeAt(d.nodes, n));
    }
  }

  lemma OneEvent(b: Builder, e: Event)
    requires Valid(b)
    ensures Feed(b, [e]) == Handle(b, e)
  {
    assert [e][1..] == [];
  }

  lemma {:induction false} ElementGrows(b: Builder, n: nat, d: Doc)
    requires Valid(b) && b.current == Some(n) && b.level >= 1
    ensures var r := Feed(b, Events(d));
            var t := TreeAt(b.nodes, n);
            r.Some? && Grown(b, n, r.value, t.(kids := t.kids + [Built(d)], kind := Node))
    decreases d, 1
  {
    var s := Handle(b, Start(d.name, d.attrs)).value;
    var m := |b.nodes|;
    BodyGrows(s, m, d.body);
    var grown := Feed(s, BodyEvents(d.body)).value;
    OneEvent(grown, End(d.name));
    FeedCat(s, BodyEvents(d.body), [End(d.name)]);
    var all := Events(d);
    assert all[0] == Start(d.name, d.attrs) && all[1..] == BodyEvents(d.body) + [End(d.name)];
    ChildGrows(b, n, Rec(d.name, d.attrs, "", [], Leaf, None), Handle(grown, End(d.name)).value, Built(d));
  }

  /** Rebuilding theorem: fed with a document's events the handlers never follow a missing
      pointer, and end at level 0 with the root, the first node made, as the current node and
      the document's tree under it. */
  lemma Rebuilds(d: Doc)
    ensures var r := Feed(FRESH, Events(d));
            && r.Some? && r.value.level == 0 && r.value.current == Some(0)
            && r.value.nodes[0].parent == None && TreeAt(r.value.nodes, 0) == Built(d)
  {
    var s := Handle(FRESH, Start(d.name, d.attrs)).value;
    BodyGrows(s, 0, d.body);
    var grown := Feed(s, BodyEvents(d.body)).value;
    OneEvent(grown, End(d.name));
    FeedCat(s, BodyEvents(d.body), [End(d.name)]);
    var all := Events(d);
    assert all[0] == Start(d.name, d.attrs) && all[1..] == BodyEvents(d.body) + [End(d.name)];
  }

  /** What the handlers make of a document, as parse_string returns it. */
  ghost function Parsed(d: Doc): Tree {
    Rebuilds(d);
    TreeAt(Feed(FRESH, Events(d)).value.nodes, 0)
  }

  // ------------------------------------------------------- print and replay

  /** A tree built from strings without markup can be printed without loss. */
  lemma {:induction false} BuiltClean(d: Doc)
    requires CleanDoc(d)
    ensures Clean(Built(d)) && Uncommented(Built(d))
    decreases d, 1
  {
    BuiltIs(d);
    var b := Built(d);
    KidsClean(d.body);
    LastChunk(d.body);
    ContentsClean(Tree(d.name, d.attrs, "", [], Leaf), d.body);
    if b.kids == [] && d.body != [] { OnlyTexts(d.body); }
  }

  lemma {:induction false} OnlyTexts(body: seq<Item>)
    requires BuiltKids(body) == []
    ensures forall i :: 0 <= i < |body| ==> body[i].Text?
  {
    if body != [] {
      OnlyTexts(body[1..]);
      assert forall i :: 1 <= i < |body| ==> body[i] == body[1..][i - 1];
    }
  }

  lemma {:induction false} KidsClean(body: seq<Item>)
    requires CleanBody(body)
    ensures forall i :: 0 <= i < |BuiltKids(body)| ==> Clean(BuiltKids(body)[i]) && Uncommented(BuiltKids(body)[i])
    decreases body, 0
  {
    if body != [] {
      KidsClean(body[1..]);
      if body[0].Elem? { BuiltClean(body[0]); }
    }
  }

  lemma {:induction false} ContentsClean(t: Tree, body: seq<Item>)
    requires CleanBody(body) && IsText(t.contents)
    ensures IsText(BuiltBody(t, body).contents)
    decreases body
  {
    if body != [] {
      var next := if body[0].Text? then t.(contents := body[0].chunk, kind := Leaf)
                  else t.(kids := t.kids + [Built(body[0])], kind := Node);
      ContentsClean(next, body[1..]);
    }
  }

  /** Replay theorem, from document to document: of the documents that have the indented print
      of what d was parsed into for their text (its last line feed aside), exactly those that
      report the text of every childless element in one chunk are parsed into a tree that
      prints the same; and there is one. */
  lemma ReplayFixpoint(d: Doc, again: Doc)
    requires CleanDoc(d) && CleanDoc(again)
    requires Render(again) + "\n" == Pretty(Indented, Parsed(d), "")
    ensures Pretty(Indented, Parsed(again), "") == Pretty(Indented, Parsed(d), "") <==> Whole(again)
  {
    Rebuilds(d);
    Rebuilds(again);
    BuiltClean(d);
    BuiltClean(again);
    PrettyPrints(Built(d), "");
    PrettyPrints(Built(again), "");
    PrintReplays(Built(d), again);
  }

  lemma ReplayExists(d: Doc) returns (again: Doc)
    requires CleanDoc(d)
    ensures CleanDoc(again) && Whole(again) && Render(again) + "\n" == Pretty(Indented, Parsed(d), "")
    ensures Pretty(Indented, Parsed(again), "") == Pretty(Indented, Parsed(d), "")
  {
    Rebuilds(d);
    BuiltClean(d);
    PrettyPrints(Built(d), "");
    again := Canonical(Indented, Built(d), "");
    CanonicalReads(Indented, Built(d), "");
    ReadingRenders(again, Indented, Built(d), "");
    ReplayFixpoint(d, again);
  }
}

/** The nodes and handlers on the heap: class XMLNode and struct XML_data, with the printers and
    the child cursor. */
module XmlNodes {
  import opened Options
  import opened XmlBuilder
  import opened XmlPrinter
  import opened XmlReading
  import opened XmlReplay
  import opened XmlText

  class XMLNode {
    var name: string
    var contents: string
    var attributes: seq<Attr>
    var children: seq<XMLNode>
    var nodeType: Kind
    var currentChild: int
    // null stands for a pointer that was never set
    var parent: XMLNode?
    ghost const birth: nat

    constructor (n: string, ghost birth: nat)
      ensures name == n && contents == "" && attributes == [] && children == [] && nodeType == Undef
      ensures currentChild == 0 && parent == null && this.birth == birth
    {
      name, contents, attributes, children, nodeType := n, "", [], [], Undef;
      currentChild, parent, this.birth := 0, null, birth;
    }

    method SetContents(newC: string)
      modifies this`contents, this`nodeType
      ensures contents == newC && nodeType == Leaf
    {
      contents := newC;
      nodeType := Leaf;
    }

    method AddAttribute(a: string, v: string)
      modifies this`attributes
      ensures attributes == old(attributes) + [Attr(a, v)]
    {
      attributes := attributes + [Attr(a, v)];
    }

    method AddChild(x: XMLNode)
      requires x != this
      modifies this`children, this`nodeType, x`parent
      ensures children == old(children) + [x] && nodeType == Node && x.parent == this
    {
      children := children + [x];
      x.parent := this;
      nodeType := Node;
    }

    // ------------------------------------------------------------ child cursor

    method GetFirstChild() returns (r: XMLNode?)
      modifies this`currentChild
      ensures currentChild == 0
      ensures r == if children == [] then null else children[0]
    {
      currentChild := 0;
      if children != [] {
        return children[0];
      }
      return null;
    }

    /** Callers come here from a child. Without children the unsigned bound would wrap. */
    method GetNextChild() returns (r: XMLNode?)
      requires 0 <= currentChild < |children|
      modifies this`currentChild
      ensures currentChild == if old(currentChild) + 1 < |children| then old(currentChild) + 1 else old(currentChild)
      ensures r == if old(currentChild) + 1 < |children| then children[currentChild] else null
    {
      if currentChild < |children| - 1 {
        currentChild := currentChild + 1;
        return children[currentChild];
      }
      return null;
    }

    method GetChildren(aName: string) returns (resV: seq<XMLNode>)
      modifies this`currentChild
      ensures resV == Named(children, Names(children), aName)
    {
      resV := [];
      ghost var names := Names(children);
      var temp := GetFirstChild();
      ghost var k := 0;
      while temp != null
        invariant names == Names(children) && Collected(children, names, k, aName, resV)
        invariant if temp == null then k == |children| else k == currentChild < |children| && temp == children[k]
        decreases |children| - k
      {
        CollectOne(children, names, k, aName, resV);
        if temp.name == aName {
          resV := resV + [temp];
        }
        k := k + 1;
        temp := GetNextChild();
      }
      AllCollected(children, names, aName, resV);
    }

    method GetNamedChild(aName: string, ptr: XMLNode?) returns (r: XMLNode?)
      modifies this`currentChild
      ensures var found := Named(children, Names(children), aName);
              r == if found == [] then ptr else found[0]
    {
      ghost var names := Names(children);
      var temp := GetFirstChild();
      ghost var k := 0;
      while temp != null
        invariant names == Names(children) && Collected(children, names, k, aName, [])
        invariant if temp == null then k == |children| else k == currentChild < |children| && temp == children[k]
        decreases |children| - k
      {
        CollectOne(children, names, k, aName, []);
        if temp.name == aName {
          FirstFound(children, names, k, aName);
          return temp;
        }
        k := k + 1;
        temp := GetNextChild();
      }
      AllCollected(children, names, aName, []);
      return ptr;
    }

    /** The lookup by name stops before the last child, which it never returns. */
    method GetFirstChildNamed(n: string) returns (r: XMLNode?)
      requires children != []
      modifies this`currentChild
      ensures r == Earlier(children, Names(children), n)
    {
      currentChild := 0;
      ghost var names := Names(children);
      ghost var last := |children| - 1;
      while currentChild < |children| - 1
        invariant 0 <= currentChild <= last && names == Names(children)
        invariant Collected(children[..last], names[..last], currentChild, n, [])
      {
        if children[currentChild].name == n {
          FirstFound(children[..last], names[..last], currentChild, n);
          return children[currentChild];
        }
        CollectOne(children[..last], names[..last], currentChild, n, []);
        currentChild := currentChild + 1;
      }
      AllCollected(children[..last], names[..last], n, []);
      return null;
    }

    // ---------------------------------------------------------------- printers

    /** What is written to the stream. */
    method Pp(indent: string, ghost nodes: seq<XMLNode>, ghost recs: seq<Rec>) returns (s: string)
      requires Shown(nodes, recs) && birth < |nodes| && nodes[birth] == this
      ensures s == Pretty(Indented, TreeAt(recs, birth), indent)
      decreases |recs| - birth, 1
    {
      if nodeType == Comment {
        return "<!--" + contents + "-->" + "\n";
      }
      var attrs := PpAttributes();
      if nodeType == Leaf && contents == "" {
        return indent + ("<" + name + (attrs + (" />" + "\n")));
      }
      var tail := ">";
      if children != [] {
        var kids := PpChildren(indent + "  ", nodes, recs);
        tail := tail + ("\n" + (kids + (indent + (EndTag(name) + "\n"))));
      } else {
        tail := tail + (contents + (EndTag(name) + "\n"));
      }
      s := indent + ("<" + name + (attrs + tail));
    }

    method PpChildren(deeper: string, ghost nodes: seq<XMLNode>, ghost recs: seq<Rec>) returns (s: string)
      requires Shown(nodes, recs) && birth < |nodes| && nodes[birth] == this
      ensures s == PrettyKids(Indented, TreeAt(recs, birth).kids, deeper)
      decreases |recs| - birth, 0
    {
      ghost var kids := recs[birth].kids;
      s := "";
      for i := 0 to |children|
        invariant Printed(s, Indented, recs, birth, kids, i, deeper)
      {
        ChildShown(nodes, recs, birth, i);
        var kid := children[i].Pp(deeper, nodes, recs);
        KidPrinted(s, kid, Indented, recs, birth, kids, i, deeper);
        s := s + kid;
      }
    }

    method PpFlat(ghost nodes: seq<XMLNode>, ghost recs: seq<Rec>) returns (s: string)
      requires Shown(nodes, recs) && birth < |nodes| && nodes[birth] == this
      ensures s == Pretty(Flat, TreeAt(recs, birth), "")
      decreases |recs| - birth, 1
    {
      FlatPretty(TreeAt(recs, birth));
      if nodeType == Comment {
        return "<!--" + contents + "-->";
      }
      var attrs := PpAttributes();
      if nodeType == Leaf && contents == "" {
        return "<" + name + (attrs + " />");
      }
      var tail := ">";
      if children != [] {
        var kids := PpFlatChildren(nodes, recs);
        tail := tail + (kids + EndTag(name));
      } else {
        tail := tail + (contents + EndTag(name));
      }
      s := "<" + name + (attrs + tail);
    }

    method PpFlatChildren(ghost nodes: seq<XMLNode>, ghost recs: seq<Rec>) returns (s: string)
      requires Shown(nodes, recs) && birth < |nodes| && nodes[birth] == this
      ensures s == PrettyKids(Flat, TreeAt(recs, birth).kids, "")
      decreases |recs| - birth, 0
    {
      ghost var kids := recs[birth].kids;
      s := "";
      for i := 0 to |children|
        invariant Printed(s, Flat, recs, birth, kids, i, "")
      {
        ChildShown(nodes, recs, birth, i);
        var kid := children[i].PpFlat(nodes, recs);
        KidPrinted(s, kid, Flat, recs, birth, kids, i, "");
        s := s + kid;
      }
    }

    method PpAttributes() returns (s: string)
      ensures s == AttrText(attributes)
    {
      s := "";
      var atts := attributes;
      for i := 0 to |atts|
        invariant s + AttrText(atts[i..]) == AttrText(attributes)
      {
        var attr := " " + atts[i].name + "=\"" + atts[i].val + "\"";
        assert AttrText(atts[i..]) == attr + AttrText(atts[i + 1..]) by {
          assert atts[i..][1..] == atts[i + 1..];
        }
        Assoc(s, attr, AttrText(atts[i + 1..]));
        s := s + attr;
      }
    }
  }

  ghost function Names(children: seq<XMLNode>): (names: seq<string>)
    reads children`name
    ensures |names| == |children| && forall i :: 0 <= i < |names| ==> names[i] == children[i].name
  {
    if children == [] then [] else [children[0].name] + Names(children[1..])
  }

  /** The children with a name, in their order. */
  ghost function Named(children: seq<XMLNode>, names: seq<string>, name: string): seq<XMLNode>
    requires |names| == |children|
  {
    if children == [] then []
    else
      var n := |children| - 1;
      Named(children[..n], names[..n], name) + if names[n] == name then [children[n]] else []
  }

  lemma {:induction false} NamedPrefix(children: seq<XMLNode>, names: seq<string>, k: nat, name: string)
    requires |names| == |children| && k <= |children|
    ensures Named(children[..k], names[..k], name) <= Named(children, names, name)
    decreases |children|
  {
    var n := |children| - 1;
    if k <= n {
      NamedPrefix(children[..n], names[..n], k, name);
      assert children[..n][..k] == children[..k] && names[..n][..k] == names[..k];
    } else {
      assert children[..k] == children && names[..k] == names;
    }
  }

  lemma {:induction false} NamedNone(children: seq<XMLNode>, names: seq<string>, name: string)
    requires |names| == |children|
    ensures Named(children, names, name) == [] <==> name !in names
  {
    if children != [] {
      var n := |children| - 1;
      NamedNone(children[..n], names[..n], name);
      assert names == names[..n] + [names[n]];
    }
  }

  /** Of the first k children `found` are those with the name. */
  ghost predicate Collected(children: seq<XMLNode>, names: seq<string>, k: int, name: string, found: seq<XMLNode>) {
    0 <= k <= |children| == |names| && found == Named(children[..k], names[..k], name)
  }

  lemma CollectOne(children: seq<XMLNode>, names: seq<string>, k: int, name: string, found: seq<XMLNode>)
    requires Collected(children, names, k, name, found) && k < |children|
    ensures Collected(children, names, k + 1, name, if names[k] == name then found + [children[k]] else found)
  {
    assert children[..k + 1][..k] == children[..k] && names[..k + 1][..k] == names[..k];
  }

  lemma AllCollected(children: seq<XMLNode>, names: seq<string>, name: string, found: seq<XMLNode>)
    requires Collected(children, names, |children|, name, found)
    ensures found == Named(children, names, name)
  {
    assert children[..|children|] == children && names[..|names|] == names;
  }

  lemma FirstFound(children: seq<XMLNode>, names: seq<string>, k: int, name: string)
    requires Collected(children, names, k, name, []) && k < |children| && names[k] == name
    ensures var all := Named(children, names, name); all != [] && all[0] == children[k]
  {
    CollectOne(children, names, k, name, []);
    NamedPrefix(children, names, k + 1, name);
    assert [] + [children[k]] == [children[k]];
  }

  /** What the lookup by name finds: the first of the children but the last. */
  ghost function Earlier(children: seq<XMLNode>, names: seq<string>, name: string): XMLNode?
    requires |names| == |children| > 0
  {
    var last := |children| - 1;
    var found := Named(children[..last], names[..last], name);
    if found == [] then null else found[0]
  }

  /** The lookup by name finds what a walk over all children finds, except when the first child
      with the name is the last child. */
  lemma LookupMisses(children: seq<XMLNode>, names: seq<string>, n: string)
    requires |names| == |children| > 0
    ensures var all := Named(children, names, n);
            Earlier(children, names, n) == (if all == [] then null else all[0])
            <==> n in names[..|names| - 1] || names[|names| - 1] != n
  {
    var last := |children| - 1;
    NamedNone(children[..last], names[..last], n);
  }

  /** The first i children have been printed. */
  ghost predicate Printed(text: string, lay: Layout, recs: seq<Rec>, n: nat, kids: seq<nat>, i: int, deeper: string) {
    && Forest(recs) && n < |recs| && 0 <= i <= |kids| && (forall j :: 0 <= j < |kids| ==> n < kids[j] < |recs|)
    && text + PrettyKids(lay, TreesAt(recs, n, kids[i..]), deeper) == PrettyKids(lay, TreesAt(recs, n, kids), deeper)
  }

  lemma KidPrinted(text: string, kid: string, lay: Layout, recs: seq<Rec>, n: nat, kids: seq<nat>, i: nat, deeper: string)
    requires i < |kids| && Printed(text, lay, recs, n, kids, i, deeper)
    requires kid == Pretty(lay, TreeAt(recs, kids[i]), deeper)
    ensures Printed(text + kid, lay, recs, n, kids, i + 1, deeper)
  {
    var rest := TreesAt(recs, n, kids[i + 1..]);
    assert kids[i..][1..] == kids[i + 1..];
    assert ([TreeAt(recs, kids[i])] + rest)[1..] == rest;
    Assoc(text, kid, PrettyKids(lay, rest, deeper));
  }

  lemma ChildShown(nodes: seq<XMLNode>, recs: seq<Rec>, n: nat, i: nat)
    requires Shown(nodes, recs) && n < |nodes| && i < |nodes[n].children|
    ensures |recs[n].kids| == |nodes[n].children|
    ensures var k := recs[n].kids[i]; n < k < |nodes| && nodes[n].children[i] == nodes[k] && nodes[k].birth == k
  {
    assert Record(nodes[n]) == recs[n];
    assert nodes[n].children[i] in nodes;
  }

  ghost function Births(nodes: seq<XMLNode>): seq<nat> {
    seq(|nodes|, i requires 0 <= i < |nodes| => nodes[i].birth)
  }

  ghost function Record(x: XMLNode): Rec
    reads x
  {
    Rec(x.name, x.attributes, x.contents, Births(x.children), x.nodeType,
        if x.parent == null then None else Some(x.parent.birth))
  }

  /** The heap's nodes in their order of birth are those of the records. */
  ghost predicate Shown(nodes: seq<XMLNode>, recs: seq<Rec>)
    reads nodes
  {
    && Forest(recs) && |nodes| == |recs|
    && (forall i :: 0 <= i < |nodes| ==> nodes[i].birth == i && Record(nodes[i]) == recs[i])
    && (forall i, j :: 0 <= i < |nodes| && 0 <= j < |nodes[i].children| ==> nodes[i].children[j] in nodes)
    && (forall i :: 0 <= i < |nodes| && nodes[i].parent != null ==> nodes[i].parent in nodes)
  }

  // ---------------------------------------------------------------- handlers

  /** The attribute names and values of a start tag, as the parser hands them over. */
  function Pairs(attr: seq<string>): (r: seq<Attr>)
    requires |attr| % 2 == 0
    ensures 2 * |r| == |attr| && forall k :: 0 <= k < |r| ==> r[k] == Attr(attr[2 * k], attr[2 * k + 1])
  {
    if attr == [] then [] else [Attr(attr[0], attr[1])] + Pairs(attr[2..])
  }

  function Unpaired(attrs: seq<Attr>): (attr: seq<string>)
    ensures |attr| % 2 == 0
  {
    if attrs == [] then [] else [attrs[0].name, attrs[0].val] + Unpaired(attrs[1..])
  }

  lemma {:induction false} PairsUnpaired(attrs: seq<Attr>)
    ensures Pairs(Unpaired(attrs)) == attrs
  {
    if attrs != [] {
      PairsUnpaired(attrs[1..]);
      assert Unpaired(attrs)[2..] == Unpaired(attrs[1..]);
    }
  }

  lemma {:induction false} PairsSnoc(attr: seq<string>, i: nat)
    requires i % 2 == 0 && |attr| % 2 == 0 && i < |attr|
    ensures Pairs(attr[..i + 2]) == Pairs(attr[..i]) + [Attr(attr[i], attr[i + 1])]
    decreases i
  {
    if i > 0 {
      PairsSnoc(attr[2..], i - 2);
      assert attr[..i + 2][2..] == attr[2..][..i] && attr[..i][2..] == attr[2..][..i - 2];
    } else {
      assert attr[..2][2..] == [];
    }
  }

  lemma OneMoreShown(nodes: seq<XMLNode>, x: XMLNode, recs: seq<Rec>)
    requires Forest(recs) && |recs| == |nodes| + 1
    requires x.birth == |nodes| && Record(x) == recs[|nodes|]
    requires forall i :: 0 <= i < |nodes| ==> nodes[i].birth == i && Record(nodes[i]) == recs[i]
    requires forall i, j :: 0 <= i < |nodes| && 0 <= j < |nodes[i].children| ==> nodes[i].children[j] in nodes + [x]
    requires forall i :: 0 <= i < |nodes| && nodes[i].parent != null ==> nodes[i].parent in nodes
    requires x.children == [] && (x.parent != null ==> x.parent in nodes)
    ensures Shown(nodes + [x], recs)
  {
  }

  lemma OneMore(before: seq<XMLNode>, after: seq<XMLNode>)
    requires |after| == |before| + 1 && after[..|before|] == before
    ensures forall x :: x in after ==> x in before || x == after[|before|]
  {
    assert forall i :: 0 <= i < |before| ==> after[i] == after[..|before|][i];
  }

  class XmlData {
    var level: int
    var currentNode: XMLNode?
    ghost var nodes: seq<XMLNode>
    ghost var built: Builder

    ghost predicate Valid()
      reads this, nodes
    {
      && XmlBuilder.Valid(built) && Shown(nodes, built.nodes)
      && level == built.level
      && (currentNode == null <==> built.current.None?)
      && (currentNode != null ==>
            built.current == Some(currentNode.birth) && nodes[currentNode.birth] == currentNode && currentNode in nodes)
    }

    constructor ()
      ensures Valid() && built == FRESH && nodes == []
    {
      level, currentNode, nodes, built := 0, null, [], FRESH;
    }

    method Start(el: string, attr: seq<string>)
      requires Valid() && |attr| % 2 == 0
      modifies this, currentNode
      ensures Valid() && Handle(old(built), Event.Start(el, Pairs(attr))) == Some(built)
      ensures |nodes| == |old(nodes)| + 1 && nodes[..|old(nodes)|] == old(nodes) && fresh(nodes[|old(nodes)|])
    {
      ghost var next := Handle(built, Event.Start(el, Pairs(attr))).value;
      var thisNode := HangNew(el, attr, next);
      Enter(thisNode, next);
    }

    /** The new node is the current one, a level deeper. */
    method Enter(thisNode: XMLNode, ghost next: Builder)
      requires XmlBuilder.Valid(next) && next.level == level + 1 && next.current == Some(|nodes|)
      requires thisNode.birth == |nodes| && Shown(nodes + [thisNode], next.nodes)
      modifies this
      ensures Valid() && built == next && nodes == old(nodes) + [thisNode]
    {
      nodes := nodes + [thisNode];
      built := next;
      currentNode := thisNode;
      level := level + 1;
    }

    /** The new node, a child of the current one if there is one. */
    method HangNew(el: string, attr: seq<string>, ghost next: Builder) returns (thisNode: XMLNode)
      requires Valid() && |attr| % 2 == 0 && Handle(built, Event.Start(el, Pairs(attr))) == Some(next)
      modifies currentNode
      ensures fresh(thisNode) && thisNode.birth == |nodes| && Shown(nodes + [thisNode], next.nodes)
    {
      thisNode := NewNode(el, attr, |nodes|);
      if currentNode != null {
        AddToCurrent(thisNode);
      } else {
        OneMoreShown([], thisNode, next.nodes);
      }
    }

    method AddToCurrent(x: XMLNode)
      requires Valid() && currentNode != null && x !in nodes
      requires x.birth == |nodes| && x.children == [] && x.parent == null
      modifies currentNode`children, currentNode`nodeType, x`parent
      ensures Shown(nodes + [x], AddChild(built.nodes, currentNode.birth, old(Record(x))))
    {
      ghost var n, node := currentNode.birth, Record(x);
      assert Record(currentNode) == built.nodes[n];
      AddingKeepsForest(built.nodes, n, node);
      currentNode.AddChild(x);
      ghost var recs := AddChild(built.nodes, n, node);
      assert Births(currentNode.children) == built.nodes[n].kids + [|nodes|];
      assert Record(currentNode) == recs[n];
      assert forall i :: 0 <= i < |nodes| && i != n ==> nodes[i] != currentNode && Record(nodes[i]) == recs[i];
      OneMoreShown(nodes, x, recs);
    }

    static method NewNode(el: string, attr: seq<string>, ghost birth: nat) returns (thisNode: XMLNode)
      requires |attr| % 2 == 0
      ensures fresh(thisNode) && thisNode.birth == birth && thisNode.children == []
      ensures Record(thisNode) == Rec(el, Pairs(attr), "", [], Leaf, None)
    {
      thisNode := new XMLNode(el, birth);
      thisNode.SetContents("");
      var i := 0;
      while i < |attr|
        invariant 0 <= i <= |attr| && i % 2 == 0
        invariant thisNode.attributes == Pairs(attr[..i])
        modifies thisNode`attributes
      {
        PairsSnoc(attr, i);
        thisNode.AddAttribute(attr[i], attr[i + 1]);
        i := i + 2;
      }
      assert attr[..i] == attr;
    }

    method End(el: string)
      requires Valid() && Handle(built, Event.End(el)).Some?
      modifies this
      ensures Valid() && Handle(old(built), Event.End(el)) == Some(built) && nodes == old(nodes)
    {
      if level > 1 {
        assert Record(currentNode) == built.nodes[currentNode.birth];
        currentNode := currentNode.parent;
      }
      level := level - 1;
      built := Handle(built, Event.End(el)).value;
    }

    method Contents(s: string)
      requires Valid() && Handle(built, Event.Contents(s)).Some?
      modifies this, currentNode
      ensures Valid() && Handle(old(built), Event.Contents(s)) == Some(built) && nodes == old(nodes)
    {
      currentNode.SetContents(s);
      built := Handle(built, Event.Contents(s)).value;
    }

    /** The handler that the parser calls for an event. */
    method Call(e: Event)
      requires Valid() && Handle(built, e).Some?
      modifies this, currentNode
      ensures Valid() && Handle(old(built), e) == Some(built)
      ensures forall x :: x in nodes ==> x in old(nodes) || fresh(x)
    {
      match e
      case Start(name, attrs) =>
        PairsUnpaired(attrs);
        Start(name, Unpaired(attrs));
        OneMore(old(nodes), nodes);
      case End(name) =>
        End(name);
      case Contents(chunk) =>
        Contents(chunk);
    }
  }

  /** parse_string, with `read` the document that the parser finds in s, if s is well formed. */
  method ParseString(s: string, read: Option<Doc>) returns (r: Option<XMLNode>, ghost nodes: seq<XMLNode>, ghost recs: seq<Rec>)
    ensures r.Some? <==> |s| >= 3 && read.Some?
    ensures r.Some? ==> Shown(nodes, recs) && recs != [] && nodes[0] == r.value && TreeAt(recs, 0) == Built(read.value)
    ensures forall x :: x in nodes ==> fresh(x)
  {
    nodes, recs := [], [];
    if |s| < 3 || read.None? {
      return None, nodes, recs;
    }
    var dat := new XmlData();
    var events := Events(read.value);
    Rebuilds(read.value);
    for i := 0 to |events|
      invariant dat.Valid() && fresh(dat) && forall x :: x in dat.nodes ==> fresh(x)
      invariant Feed(FRESH, events) == Feed(dat.built, events[i..])
    {
      assert events[i..][1..] == events[i + 1..];
      ghost var before := dat.nodes;
      dat.Call(events[i]);
      forall x | x in dat.nodes ensures fresh(x) {
        assert x in before || fresh(x);
      }
    }
    return Some(dat.currentNode), dat.nodes, dat.built.nodes;
  }
}

/** Printed elements and document texts read back by a scanner that knows nothing of how they
    were written: names, attributes, tags, comments (sections 2.5 and 3.1 of XML 1.0) and text,
    a character at a time. */
module XmlScanner {
  import opened Options
  import opened XmlBuilder
  import opened XmlPrinter
  import opened XmlReading
  import opened XmlText

  // ------------------------------------------------------------- the scanner

  /** A text cut in two. */
  datatype Span = Span(text: string, rest: string)

  /** The name that s begins with. */
  function TakeName(s: string): (r: Span)
    ensures |r.text| + |r.rest| == |s|
  {
    if s == "" || !NameChar(s[0]) then Span("", s)
    else
      var more := TakeName(s[1..]);
      Span([s[0]] + more.text, more.rest)
  }

  /** What s has before a double quote or markup. */
  function TakeValue(s: string): (r: Span)
    ensures |r.text| + |r.rest| == |s|
  {
    if s == "" || s[0] == '"' || s[0] == '<' || s[0] == '&' then Span("", s)
    else
      var more := TakeValue(s[1..]);
      Span([s[0]] + more.text, more.rest)
  }

  /** An equals sign and a value between double quotes. */
  function TakeQuoted(s: string): (r: Option<Span>)
    ensures r.Some? ==> |r.value.rest| < |s|
  {
    if |s| < 2 || s[0] != '=' || s[1] != '"' then None
    else
      var val := TakeValue(s[2..]);
      if val.rest == "" || val.rest[0] != '"' then None else Some(Span(val.text, val.rest[1..]))
  }

  datatype Attrs = Attrs(attrs: seq<Attr>, rest: string)

  /** Attributes, each after a space, and what comes after the last. */
  function ScanAttrs(s: string): (r: Option<Attrs>)
    ensures r.Some? ==> |r.value.rest| <= |s|
    decreases |s|
  {
    if |s| < 2 || s[0] != ' ' || s[1] == '/' then Some(Attrs([], s))
    else
      var name := TakeName(s[1..]);
      var val := TakeQuoted(name.rest);
      if name.text == "" || val.None? then None
      else
        var more := ScanAttrs(val.value.rest);
        if more.None? then None
        else Some(Attrs([Attr(name.text, val.value.text)] + more.value.attrs, more.value.rest))
  }

  /** What follows the end of a comment. */
  function ScanComment(s: string): (r: Option<string>)
    ensures r.Some? ==> |r.value| < |s|
  {
    if |s| < 3 then None
    else if s[0] == '-' && s[1] == '-' then if s[2] == '>' then Some(s[3..]) else None
    else ScanComment(s[1..])
  }

  function Before(events: seq<Event>, more: Option<seq<Event>>): Option<seq<Event>> {
    if more.None? then None else Some(events + more.value)
  }

  /** The events of a text, each character a chunk of its own; none for what is no element
      content. */
  function Scan(s: string): Option<seq<Event>>
    decreases |s|
  {
    if s == "" then Some([])
    else if s[0] != '<' then
      if s[0] == '&' then None else Before([Contents([s[0]])], Scan(s[1..]))
    else if |s| >= 4 && s[1] == '!' && s[2] == '-' && s[3] == '-' then
      var after := ScanComment(s[4..]);
      if after.None? then None else Scan(after.value)
    else if |s| >= 2 && s[1] == '/' then
      var name := TakeName(s[2..]);
      if name.text == "" || name.rest == "" || name.rest[0] != '>' then None
      else Before([End(name.text)], Scan(name.rest[1..]))
    else
      var name := TakeName(s[1..]);
      var tag := ScanAttrs(name.rest);
      if name.text == "" || tag.None? then None
      else
        var Attrs(attrs, rest) := tag.value;
        if |rest| >= 1 && rest[0] == '>' then Before([Start(name.text, attrs)], Scan(rest[1..]))
        else if |rest| >= 3 && rest[0] == ' ' && rest[1] == '/' && rest[2] == '>' then
          Before([Start(name.text, attrs), End(name.text)], Scan(rest[3..]))
        else None
  }

  /** What is open after the events if `open` is open before them, innermost first; none if an
      end tag closes anything but the element opened last. */
  function Nest(events: seq<Event>, open: seq<string>): Option<seq<string>> {
    if events == [] then Some(open)
    else match events[0]
      case Start(name, _) => Nest(events[1..], [name] + open)
      case End(name) => if open != [] && open[0] == name then Nest(events[1..], open[1..]) else None
      case Contents(_) => Nest(events[1..], open)
  }

  // ------------------------------------------------------- parts of a text

  function Chars(text: string): seq<Event> {
    if text == "" then [] else [Contents([text[0]])] + Chars(text[1..])
  }

  lemma BeforeBoth(a: seq<Event>, b: seq<Event>, more: Option<seq<Event>>)
    ensures Before(a, Before(b, more)) == Before(a + b, more)
  {
    if more.Some? { assert a + (b + more.value) == (a + b) + more.value; }
  }

  lemma {:induction false} NameScans(a: string, x: string)
    requires forall i :: 0 <= i < |a| ==> NameChar(a[i])
    requires x != "" && !NameChar(x[0])
    ensures TakeName(a + x) == Span(a, x)
  {
    if a == "" {
      assert a + x == x;
    } else {
      assert (a + x)[1..] == a[1..] + x;
      NameScans(a[1..], x);
      assert [a[0]] + a[1..] == a;
    }
  }

  lemma {:induction false} ValueScans(a: string, x: string)
    requires IsValue(a) && x != "" && x[0] == '"'
    ensures TakeValue(a + x) == Span(a, x)
  {
    if a == "" {
      assert a + x == x;
    } else {
      assert (a + x)[1..] == a[1..] + x;
      ValueScans(a[1..], x);
      assert [a[0]] + a[1..] == a;
    }
  }

  lemma QuotedScans(val: string, x: string)
    requires IsValue(val)
    ensures TakeQuoted("=\"" + (val + ("\"" + x))) == Some(Span(val, x))
  {
    var s := "=\"" + (val + ("\"" + x));
    assert s[2..] == val + ("\"" + x);
    ValueScans(val, "\"" + x);
    assert ("\"" + x)[1..] == x;
  }

  lemma OneAttrScans(a: Attr, x: string)
    requires IsName(a.name) && IsValue(a.val) && ScanAttrs(x).Some?
    ensures ScanAttrs(" " + (a.name + ("=\"" + (a.val + ("\"" + x)))))
         == Some(Attrs([a] + ScanAttrs(x).value.attrs, ScanAttrs(x).value.rest))
  {
    var e := "=\"" + (a.val + ("\"" + x));
    var s := " " + (a.name + e);
    assert s[1..] == a.name + e;
    assert s[1] == a.name[0];
    NameScans(a.name, e);
    QuotedScans(a.val, x);
  }

  lemma {:induction false} AttrsScan(attrs: seq<Attr>, x: string)
    requires CleanAttrs(attrs) && TagTail(x)
    ensures ScanAttrs(AttrText(attrs) + x) == Some(Attrs(attrs, x))
  {
    if attrs == [] {
      assert AttrText(attrs) + x == x;
    } else {
      FirstAttr(attrs, x);
      AttrsScan(attrs[1..], x);
      OneAttrScans(attrs[0], AttrText(attrs[1..]) + x);
      assert [attrs[0]] + attrs[1..] == attrs;
    }
  }

  lemma {:induction false} TextScans(text: string, rest: string)
    requires IsText(text)
    ensures Scan(text + rest) == Before(Chars(text), Scan(rest))
  {
    if text == "" {
      assert text + rest == rest;
      assert Scan(rest).Some? ==> [] + Scan(rest).value == Scan(rest).value;
    } else {
      assert (text + rest)[1..] == text[1..] + rest;
      TextScans(text[1..], rest);
      BeforeBoth([Contents([text[0]])], Chars(text[1..]), Scan(rest));
    }
  }

  lemma EndScans(name: string, rest: string)
    requires IsName(name)
    ensures Scan(EndTag(name) + rest) == Before([End(name)], Scan(rest))
  {
    var s := EndTag(name) + rest;
    assert s[2..] == name + (">" + rest);
    NameScans(name, ">" + rest);
    assert (">" + rest)[1..] == rest;
  }

  /** A start or empty tag's name and attributes, for whatever comes after them. */
  lemma TagScans(name: string, attrs: seq<Attr>, tail: string, s: string)
    requires IsName(name) && CleanAttrs(attrs) && TagTail(tail) && s == "<" + (name + (AttrText(attrs) + tail))
    ensures TakeName(s[1..]) == Span(name, AttrText(attrs) + tail)
    ensures ScanAttrs(AttrText(attrs) + tail) == Some(Attrs(attrs, tail))
    ensures s[0] == '<' && |s| >= 2 && s[1] != '/' && s[1] != '!'
  {
    AttrsBegin(attrs, tail);
    NameScans(name, AttrText(attrs) + tail);
    assert s[1..] == name + (AttrText(attrs) + tail);
    assert s[1] == name[0];
    AttrsScan(attrs, tail);
  }

  /** The tag at the front of s, once its name and attributes have been read. */
  lemma TagIs(s: string, attrs: seq<Attr>, tail: string)
    requires |s| >= 2 && s[0] == '<' && s[1] != '/' && s[1] != '!' && TakeName(s[1..]).text != ""
    requires ScanAttrs(TakeName(s[1..]).rest) == Some(Attrs(attrs, tail)) && |tail| <= |s|
    ensures var name := TakeName(s[1..]).text;
            && (|tail| >= 1 && tail[0] == '>' ==> Scan(s) == Before([Start(name, attrs)], Scan(tail[1..])))
            && (|tail| >= 3 && tail[0] == ' ' && tail[1] == '/' && tail[2] == '>' ==>
                  Scan(s) == Before([Start(name, attrs), End(name)], Scan(tail[3..])))
  {
  }

  lemma StartScans(name: string, attrs: seq<Attr>, rest: string)
    requires IsName(name) && CleanAttrs(attrs)
    ensures Scan("<" + (name + (AttrText(attrs) + (">" + rest)))) == Before([Start(name, attrs)], Scan(rest))
  {
    var s := "<" + (name + (AttrText(attrs) + (">" + rest)));
    TagScans(name, attrs, ">" + rest, s);
    TagIs(s, attrs, ">" + rest);
    assert (">" + rest)[1..] == rest;
  }

  lemma EmptyScans(name: string, attrs: seq<Attr>, rest: string)
    requires IsName(name) && CleanAttrs(attrs)
    ensures Scan("<" + (name + (AttrText(attrs) + (" />" + rest)))) == Before([Start(name, attrs), End(name)], Scan(rest))
  {
    var s := "<" + (name + (AttrText(attrs) + (" />" + rest)));
    TagScans(name, attrs, " />" + rest, s);
    TagIs(s, attrs, " />" + rest);
    assert (" />" + rest)[3..] == rest;
  }

  // --------------------------------------------------------------- documents

  /** The events with each chunk a character at a time. */
  function Spelt(events: seq<Event>): seq<Event> {
    if events == [] then []
    else (if events[0].Contents? then Chars(events[0].chunk) else [events[0]]) + Spelt(events[1..])
  }

  lemma {:induction false} SpeltBoth(a: seq<Event>, b: seq<Event>)
    ensures Spelt(a + b) == Spelt(a) + Spelt(b)
  {
    if a == [] {
      assert a + b == b;
    } else {
      assert (a + b)[1..] == a[1..] + b;
      SpeltBoth(a[1..], b);
    }
  }

  lemma SpeltOne(e: Event)
    ensures Spelt([e]) == if e.Contents? then Chars(e.chunk) else [e]
  {
    assert [e][1..] == [];
    assert e.Contents? ==> Chars(e.chunk) + [] == Chars(e.chunk);
  }

  /** Where a document's text goes on with `rest` its scan goes on with that of `rest`. */
  lemma {:induction false} DocScans(d: Doc, rest: string)
    requires CleanDoc(d)
    ensures Scan(Render(d) + rest) == Before(Spelt(Events(d)), Scan(rest))
    decreases d, 1
  {
    var first := Start(d.name, d.attrs);
    var others := BodyEvents(d.body) + [End(d.name)];
    SpeltBoth([first], others);
    SpeltOne(first);
    if d.body == [] {
      assert others == [End(d.name)];
      SpeltOne(End(d.name));
      RenderParts(d, rest);
      EmptyScans(d.name, d.attrs, rest);
      assert [first] + [End(d.name)] == [first, End(d.name)];
    } else {
      RenderParts(d, rest);
      Assoc(">", RenderBody(d.body, d.name), rest);
      StartScans(d.name, d.attrs, RenderBody(d.body, d.name) + rest);
      BodyScans(d.body, d.name, rest);
      BeforeBoth([first], Spelt(others), Scan(rest));
    }
  }

  lemma {:induction false} BodyScans(body: seq<Item>, name: string, rest: string)
    requires CleanBody(body) && IsName(name)
    ensures Scan(RenderBody(body, name) + rest) == Before(Spelt(BodyEvents(body) + [End(name)]), Scan(rest))
    decreases body, 0
  {
    var more := BodyEvents(if body == [] then [] else body[1..]) + [End(name)];
    if body == [] {
      assert more == [End(name)];
      SpeltOne(End(name));
      EndScans(name, rest);
    } else {
      var text := RenderBody(body[1..], name) + rest;
      BodyScans(body[1..], name, rest);
      if body[0].Text? {
        var e := Contents(body[0].chunk);
        Assoc(body[0].chunk, RenderBody(body[1..], name), rest);
        TextScans(body[0].chunk, text);
        SpeltOne(e);
        BodyGoesOn([e], BodyEvents(body[1..]), [End(name)], Scan(rest));
      } else {
        Assoc(Render(body[0]), RenderBody(body[1..], name), rest);
        DocScans(body[0], text);
        BodyGoesOn(Events(body[0]), BodyEvents(body[1..]), [End(name)], Scan(rest));
      }
    }
  }

  lemma BodyGoesOn(a: seq<Event>, b: seq<Event>, c: seq<Event>, more: Option<seq<Event>>)
    ensures Before(Spelt(a), Before(Spelt(b + c), more)) == Before(Spelt((a + b) + c), more)
  {
    SpeltBoth(a, b + c);
    assert (a + b) + c == a + (b + c);
    BeforeBoth(Spelt(a), Spelt(b + c), more);
  }

  /** Text theorem: what the scanner makes of a document's text are the document's events. */
  lemma TextIsDocument(d: Doc)
    requires CleanDoc(d)
    ensures Scan(Render(d)) == Some(Spelt(Events(d)))
  {
    DocScans(d, "");
    assert Render(d) + "" == Render(d);
    assert Spelt(Events(d)) + [] == Spelt(Events(d));
  }

  // ------------------------------------------------------------------ prints

  predicate IsComment(s: string) {
    forall i :: 0 <= i < |s| && s[i] == '-' ==> i + 1 < |s| && s[i + 1] != '-'
  }

  /** A tree of names, values, texts and comments without markup in them. */
  ghost predicate Printable(t: Tree) {
    if t.kind.Comment? then IsComment(t.contents)
    else
      && IsName(t.name) && CleanAttrs(t.attrs) && IsText(t.contents)
      && forall i :: 0 <= i < |t.kids| ==> Printable(t.kids[i])
  }

  function Blanks(n: nat): (s: string)
    ensures |s| == n && forall i :: 0 <= i < n ==> s[i] == ' '
  {
    if n == 0 then "" else Blanks(n - 1) + " "
  }

  /** What the indented printer puts before and after a line, two blanks for each level. */
  function Margin(lay: Layout, depth: nat): seq<Event> {
    if lay.Indented? then Chars(Blanks(2 * depth)) else []
  }

  function LineEnd(lay: Layout): seq<Event> {
    if lay.Indented? then Chars("\n") else []
  }

  /** What a print is to show: an element on its own lines, its children a level deeper and in
      their order, or its text on the line of its tags; of a comment nothing. */
  function Shows(lay: Layout, t: Tree, depth: nat): seq<Event>
    decreases t, 1
  {
    if t.kind.Comment? then LineEnd(lay)
    else
      Margin(lay, depth)
      + ([Start(t.name, t.attrs)] + (Inside(lay, t, depth) + ([End(t.name)] + LineEnd(lay))))
  }

  function Inside(lay: Layout, t: Tree, depth: nat): seq<Event>
    decreases t, 0
  {
    if t.kind.Leaf? && t.contents == "" then []
    else if t.kids == [] then Chars(t.contents)
    else LineEnd(lay) + (ShowsAll(lay, t.kids, depth + 1) + Margin(lay, depth))
  }

  function ShowsAll(lay: Layout, kids: seq<Tree>, depth: nat): seq<Event>
    decreases kids, 0
  {
    if kids == [] then [] else Shows(lay, kids[0], depth) + ShowsAll(lay, kids[1..], depth)
  }

  lemma {:induction false} CommentScans(s: string, rest: string)
    requires IsComment(s)
    ensures ScanComment(s + ("-->" + rest)) == Some(rest)
  {
    var all := s + ("-->" + rest);
    if s == "" {
      assert all == "-->" + rest && all[3..] == rest;
    } else {
      assert s[0] == '-' ==> all[1] == s[1];
      assert all[1..] == s[1..] + ("-->" + rest);
      forall i | 0 <= i < |s[1..]| && s[1..][i] == '-' ensures i + 1 < |s[1..]| && s[1..][i + 1] != '-' {
        assert s[i + 1] == '-';
      }
      CommentScans(s[1..], rest);
    }
  }

  lemma LineEndScans(lay: Layout, rest: string)
    ensures Scan(LineFeed(lay) + rest) == Before(LineEnd(lay), Scan(rest))
  {
    TextScans(LineFeed(lay), rest);
  }

  lemma MarginScans(lay: Layout, indent: string, depth: nat, rest: string)
    requires lay.Indented? ==> indent == Blanks(2 * depth)
    ensures Scan(Lead(lay, indent) + rest) == Before(Margin(lay, depth), Scan(rest))
  {
    TextScans(Lead(lay, indent), rest);
  }

  /** The end of an element. */
  lemma CloseScans(name: string, lay: Layout, rest: string)
    requires IsName(name)
    ensures Scan(EndTag(name) + (LineFeed(lay) + rest)) == Before([End(name)] + LineEnd(lay), Scan(rest))
  {
    EndScans(name, LineFeed(lay) + rest);
    LineEndScans(lay, rest);
    BeforeBoth([End(name)], LineEnd(lay), Scan(rest));
  }

  lemma DeeperIs(lay: Layout, indent: string, depth: nat)
    requires lay.Indented? ==> indent == Blanks(2 * depth)
    ensures lay.Indented? ==> Deeper(lay, indent) == Blanks(2 * (depth + 1))
  {
    assert Blanks(2 * depth + 2) == Blanks(2 * depth + 1) + " ";
  }

  lemma PrettyParts(lay: Layout, t: Tree, indent: string, rest: string)
    requires !t.kind.Comment?
    ensures Pretty(lay, t, indent) + rest
         == Lead(lay, indent) + ("<" + (t.name + (AttrText(t.attrs) + (PrettyTail(lay, t, indent) + rest))))
  {
  }

  /** From the start tag's end on. */
  lemma TailParts(lay: Layout, t: Tree, indent: string, rest: string)
    ensures var close := EndTag(t.name) + (LineFeed(lay) + rest);
            PrettyTail(lay, t, indent) + rest
            == if Short(t) then " />" + (LineFeed(lay) + rest)
               else if t.kids == [] then ">" + (t.contents + close)
               else ">" + (LineFeed(lay) + (PrettyKids(lay, t.kids, Deeper(lay, indent)) + (Lead(lay, indent) + close)))
  {
  }

  /** Where an element's print goes on with `rest` the scan goes on with that of `rest`. */
  lemma {:induction false} PrettyScans(lay: Layout, t: Tree, indent: string, depth: nat, rest: string)
    requires Printable(t) && (lay.Indented? ==> indent == Blanks(2 * depth))
    ensures Scan(Pretty(lay, t, indent) + rest) == Before(Shows(lay, t, depth), Scan(rest))
    decreases t, 2
  {
    if t.kind.Comment? {
      CommentLineScans(lay, t, indent, rest);
    } else {
      PrettyParts(lay, t, indent, rest);
      MarginScans(lay, indent, depth, "<" + (t.name + (AttrText(t.attrs) + (PrettyTail(lay, t, indent) + rest))));
      ElementScans(lay, t, indent, depth, rest);
      BeforeBoth(Margin(lay, depth),
                 [Start(t.name, t.attrs)] + (Inside(lay, t, depth) + ([End(t.name)] + LineEnd(lay))), Scan(rest));
    }
  }

  lemma CommentLineScans(lay: Layout, t: Tree, indent: string, rest: string)
    requires t.kind.Comment? && IsComment(t.contents)
    ensures Scan(Pretty(lay, t, indent) + rest) == Before(LineEnd(lay), Scan(rest))
  {
    var s := Pretty(lay, t, indent) + rest;
    assert s == "<!--" + (t.contents + ("-->" + (LineFeed(lay) + rest)));
    assert s[4..] == t.contents + ("-->" + (LineFeed(lay) + rest));
    CommentScans(t.contents, LineFeed(lay) + rest);
    LineEndScans(lay, rest);
  }

  lemma {:induction false} ElementScans(lay: Layout, t: Tree, indent: string, depth: nat, rest: string)
    requires Printable(t) && !t.kind.Comment? && (lay.Indented? ==> indent == Blanks(2 * depth))
    ensures Scan("<" + (t.name + (AttrText(t.attrs) + (PrettyTail(lay, t, indent) + rest))))
         == Before([Start(t.name, t.attrs)] + (Inside(lay, t, depth) + ([End(t.name)] + LineEnd(lay))), Scan(rest))
    decreases t, 1
  {
    var start, close := [Start(t.name, t.attrs)], [End(t.name)] + LineEnd(lay);
    TailParts(lay, t, indent, rest);
    if Short(t) {
      EmptyScans(t.name, t.attrs, LineFeed(lay) + rest);
      LineEndScans(lay, rest);
      BeforeBoth([Start(t.name, t.attrs), End(t.name)], LineEnd(lay), Scan(rest));
      assert [Start(t.name, t.attrs), End(t.name)] + LineEnd(lay) == start + ([] + close);
    } else {
      var inner := if t.kids == [] then t.contents
                   else LineFeed(lay) + (PrettyKids(lay, t.kids, Deeper(lay, indent)) + Lead(lay, indent));
      InsideScans(lay, t, indent, depth, inner, rest);
      var end := EndTag(t.name) + (LineFeed(lay) + rest);
      InnerParts(lay, t, indent, inner, end);
      StartScans(t.name, t.attrs, inner + end);
      BeforeBoth(start, Inside(lay, t, depth) + close, Scan(rest));
    }
  }

  lemma InnerParts(lay: Layout, t: Tree, indent: string, inner: string, end: string)
    requires t.kids != [] ==> inner == LineFeed(lay) + (PrettyKids(lay, t.kids, Deeper(lay, indent)) + Lead(lay, indent))
    ensures t.kids != [] ==>
              inner + end == LineFeed(lay) + (PrettyKids(lay, t.kids, Deeper(lay, indent)) + (Lead(lay, indent) + end))
  {
  }

  lemma {:induction false} InsideScans(lay: Layout, t: Tree, indent: string, depth: nat, inner: string, rest: string)
    requires Printable(t) && !t.kind.Comment? && !Short(t) && (lay.Indented? ==> indent == Blanks(2 * depth))
    requires inner == if t.kids == [] then t.contents
                      else LineFeed(lay) + (PrettyKids(lay, t.kids, Deeper(lay, indent)) + Lead(lay, indent))
    ensures Scan(inner + (EndTag(t.name) + (LineFeed(lay) + rest)))
         == Before(Inside(lay, t, depth) + ([End(t.name)] + LineEnd(lay)), Scan(rest))
    decreases t, 0
  {
    var end := EndTag(t.name) + (LineFeed(lay) + rest);
    var close := [End(t.name)] + LineEnd(lay);
    CloseScans(t.name, lay, rest);
    if t.kids == [] {
      TextScans(t.contents, end);
      BeforeBoth(Chars(t.contents), close, Scan(rest));
    } else {
      var deeper := Deeper(lay, indent);
      InnerParts(lay, t, indent, inner, end);
      DeeperIs(lay, indent, depth);
      LineEndScans(lay, PrettyKids(lay, t.kids, deeper) + (Lead(lay, indent) + end));
      KidsScan(lay, t.kids, deeper, depth + 1, Lead(lay, indent) + end);
      MarginScans(lay, indent, depth, end);
      Before3(LineEnd(lay), ShowsAll(lay, t.kids, depth + 1), Margin(lay, depth), close, Scan(rest));
    }
  }

  lemma Before3(a: seq<Event>, b: seq<Event>, c: seq<Event>, d: seq<Event>, more: Option<seq<Event>>)
    ensures Before(a, Before(b, Before(c, Before(d, more)))) == Before((a + (b + c)) + d, more)
  {
    BeforeBoth(c, d, more);
    BeforeBoth(b, c + d, more);
    BeforeBoth(a, b + (c + d), more);
    assert a + (b + (c + d)) == (a + (b + c)) + d;
  }

  lemma {:induction false} KidsScan(lay: Layout, kids: seq<Tree>, deeper: string, depth: nat, rest: string)
    requires (forall i :: 0 <= i < |kids| ==> Printable(kids[i])) && (lay.Indented? ==> deeper == Blanks(2 * depth))
    ensures Scan(PrettyKids(lay, kids, deeper) + rest) == Before(ShowsAll(lay, kids, depth), Scan(rest))
    decreases kids, 0
  {
    if kids == [] {
      assert "" + rest == rest;
      assert Scan(rest).Some? ==> [] + Scan(rest).value == Scan(rest).value;
    } else {
      Assoc(Pretty(lay, kids[0], deeper), PrettyKids(lay, kids[1..], deeper), rest);
      PrettyScans(lay, kids[0], deeper, depth, PrettyKids(lay, kids[1..], deeper) + rest);
      KidsScan(lay, kids[1..], deeper, depth, rest);
      BeforeBoth(Shows(lay, kids[0], depth), ShowsAll(lay, kids[1..], depth), Scan(rest));
    }
  }

  // ------------------------------------------------------------- well nested

  lemma {:induction false} CharsNest(text: string, more: seq<Event>, open: seq<string>)
    ensures Nest(Chars(text) + more, open) == Nest(more, open)
  {
    if text == "" {
      assert Chars(text) + more == more;
    } else {
      assert (Chars(text) + more)[1..] == Chars(text[1..]) + more;
      CharsNest(text[1..], more, open);
    }
  }

  lemma NestParts(a: seq<Event>, b: seq<Event>, c: seq<Event>)
    ensures (a + b) + c == a + (b + c)
  {
  }

  lemma {:induction false} ShowsNest(lay: Layout, t: Tree, depth: nat, more: seq<Event>, open: seq<string>)
    ensures Nest(Shows(lay, t, depth) + more, open) == Nest(more, open)
    decreases t, 1
  {
    CharsNest(if lay.Indented? then "\n" else "", more, open);
    if !t.kind.Comment? {
      var start, end := Start(t.name, t.attrs), End(t.name);
      var inner := Inside(lay, t, depth);
      var tail := LineEnd(lay) + more;
      var all := [start] + (inner + ([end] + tail));
      assert Shows(lay, t, depth) + more == Margin(lay, depth) + all;
      CharsNest(if lay.Indented? then Blanks(2 * depth) else "", all, open);
      assert all[0] == start && all[1..] == inner + ([end] + tail);
      InsideNest(lay, t, depth, [end] + tail, [t.name] + open);
      assert ([end] + tail)[1..] == tail && ([t.name] + open)[1..] == open;
    } else {
      assert Shows(lay, t, depth) == LineEnd(lay);
    }
  }

  lemma {:induction false} InsideNest(lay: Layout, t: Tree, depth: nat, more: seq<Event>, open: seq<string>)
    ensures Nest(Inside(lay, t, depth) + more, open) == Nest(more, open)
    decreases t, 0
  {
    if t.kind.Leaf? && t.contents == "" {
      assert [] + more == more;
    } else if t.kids == [] {
      CharsNest(t.contents, more, open);
    } else {
      var inner := ShowsAll(lay, t.kids, depth + 1);
      assert Inside(lay, t, depth) + more == LineEnd(lay) + (inner + (Margin(lay, depth) + more));
      CharsNest(if lay.Indented? then "\n" else "", inner + (Margin(lay, depth) + more), open);
      AllNest(lay, t.kids, depth + 1, Margin(lay, depth) + more, open);
      CharsNest(if lay.Indented? then Blanks(2 * depth) else "", more, open);
    }
  }

  lemma {:induction false} AllNest(lay: Layout, kids: seq<Tree>, depth: nat, more: seq<Event>, open: seq<string>)
    ensures Nest(ShowsAll(lay, kids, depth) + more, open) == Nest(more, open)
    decreases kids, 0
  {
    if kids == [] {
      assert [] + more == more;
    } else {
      NestParts(Shows(lay, kids[0], depth), ShowsAll(lay, kids[1..], depth), more);
      ShowsNest(lay, kids[0], depth, ShowsAll(lay, kids[1..], depth) + more, open);
      AllNest(lay, kids[1..], depth, more, open);
    }
  }

  /** Print theorem: the scanner reads both prints of a tree as its names, attributes and texts in
      their order, each level two blanks deeper and each element on its own lines in the indented
      one; every end tag closes the element opened last, and in the end nothing is open. */
  lemma PrintScans(lay: Layout, t: Tree)
    requires Printable(t)
    ensures Scan(Pretty(lay, t, "")) == Some(Shows(lay, t, 0))
    ensures Nest(Shows(lay, t, 0), []) == Some([])
  {
    PrettyScans(lay, t, "", 0, "");
    assert Pretty(lay, t, "") + "" == Pretty(lay, t, "");
    ShowsNest(lay, t, 0, [], []);
    assert Shows(lay, t, 0) + [] == Shows(lay, t, 0);
  }
}

/** `parse(stringify(d))` gives back `d` for documents `stringify` can write
    unambiguously, once the two slips in `domize` are corrected (see the
    findings module for what the source as written does instead). */
module PseudoHtmlRoundTrip {
  import opened Wrappers
  import opened PseudoHtml
  import opened PseudoHtmlLexing

  predicate IsTextNode(n: PNode) {
    n.nodeName == "#text" && n.nodeAttributes == [] && n.childNodes == [] && n.nodeValue.Some?
  }

  /** An attribute whose name is a word and whose value has no `"`. */
  predicate WellFormedAttr(a: PAttr) {
    IsWord(a.name) && forall i :: 0 <= i < |a.value| ==> a.value[i] != '"'
  }

  predicate WellFormedAttrs(attrs: seq<PAttr>) {
    forall i :: 0 <= i < |attrs| ==> WellFormedAttr(attrs[i])
  }

  /** Text nodes hold non-empty text without `<`; elements have a word for a
      name that does not start with `#`, well-formed attributes and children,
      and no value. */
  predicate WellFormed(n: PNode)
    decreases n, 1
  {
    if IsTextNode(n) then |n.nodeValue.value| > 0 && forall i :: 0 <= i < |n.nodeValue.value| ==> n.nodeValue.value[i] != '<'
    else IsWord(n.nodeName) && n.nodeName[0] != '#' && n.nodeValue.None?
         && WellFormedAttrs(n.nodeAttributes) && WellFormedList(n.childNodes)
  }

  /** Well-formed nodes, no two text nodes side by side (their text would merge). */
  predicate WellFormedList(ns: seq<PNode>)
    decreases ns, 0
  {
    ns == [] || (WellFormed(ns[0]) && WellFormedList(ns[1..]) && !(|ns| > 1 && IsTextNode(ns[0]) && IsTextNode(ns[1])))
  }

  function AttrToks(attrs: seq<PAttr>): seq<Token>
    decreases |attrs|
  {
    if attrs == [] then [] else [TextTok(attrs[0].name), Equals, TextTok(attrs[0].value)] + AttrToks(attrs[1..])
  }

  function CloseToks(name: string): seq<Token> {
    [TagOpen, TagSlash, TextTok(name), TagClose]
  }

  /** The tokens a node is written as. */
  function NodeToks(n: PNode): seq<Token>
    decreases n, 1
  {
    if IsTextNode(n) then [TextTok(n.nodeValue.value)]
    else
      [TagOpen, TextTok(n.nodeName)] + AttrToks(n.nodeAttributes)
      + (if n.childNodes == [] then [TagSlash, TagClose] else [TagClose] + NodesToks(n.childNodes) + CloseToks(n.nodeName))
  }

  function NodesToks(ns: seq<PNode>): seq<Token>
    decreases ns, 0
  {
    if ns == [] then [] else NodeToks(ns[0]) + NodesToks(ns[1..])
  }

  // ---------------------------------------------------------------------------
  // tokenize after stringify

  lemma AttrLexing(b: string, out: seq<Token>, a: PAttr)
    requires WellFormedAttr(a)
    ensures Feed(Lexer(InTag, b, out), AttrString(a))
            == Lexer(InTag, "", out + Pending(b) + [TextTok(a.name), Equals, TextTok(a.value)])
  {
    var l0 := Lexer(InTag, b, out);
    var l1 := Lexer(InTag, "", out + Pending(b));
    assert AttrString(a) == ([' '] + a.name + "=") + ("\"" + a.value + "\"");
    FeedAppend(l0, [' '] + a.name + "=", "\"" + a.value + "\"");
    FeedAppend(l0, [' '] + a.name, "=");
    FeedAppend(l0, [' '], a.name);
    assert Feed(l0, [' ']) == l1;
    WordRun("", out + Pending(b), a.name);
    assert "" + a.name == a.name;
    var l2 := Lexer(InTag, "", out + Pending(b) + [TextTok(a.name)] + [Equals]);
    assert Feed(l0, [' '] + a.name + "=") == l2;
    QuotedString(l2.out, a.value);
    assert l2.out + [TextTok(a.value)] == out + Pending(b) + [TextTok(a.name), Equals, TextTok(a.value)];
  }

  /** The attributes as written: each yields its name, `=` and its value. */
  lemma {:induction false} AttrsLexing(b: string, out: seq<Token>, attrs: seq<PAttr>)
    requires WellFormedAttrs(attrs)
    ensures Flush(Feed(Lexer(InTag, b, out), AttrsString(attrs))) == out + Pending(b) + AttrToks(attrs)
    ensures Feed(Lexer(InTag, b, out), AttrsString(attrs)).mode == InTag
    decreases |attrs|
  {
    if attrs == [] {
      assert AttrsString(attrs) == "";
    } else {
      var l0 := Lexer(InTag, b, out);
      var head := [TextTok(attrs[0].name), Equals, TextTok(attrs[0].value)];
      var next := out + Pending(b) + head;
      FeedAppend(l0, AttrString(attrs[0]), AttrsString(attrs[1..]));
      AttrLexing(b, out, attrs[0]);
      assert Feed(l0, AttrsString(attrs)) == Feed(Lexer(InTag, "", next), AttrsString(attrs[1..]));
      TailWellFormed(attrs);
      AttrsLexing("", next, attrs[1..]);
      assert AttrToks(attrs) == head + AttrToks(attrs[1..]);
      assert Pending("") == [];
      assert next + [] + AttrToks(attrs[1..]) == out + Pending(b) + (head + AttrToks(attrs[1..]));
    }
  }

  lemma TailWellFormed(attrs: seq<PAttr>)
    requires attrs != [] && WellFormedAttrs(attrs)
    ensures WellFormedAttrs(attrs[1..])
  {
    forall i | 0 <= i < |attrs[1..]| ensures WellFormedAttr(attrs[1..][i]) {
      assert attrs[1..][i] == attrs[i + 1];
    }
  }

  /** `<name attrs` leaves the lexer inside the tag, ready to yield the name
      and the attribute tokens at the next delimiter. */
  lemma OpenTagLexing(l: Lexer, name: string, attrs: seq<PAttr>)
    requires l.mode == Outside && IsWord(name) && WellFormedAttrs(attrs)
    ensures Feed(l, "<" + name + AttrsString(attrs)).mode == InTag
    ensures Flush(Feed(l, "<" + name + AttrsString(attrs)))
            == Flush(l) + [TagOpen, TextTok(name)] + AttrToks(attrs)
  {
    var l1 := Lexer(InTag, "", Flush(l) + [TagOpen]);
    FeedAppend(l, "<" + name, AttrsString(attrs));
    FeedAppend(l, "<", name);
    OpenDelimiter(l);
    WordRun("", l1.out, name);
    assert "" + name == name;
    AttrsLexing(name, l1.out, attrs);
    assert Pending(name) == [TextTok(name)];
    assert l1.out + Pending(name) + AttrToks(attrs) == Flush(l) + [TagOpen, TextTok(name)] + AttrToks(attrs);
  }

  /** `</name>` yields whatever was pending, then the closing tokens. */
  lemma CloseTagLexing(l: Lexer, name: string)
    requires l.mode == Outside && IsWord(name)
    ensures Feed(l, "</" + name + ">") == Lexer(Outside, "", Flush(l) + CloseToks(name))
  {
    var l2 := Lexer(InTag, "", Flush(l) + [TagOpen] + [TagSlash]);
    assert "</" + name + ">" == "<" + "/" + name + ">";
    FeedAppend(l, "<" + "/" + name, ">");
    FeedAppend(l, "<" + "/", name);
    FeedAppend(l, "<", "/");
    OpenDelimiter(l);
    assert Feed(l, "<" + "/") == l2;
    WordRun("", l2.out, name);
    assert "" + name == name;
    CloseDelimiter(Lexer(InTag, name, l2.out));
    assert l2.out + Pending(name) + [TagClose] == Flush(l) + CloseToks(name);
  }

  /** An element written out is lexed into exactly its tokens, after yielding
      any text still pending before it. */
  lemma {:induction false} ElementLexing(b: string, out: seq<Token>, n: PNode)
    requires WellFormed(n) && !IsTextNode(n)
    ensures Feed(Lexer(Outside, b, out), Stringify(n)) == Lexer(Outside, "", out + Pending(b) + NodeToks(n))
    decreases n, 1
  {
    var l := Lexer(Outside, b, out);
    var open := "<" + n.nodeName + AttrsString(n.nodeAttributes);
    var head := out + Pending(b) + [TagOpen, TextTok(n.nodeName)] + AttrToks(n.nodeAttributes);
    OpenTagLexing(l, n.nodeName, n.nodeAttributes);
    if n.childNodes == [] {
      OrdinaryName(n.nodeName);
      assert Stringify(n) == open + "/>";
      SelfClosedLexing(l, open, head);
      assert head + [TagSlash, TagClose] == out + Pending(b) + NodeToks(n);
    } else {
      assert WellFormedList(n.childNodes);
      NodesLexing("", head + [TagClose], n.childNodes);
      ContainerElementLexing(b, out, n);
    }
  }

  /** The step of `ElementLexing` for an element with children, given that
      the children lex into their tokens. */
  lemma ContainerElementLexing(b: string, out: seq<Token>, n: PNode)
    requires IsWord(n.nodeName) && n.nodeName[0] != '#' && WellFormedAttrs(n.nodeAttributes) && n.childNodes != []
    requires var head := out + Pending(b) + [TagOpen, TextTok(n.nodeName)] + AttrToks(n.nodeAttributes);
             && Feed(Lexer(Outside, "", head + [TagClose]), StringifyNodes(n.childNodes)).mode == Outside
             && Flush(Feed(Lexer(Outside, "", head + [TagClose]), StringifyNodes(n.childNodes)))
                == head + [TagClose] + Pending("") + NodesToks(n.childNodes)
    ensures Feed(Lexer(Outside, b, out), Stringify(n)) == Lexer(Outside, "", out + Pending(b) + NodeToks(n))
  {
    var l := Lexer(Outside, b, out);
    var open := "<" + n.nodeName + AttrsString(n.nodeAttributes);
    var head := out + Pending(b) + [TagOpen, TextTok(n.nodeName)] + AttrToks(n.nodeAttributes);
    var kids := StringifyNodes(n.childNodes);
    OpenTagLexing(l, n.nodeName, n.nodeAttributes);
    ContainerString(n);
    ContainerLexing(l, open, head, kids, n.nodeName, NodesToks(n.childNodes));
    ContainerToks(out + Pending(b), n);
  }

  lemma ContainerToks(pre: seq<Token>, n: PNode)
    requires !IsTextNode(n) && n.childNodes != []
    ensures pre + [TagOpen, TextTok(n.nodeName)] + AttrToks(n.nodeAttributes) + [TagClose] + NodesToks(n.childNodes) + CloseToks(n.nodeName)
            == pre + NodeToks(n)
  {
  }

  lemma ContainerString(n: PNode)
    requires |n.nodeName| > 0 && n.nodeName[0] != '#' && n.childNodes != []
    ensures Stringify(n) == "<" + n.nodeName + AttrsString(n.nodeAttributes) + ">" + StringifyNodes(n.childNodes) + "</" + n.nodeName + ">"
  {
    OrdinaryName(n.nodeName);
  }

  /** A tag name not starting with `#` is neither of the special names. */
  lemma OrdinaryName(name: string)
    requires |name| > 0 && name[0] != '#'
    ensures name != "#document" && name != "#text"
  {
    assert "#document"[0] == '#' && "#text"[0] == '#';
  }

  lemma SelfClosedLexing(l: Lexer, open: string, start: seq<Token>)
    requires Feed(l, open).mode == InTag && Flush(Feed(l, open)) == start
    ensures Feed(l, open + "/>") == Lexer(Outside, "", start + [TagSlash, TagClose])
  {
    FeedAppend(l, open, "/>");
    SelfCloseDelimiter(Feed(l, open));
  }

  lemma ContainerLexing(l: Lexer, open: string, start: seq<Token>, kids: string, name: string, kidToks: seq<Token>)
    requires Feed(l, open).mode == InTag && Flush(Feed(l, open)) == start
    requires IsWord(name)
    requires Feed(Lexer(Outside, "", start + [TagClose]), kids).mode == Outside
    requires Flush(Feed(Lexer(Outside, "", start + [TagClose]), kids)) == start + [TagClose] + Pending("") + kidToks
    ensures Feed(l, open + ">" + kids + "</" + name + ">") == Lexer(Outside, "", start + [TagClose] + kidToks + CloseToks(name))
  {
    var closing := "</" + name + ">";
    assert open + ">" + kids + "</" + name + ">" == open + ">" + kids + closing;
    FeedAppend(l, open + ">" + kids, closing);
    FeedAppend(l, open + ">", kids);
    FeedAppend(l, open, ">");
    CloseDelimiter(Feed(l, open));
    var l3 := Feed(Lexer(Outside, "", start + [TagClose]), kids);
    CloseTagLexing(l3, name);
    assert start + [TagClose] + Pending("") + kidToks == start + [TagClose] + kidToks;
  }

  /** A list of nodes written out is lexed into their tokens in order; the
      text of a last text node stays buffered until the next `<` or the end. */
  lemma {:induction false} NodesLexing(b: string, out: seq<Token>, ns: seq<PNode>)
    requires WellFormedList(ns)
    requires b == "" || ns == [] || !IsTextNode(ns[0])
    ensures Feed(Lexer(Outside, b, out), StringifyNodes(ns)).mode == Outside
    ensures Flush(Feed(Lexer(Outside, b, out), StringifyNodes(ns))) == out + Pending(b) + NodesToks(ns)
    decreases ns, 0
  {
    if ns == [] {
      assert StringifyNodes(ns) == "";
    } else if IsTextNode(ns[0]) {
      NodesLexing(ns[0].nodeValue.value, out, ns[1..]);
      TextFirstLexing(out, ns);
    } else {
      ElementLexing(b, out, ns[0]);
      NodesLexing("", out + Pending(b) + NodeToks(ns[0]), ns[1..]);
      ElementFirstLexing(b, out, ns);
    }
  }

  /** The step of `NodesLexing` for a leading text node: its text is buffered. */
  lemma {:induction false} TextFirstLexing(out: seq<Token>, ns: seq<PNode>)
    requires ns != [] && IsTextNode(ns[0]) && WellFormed(ns[0])
    requires var t := ns[0].nodeValue.value;
             && Feed(Lexer(Outside, t, out), StringifyNodes(ns[1..])).mode == Outside
             && Flush(Feed(Lexer(Outside, t, out), StringifyNodes(ns[1..]))) == out + Pending(t) + NodesToks(ns[1..])
    ensures Feed(Lexer(Outside, "", out), StringifyNodes(ns)).mode == Outside
    ensures Flush(Feed(Lexer(Outside, "", out), StringifyNodes(ns))) == out + Pending("") + NodesToks(ns)
  {
    var t := ns[0].nodeValue.value;
    var l := Lexer(Outside, "", out);
    assert StringifyNodes(ns) == Stringify(ns[0]) + StringifyNodes(ns[1..]);
    assert Stringify(ns[0]) == t;
    FeedAppend(l, t, StringifyNodes(ns[1..]));
    TextRun("", out, t);
    assert "" + t == t;
    assert NodesToks(ns) == [TextTok(t)] + NodesToks(ns[1..]);
    assert Pending(t) == [TextTok(t)] && Pending("") == [];
  }

  /** The step of `NodesLexing` for a leading element. */
  lemma {:induction false} ElementFirstLexing(b: string, out: seq<Token>, ns: seq<PNode>)
    requires ns != [] && !IsTextNode(ns[0])
    requires Feed(Lexer(Outside, b, out), Stringify(ns[0])) == Lexer(Outside, "", out + Pending(b) + NodeToks(ns[0]))
    requires var l1 := Lexer(Outside, "", out + Pending(b) + NodeToks(ns[0]));
             && Feed(l1, StringifyNodes(ns[1..])).mode == Outside
             && Flush(Feed(l1, StringifyNodes(ns[1..]))) == out + Pending(b) + NodeToks(ns[0]) + Pending("") + NodesToks(ns[1..])
    ensures Feed(Lexer(Outside, b, out), StringifyNodes(ns)).mode == Outside
    ensures Flush(Feed(Lexer(Outside, b, out), StringifyNodes(ns))) == out + Pending(b) + NodesToks(ns)
  {
    var l := Lexer(Outside, b, out);
    assert StringifyNodes(ns) == Stringify(ns[0]) + StringifyNodes(ns[1..]);
    FeedAppend(l, Stringify(ns[0]), StringifyNodes(ns[1..]));
    assert NodesToks(ns) == NodeToks(ns[0]) + NodesToks(ns[1..]);
    assert Pending("") == [];
    assert out + Pending(b) + NodeToks(ns[0]) + [] + NodesToks(ns[1..]) == out + Pending(b) + (NodeToks(ns[0]) + NodesToks(ns[1..]));
  }

  /** `tokenize(stringifyNodes(ns))` is the token list of `ns`. */
  lemma TokenizeStringify(ns: seq<PNode>)
    requires WellFormedList(ns)
    ensures Tokenize(StringifyNodes(ns)) == NodesToks(ns)
  {
    NodesLexing("", [], ns);
    assert [] + Pending("") + NodesToks(ns) == NodesToks(ns);
  }

  // ---------------------------------------------------------------------------
  // domize after tokenize

  /** Prepends a whole list of yielded nodes. */
  function PrependAll(ns: seq<PNode>, r: Domized): (r': Domized)
    ensures r'.Yielded? <==> r.Yielded?
    ensures r'.Yielded? ==> r'.nodes == ns + r.nodes && r'.closed == r.closed && r'.rest == r.rest
  {
    match r
    case Yielded(nodes, c, rest) => Yielded(ns + nodes, c, rest)
    case Threw => Threw
  }

  /** Inside an open tag that has its name, each name-`=`-value triple adds
      one attribute (the corrected reading resets the pending name). */
  lemma {:induction false} AttrsDomize(p: Partial, attrs: seq<PAttr>, c: seq<Token>)
    requires p.inNode && p.gaveName && p.attrName == "" && WellFormedAttrs(attrs)
    ensures Domize(Corrected, AttrToks(attrs) + c, p) == Domize(Corrected, c, p.(attrs := p.attrs + attrs))
    decreases |attrs|
  {
    if attrs == [] {
      assert AttrToks(attrs) + c == c;
      assert p.attrs + attrs == p.attrs;
    } else {
      var a := attrs[0];
      var p2 := p.(attrs := p.attrs + [a], attrName := "");
      assert AttrToks(attrs) + c == [TextTok(a.name), Equals, TextTok(a.value)] + (AttrToks(attrs[1..]) + c);
      AttrDomize(p, a, AttrToks(attrs[1..]) + c);
      TailWellFormed(attrs);
      AttrsDomize(p2, attrs[1..], c);
      assert p2.attrs + attrs[1..] == p.attrs + attrs;
    }
  }

  /** One `name = value` triple inside an open tag adds one attribute. */
  lemma AttrDomize(p: Partial, a: PAttr, rest: seq<Token>)
    requires p.inNode && p.gaveName && p.attrName == "" && WellFormedAttr(a)
    ensures Domize(Corrected, [TextTok(a.name), Equals, TextTok(a.value)] + rest, p)
            == Domize(Corrected, rest, p.(attrs := p.attrs + [a], attrName := ""))
  {
    var ts := [TextTok(a.name), Equals, TextTok(a.value)] + rest;
    var p1 := p.(attrName := a.name);
    assert ts[0] == TextTok(a.name) && ts[1..][0] == Equals && ts[1..][1..][0] == TextTok(a.value);
    assert ts[1..][1..][1..] == rest;
    assert Domize(Corrected, ts, p) == Domize(Corrected, ts[1..], p1);
    assert Domize(Corrected, ts[1..], p1) == Domize(Corrected, ts[1..][1..], p1);
    assert PAttr(a.name, a.value) == a;
  }

  /** `</name>` read by a fresh generator is its closing marker, and the
      corrected reading leaves every later token unread. */
  lemma ClosingDomize(name: string, c: seq<Token>)
    ensures Domize(Corrected, CloseToks(name) + c, Blank) == Yielded([], true, c)
  {
    var ts := CloseToks(name) + c;
    var after := [TextTok(name), TagClose] + c;
    assert ts[0] == TagOpen && ts[1..][0] == TagSlash && ts[1..][1..] == after;
    assert after[0] != TagClose && after[1..] == [TagClose] + c;
    assert SkipToClose(Corrected, [TagClose] + c) == Yielded([], true, c) by {
      assert ([TagClose] + c)[0] == TagClose && ([TagClose] + c)[1..] == c;
    }
    assert SkipToClose(Corrected, after) == Yielded([], true, c);
    assert Domize(Corrected, ts[1..], Blank.(inNode := true)) == SkipToClose(Corrected, after);
  }

  /** `<name attrs` read by a fresh generator leaves it inside the tag with
      that name and those attributes. */
  lemma OpenTagDomize(name: string, attrs: seq<PAttr>, tail: seq<Token>)
    requires WellFormedAttrs(attrs)
    ensures Domize(Corrected, [TagOpen, TextTok(name)] + AttrToks(attrs) + tail, Blank)
            == Domize(Corrected, tail, Partial(name, attrs, true, true, "", false))
  {
    var ts := [TagOpen, TextTok(name)] + AttrToks(attrs) + tail;
    var p2 := Blank.(inNode := true).(name := name, gaveName := true);
    assert ts[0] == TagOpen && ts[1..][0] == TextTok(name);
    assert ts[1..][1..] == AttrToks(attrs) + tail;
    AttrsDomize(p2, attrs, tail);
    assert p2.(attrs := p2.attrs + attrs) == Partial(name, attrs, true, true, "", false);
  }

  lemma SelfClosedDomize(q: Partial, c: seq<Token>)
    requires q.inNode && q.gaveName
    ensures Domize(Corrected, [TagSlash, TagClose] + c, q) == Prepend(Finish(q, []), Domize(Corrected, c, Blank))
  {
    var ts := [TagSlash, TagClose] + c;
    assert ts[0] == TagSlash && ts[1..][0] == TagClose && ts[1..][1..] == c;
  }

  lemma ContainerDomize(q: Partial, inner: seq<Token>, kids: seq<PNode>, c: seq<Token>)
    requires q.inNode && !q.wasSlash
    requires Domize(Corrected, inner, Blank) == Yielded(kids, true, c)
    ensures Domize(Corrected, [TagClose] + inner, q) == Prepend(Finish(q, kids), Domize(Corrected, c, Blank))
  {
    assert ([TagClose] + inner)[0] == TagClose && ([TagClose] + inner)[1..] == inner;
  }

  /** A written node, read by a fresh generator, is yielded as itself, and the
      generator carries on with what follows. */
  lemma {:induction false} NodeDomize(n: PNode, c: seq<Token>)
    requires WellFormed(n)
    ensures Domize(Corrected, NodeToks(n) + c, Blank) == Prepend(n, Domize(Corrected, c, Blank))
    decreases n, 1
  {
    if IsTextNode(n) {
      assert (NodeToks(n) + c)[0] == TextTok(n.nodeValue.value) && (NodeToks(n) + c)[1..] == c;
    } else {
      var q := Partial(n.nodeName, n.nodeAttributes, true, true, "", false);
      var head := [TagOpen, TextTok(n.nodeName)] + AttrToks(n.nodeAttributes);
      if n.childNodes == [] {
        assert NodeToks(n) + c == head + ([TagSlash, TagClose] + c);
        OpenTagDomize(n.nodeName, n.nodeAttributes, [TagSlash, TagClose] + c);
        SelfClosedDomize(q, c);
        assert Finish(q, []) == n;
      } else {
        var kids := n.childNodes;
        var inner := NodesToks(kids) + (CloseToks(n.nodeName) + c);
        assert NodeToks(n) + c == head + ([TagClose] + inner);
        OpenTagDomize(n.nodeName, n.nodeAttributes, [TagClose] + inner);
        NodesDomize(kids, CloseToks(n.nodeName) + c);
        ClosingDomize(n.nodeName, c);
        assert kids + [] == kids;
        ContainerDomize(q, inner, kids, c);
        assert Finish(q, kids) == n;
      }
    }
  }

  lemma {:induction false} NodesDomize(ns: seq<PNode>, c: seq<Token>)
    requires WellFormedList(ns)
    ensures Domize(Corrected, NodesToks(ns) + c, Blank) == PrependAll(ns, Domize(Corrected, c, Blank))
    decreases ns, 0
  {
    if ns == [] {
      assert NodesToks(ns) + c == c;
      match Domize(Corrected, c, Blank)
      case Yielded(nodes, _, _) => assert ns + nodes == nodes;
      case Threw =>
    } else {
      assert NodesToks(ns) + c == NodeToks(ns[0]) + (NodesToks(ns[1..]) + c);
      NodeDomize(ns[0], NodesToks(ns[1..]) + c);
      NodesDomize(ns[1..], c);
      match Domize(Corrected, c, Blank)
      case Yielded(nodes, _, _) => assert [ns[0]] + (ns[1..] + nodes) == ns + nodes;
      case Threw =>
    }
  }

  /** Reading back what `stringify` wrote gives the same document. */
  lemma ParseStringify(ns: seq<PNode>)
    requires WellFormedList(ns)
    ensures Parse(Corrected, Stringify(Document(ns))) == Parsed(Document(ns))
  {
    TokenizeStringify(ns);
    NodesDomize(ns, []);
    assert NodesToks(ns) + [] == NodesToks(ns);
    assert ns + [] == ns;
  }
}

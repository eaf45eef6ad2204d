/** What `domize` of src/pseudo-html-parser.js does, as written, to documents
    that the corrected reading gets back intact. */
module PseudoHtmlFindings {
  import opened Wrappers
  import opened PseudoHtml
  import opened PseudoHtmlLexing
  import opened PseudoHtmlRoundTrip

  lemma OneNodeList(n: PNode)
    requires WellFormed(n)
    ensures WellFormedList([n])
  {
    assert [n][1..] == [];
  }

  /** Non-empty text without `<` makes a well-formed text node, alone or as a list. */
  lemma TextLeaf(t: string)
    requires |t| > 0 && forall i :: 0 <= i < |t| ==> t[i] != '<'
    ensures WellFormed(TextNode(t)) && WellFormedList([TextNode(t)])
  {
    OneNodeList(TextNode(t));
  }

  /** Non-empty lower-case ASCII letters make a word fit for a tag or attribute name. */
  lemma Word(w: string)
    requires |w| > 0 && forall i :: 0 <= i < |w| ==> 'a' <= w[i] <= 'z'
    ensures IsWord(w) && w[0] != '#'
  {
  }

  // One reading step of `domize` each, for the worked examples below.

  lemma ReadText(v: Variant, d: string, rest: seq<Token>)
    ensures Domize(v, [TextTok(d)] + rest, Blank) == Prepend(TextNode(d), Domize(v, rest, Blank))
  {
    assert ([TextTok(d)] + rest)[1..] == rest;
  }

  lemma ReadOpen(v: Variant, rest: seq<Token>, p: Partial)
    requires !p.inNode
    ensures Domize(v, [TagOpen] + rest, p) == Domize(v, rest, p.(inNode := true))
  {
    assert ([TagOpen] + rest)[1..] == rest;
  }

  lemma ReadName(v: Variant, d: string, rest: seq<Token>, p: Partial)
    requires p.inNode && !p.gaveName
    ensures Domize(v, [TextTok(d)] + rest, p) == Domize(v, rest, p.(name := d, gaveName := true))
  {
    assert ([TextTok(d)] + rest)[1..] == rest;
  }

  lemma ReadClosingSlash(v: Variant, rest: seq<Token>, p: Partial)
    requires p.inNode && !p.gaveName
    ensures Domize(v, [TagSlash] + rest, p) == SkipToClose(v, rest)
  {
    assert ([TagSlash] + rest)[1..] == rest;
  }

  lemma ReadStraySlash(v: Variant, rest: seq<Token>)
    ensures Domize(v, [TagSlash] + rest, Blank) == Threw
  {
  }

  lemma ReadContent(v: Variant, rest: seq<Token>, p: Partial, children: seq<PNode>, closed: bool, after: seq<Token>)
    requires p.inNode && !p.wasSlash
    requires Domize(v, rest, Blank) == Yielded(children, closed, after)
    ensures Domize(v, [TagClose] + rest, p) == Prepend(Finish(p, children), Domize(v, after, Blank))
  {
    assert ([TagClose] + rest)[1..] == rest;
  }

  lemma ReadContentThrows(v: Variant, rest: seq<Token>, p: Partial)
    requires p.inNode && !p.wasSlash
    requires Domize(v, rest, Blank) == Threw
    ensures Domize(v, [TagClose] + rest, p) == Threw
  {
    assert ([TagClose] + rest)[1..] == rest;
  }

  lemma ReadAttrName(v: Variant, d: string, rest: seq<Token>, p: Partial)
    requires p.inNode && p.gaveName && |p.attrName| == 0
    ensures Domize(v, [TextTok(d)] + rest, p) == Domize(v, rest, p.(attrName := d))
  {
    assert ([TextTok(d)] + rest)[1..] == rest;
  }

  lemma ReadAttrValue(d: string, rest: seq<Token>, p: Partial)
    requires p.inNode && p.gaveName && |p.attrName| > 0
    ensures Domize(AsWritten, [TextTok(d)] + rest, p) == Domize(AsWritten, rest, p.(attrs := p.attrs + [PAttr(p.attrName, d)]))
  {
    assert ([TextTok(d)] + rest)[1..] == rest;
  }

  lemma ReadEquals(v: Variant, rest: seq<Token>, p: Partial)
    requires p.inNode
    ensures Domize(v, [Equals] + rest, p) == Domize(v, rest, p)
  {
    assert ([Equals] + rest)[1..] == rest;
  }

  lemma ReadSelfClose(v: Variant, p: Partial)
    requires p.inNode && p.gaveName
    ensures Domize(v, [TagSlash, TagClose], p) == Yielded([Finish(p, [])], false, [])
  {
    assert [TagSlash, TagClose][1..] == [TagClose];
    assert [TagClose][1..] == [];
  }

  lemma SkipOne(v: Variant, t: Token, rest: seq<Token>)
    requires t != TagClose
    ensures SkipToClose(v, [t] + rest) == SkipToClose(v, rest)
  {
    assert ([t] + rest)[1..] == rest;
  }

  lemma SkipFound(v: Variant, t: Token, rest: seq<Token>)
    ensures SkipToClose(v, [TagClose, t] + rest) == Yielded([], true, if v == AsWritten then rest else [t] + rest)
  {
    assert ([TagClose, t] + rest)[1..] == [t] + rest;
    assert ([TagClose, t] + rest)[2..] == rest;
  }

  /** `parse` once the tokens are known. */
  lemma ParseFromTokens(v: Variant, html: string, ts: seq<Token>, ns: seq<PNode>)
    requires Tokenize(html) == ts && Domize(v, ts, Blank) == Yielded(ns, false, [])
    ensures Parse(v, html) == Parsed(Document(ns))
  {
  }

  /** `<a x="1" y="2"/>`. */
  const TwoAttrs := PNode("a", [PAttr("x", "1"), PAttr("y", "2")], [], None)

  const TwoAttrsToks := [TagOpen, TextTok("a"), TextTok("x"), Equals, TextTok("1"),
                         TextTok("y"), Equals, TextTok("2"), TagSlash, TagClose]

  lemma TwoAttrsWellFormed()
    ensures WellFormedList([TwoAttrs]) && NodesToks([TwoAttrs]) == TwoAttrsToks
  {
    Word("a"); Word("x"); Word("y");
    assert WellFormedAttr(PAttr("x", "1")) && WellFormedAttr(PAttr("y", "2"));
    assert WellFormedAttrs(TwoAttrs.nodeAttributes);
    OneNodeList(TwoAttrs);
    assert [TwoAttrs][1..] == [];
  }

  /** After one attribute the pending name is still set, so every later text
      token in the tag becomes a value under that first name. */
  lemma AttributeNameKept(n: string, x: string, v1: string, y: string, v2: string)
    requires |x| > 0
    ensures Domize(AsWritten, [TagOpen, TextTok(n), TextTok(x), Equals, TextTok(v1), TextTok(y), Equals, TextTok(v2), TagSlash, TagClose], Blank)
            == Yielded([PNode(n, [PAttr(x, v1), PAttr(x, y), PAttr(x, v2)], [], None)], false, [])
  {
    var p0 := Blank.(inNode := true);
    var p1 := p0.(name := n, gaveName := true);
    var p2 := p1.(attrName := x);
    var p3 := p2.(attrs := p2.attrs + [PAttr(x, v1)]);
    var p4 := p3.(attrs := p3.attrs + [PAttr(x, y)]);
    var p5 := p4.(attrs := p4.attrs + [PAttr(x, v2)]);
    var t8 := [TagSlash, TagClose];
    var t7 := [TextTok(v2)] + t8;
    var t6 := [Equals] + t7;
    var t5 := [TextTok(y)] + t6;
    var t4 := [TextTok(v1)] + t5;
    var t3 := [Equals] + t4;
    var t2 := [TextTok(x)] + t3;
    var t1 := [TextTok(n)] + t2;
    assert [TagOpen, TextTok(n), TextTok(x), Equals, TextTok(v1), TextTok(y), Equals, TextTok(v2), TagSlash, TagClose]
           == [TagOpen] + t1;
    ReadSelfClose(AsWritten, p5);
    ReadAttrValue(v2, t8, p4);
    ReadEquals(AsWritten, t7, p4);
    ReadAttrValue(y, t6, p3);
    ReadAttrValue(v1, t5, p2);
    ReadEquals(AsWritten, t4, p2);
    ReadAttrName(AsWritten, x, t3, p1);
    ReadName(AsWritten, n, t2, p0);
    ReadOpen(AsWritten, t1, Blank);
    assert p5.attrs == [PAttr(x, v1), PAttr(x, y), PAttr(x, v2)];
  }

  lemma TwoAttrsAttrsString()
    ensures AttrsString(TwoAttrs.nodeAttributes) == " x=\"1\" y=\"2\""
  {
    var attrs := TwoAttrs.nodeAttributes;
    assert attrs[1..][1..] == [];
    assert AttrString(attrs[1..][0]) == " y=\"2\"";
    assert AttrsString(attrs[1..]) == " y=\"2\"" + "";
    assert AttrString(attrs[0]) == " x=\"1\"";
  }

  lemma TwoAttrsString()
    ensures Stringify(Document([TwoAttrs])) == "<a x=\"1\" y=\"2\"/>"
  {
    TwoAttrsAttrsString();
    assert Stringify(TwoAttrs) == "<a x=\"1\" y=\"2\"/>";
    assert [TwoAttrs][1..] == [];
    assert StringifyNodes([TwoAttrs]) == Stringify(TwoAttrs) + "";
  }

  /** The pending attribute name is never cleared, so the second attribute's
      name is read as a value of the first. */
  lemma RepeatedAttributeName()
    ensures Stringify(Document([TwoAttrs])) == "<a x=\"1\" y=\"2\"/>"
    ensures Parse(AsWritten, Stringify(Document([TwoAttrs])))
            == Parsed(Document([PNode("a", [PAttr("x", "1"), PAttr("x", "y"), PAttr("x", "2")], [], None)]))
    ensures Parse(Corrected, Stringify(Document([TwoAttrs]))) == Parsed(Document([TwoAttrs]))
  {
    TwoAttrsString();
    TwoAttrsWellFormed();
    TokenizeStringify([TwoAttrs]);
    ParseStringify([TwoAttrs]);
    AttributeNameKept("a", "x", "1", "y", "2");
    ParseFromTokens(AsWritten, Stringify(Document([TwoAttrs])), TwoAttrsToks,
                    [PNode("a", [PAttr("x", "1"), PAttr("x", "y"), PAttr("x", "2")], [], None)]);
  }

  /** `<a>b</a>c`. */
  const TextAfterClose := [PNode("a", [], [TextNode("b")], None), TextNode("c")]

  const TextAfterCloseToks := [TagOpen, TextTok("a"), TagClose, TextTok("b"),
                               TagOpen, TagSlash, TextTok("a"), TagClose, TextTok("c")]

  lemma TextAfterCloseWellFormed()
    ensures WellFormedList(TextAfterClose) && NodesToks(TextAfterClose) == TextAfterCloseToks
  {
    var ns := TextAfterClose;
    Word("a");
    TextLeaf("b");
    TextLeaf("c");
    assert ns[1..] == [TextNode("c")];
    assert WellFormed(ns[0]);
    assert NodesToks(ns[1..]) == [TextTok("c")] by {
      assert ns[1..][1..] == [];
    }
    assert NodesToks(ns[0].childNodes) == [TextTok("b")] by {
      assert ns[0].childNodes[1..] == [];
    }
  }

  /** The token after a closing tag's `>` is consumed and lost. */
  lemma TextAfterElementLost(n: string, t: string, u: string)
    ensures Domize(AsWritten, [TagOpen, TextTok(n), TagClose, TextTok(t), TagOpen, TagSlash, TextTok(n), TagClose, TextTok(u)], Blank)
            == Yielded([PNode(n, [], [TextNode(t)], None)], false, [])
  {
    var b := [TextTok(t), TagOpen, TagSlash, TextTok(n), TagClose, TextTok(u)];
    assert [TagOpen, TextTok(n), TagClose, TextTok(t), TagOpen, TagSlash, TextTok(n), TagClose, TextTok(u)]
           == [TagOpen] + ([TextTok(n)] + ([TagClose] + b));
    DroppedToken(n, t, TextTok(u), []);
    assert b == b + [];
    var p := Blank.(inNode := true).(name := n, gaveName := true);
    ReadContent(AsWritten, b, p, [TextNode(t)], true, []);
    ReadName(AsWritten, n, [TagClose] + b, Blank.(inNode := true));
    ReadOpen(AsWritten, [TextTok(n)] + ([TagClose] + b), Blank);
  }

  lemma TextAfterCloseString()
    ensures Stringify(Document(TextAfterClose)) == "<a>b</a>c"
  {
    assert TextAfterClose[1..][1..] == [];
    assert TextAfterClose[0].childNodes[1..] == [];
  }

  /** One more token is read and thrown away after the `>` of a closing tag,
      so the text that follows an element is lost. */
  lemma TokenAfterClosingTagDropped()
    ensures Stringify(Document(TextAfterClose)) == "<a>b</a>c"
    ensures Parse(AsWritten, Stringify(Document(TextAfterClose))) == Parsed(Document([PNode("a", [], [TextNode("b")], None)]))
    ensures Parse(Corrected, Stringify(Document(TextAfterClose))) == Parsed(Document(TextAfterClose))
  {
    TextAfterCloseString();
    TextAfterCloseWellFormed();
    TokenizeStringify(TextAfterClose);
    ParseStringify(TextAfterClose);
    TextAfterElementLost("a", "b", "c");
    ParseFromTokens(AsWritten, Stringify(Document(TextAfterClose)), TextAfterCloseToks, [PNode("a", [], [TextNode("b")], None)]);
  }

  /** `<div><p>a</p></div>`. */
  const Para := PNode("p", [], [TextNode("a")], None)
  const Nested := [PNode("div", [], [Para], None)]

  const NestedToks := [TagOpen, TextTok("div"), TagClose, TagOpen, TextTok("p"), TagClose, TextTok("a"),
                       TagOpen, TagSlash, TextTok("p"), TagClose, TagOpen, TagSlash, TextTok("div"), TagClose]

  lemma NestedWellFormed()
    ensures WellFormedList(Nested) && NodesToks(Nested) == NestedToks
  {
    ParaWellFormed();
    Word("div");
    assert WellFormed(Nested[0]);
    OneNodeList(Nested[0]);
    assert NodesToks(Nested) == NodeToks(Nested[0]) by {
      assert Nested[1..] == [];
    }
    assert NodeToks(Nested[0]) == [TagOpen, TextTok("div")] + [] + ([TagClose] + NodesToks([Para]) + CloseToks("div"));
  }

  lemma ParaWellFormed()
    ensures WellFormedList([Para])
    ensures NodesToks([Para]) == [TagOpen, TextTok("p"), TagClose, TextTok("a"), TagOpen, TagSlash, TextTok("p"), TagClose]
  {
    Word("p");
    TextLeaf("a");
    assert WellFormed(Para);
    OneNodeList(Para);
    assert NodesToks([TextNode("a")]) == [TextTok("a")] by {
      assert [TextNode("a")][1..] == [];
    }
    assert NodesToks([Para]) == NodeToks(Para) by {
      assert [Para][1..] == [];
    }
  }

  lemma SkipNameDrop(inner: string, dropped: Token, e: seq<Token>)
    ensures SkipToClose(AsWritten, [TextTok(inner), TagClose, dropped] + e) == Yielded([], true, e)
  {
    assert [TextTok(inner), TagClose, dropped] + e == [TextTok(inner)] + ([TagClose, dropped] + e);
    SkipOne(AsWritten, TextTok(inner), [TagClose, dropped] + e);
    SkipFound(AsWritten, dropped, e);
  }

  /** `text</inner>` and one more token, read from inside `<inner>`: the
      closing marker comes back with that token consumed. */
  lemma DroppedToken(inner: string, text: string, dropped: Token, e: seq<Token>)
    ensures Domize(AsWritten, [TextTok(text), TagOpen, TagSlash, TextTok(inner), TagClose, dropped] + e, Blank)
            == Yielded([TextNode(text)], true, e)
  {
    var c := [TextTok(inner), TagClose, dropped] + e;
    assert [TextTok(text), TagOpen, TagSlash, TextTok(inner), TagClose, dropped]
           == [TextTok(text), TagOpen, TagSlash] + [TextTok(inner), TagClose, dropped];
    Regroup3(TextTok(text), TagOpen, TagSlash, [TextTok(inner), TagClose, dropped], e);
    assert Domize(AsWritten, [TagOpen] + ([TagSlash] + c), Blank) == Yielded([], true, e) by {
      SkipNameDrop(inner, dropped, e);
      ReadClosingSlash(AsWritten, c, Blank.(inNode := true));
      ReadOpen(AsWritten, [TagSlash] + c, Blank);
    }
    ReadText(AsWritten, text, [TagOpen] + ([TagSlash] + c));
  }

  /** Three leading tokens taken off one at a time. */
  lemma Regroup3(a: Token, b: Token, c: Token, mid: seq<Token>, e: seq<Token>)
    ensures [a, b, c] + mid + e == [a] + ([b] + ([c] + (mid + e)))
  {
  }

  /** `<inner>text</inner>/...` read by a fresh generator throws on the `/`. */
  lemma InnerThrows(inner: string, text: string, e: seq<Token>)
    ensures Domize(AsWritten, [TagOpen, TextTok(inner), TagClose] + ([TextTok(text), TagOpen, TagSlash, TextTok(inner), TagClose, TagOpen] + ([TagSlash] + e)), Blank)
            == Threw
  {
    var b := [TextTok(text), TagOpen, TagSlash, TextTok(inner), TagClose, TagOpen] + ([TagSlash] + e);
    DroppedToken(inner, text, TagOpen, [TagSlash] + e);
    ReadStraySlash(AsWritten, e);
    var pp := Blank.(inNode := true).(name := inner, gaveName := true);
    ReadContent(AsWritten, b, pp, [TextNode(text)], true, [TagSlash] + e);
    ReadName(AsWritten, inner, [TagClose] + b, Blank.(inNode := true));
    ReadOpen(AsWritten, [TextTok(inner), TagClose] + b, Blank);
    assert [TagOpen, TextTok(inner), TagClose] + b == [TagOpen] + ([TextTok(inner)] + ([TagClose] + b));
  }

  /** `<outer><inner>text</inner></outer>` as written: the inner element is
      the last child, so the token thrown away is the `<` of `</outer>` and the
      `/` left outside any tag throws. */
  lemma NestedAsWritten(outer: string, inner: string, text: string)
    ensures Domize(AsWritten, [TagOpen, TextTok(outer), TagClose, TagOpen, TextTok(inner), TagClose, TextTok(text),
                               TagOpen, TagSlash, TextTok(inner), TagClose, TagOpen, TagSlash, TextTok(outer), TagClose],
                   Blank) == Threw
  {
    var e := [TextTok(outer), TagClose];
    var a := [TagOpen, TextTok(inner), TagClose] + ([TextTok(text), TagOpen, TagSlash, TextTok(inner), TagClose, TagOpen] + ([TagSlash] + e));
    InnerThrows(inner, text, e);
    assert [TagOpen, TextTok(outer), TagClose, TagOpen, TextTok(inner), TagClose, TextTok(text),
            TagOpen, TagSlash, TextTok(inner), TagClose, TagOpen, TagSlash, TextTok(outer), TagClose]
           == [TagOpen] + ([TextTok(outer)] + ([TagClose] + a));
    var pd := Blank.(inNode := true).(name := outer, gaveName := true);
    ReadContentThrows(AsWritten, a, pd);
    ReadName(AsWritten, outer, [TagClose] + a, Blank.(inNode := true));
    ReadOpen(AsWritten, [TextTok(outer)] + ([TagClose] + a), Blank);
  }

  /** A closing tag that ends the tokens is read as the closing marker, with
      nothing left to throw away. */
  lemma FinalClosingTag(name: string)
    ensures Domize(AsWritten, [TagOpen, TagSlash, TextTok(name), TagClose], Blank) == Yielded([], true, [])
  {
    assert SkipToClose(AsWritten, [TagClose]) == Yielded([], true, []);
    SkipOne(AsWritten, TextTok(name), [TagClose]);
    ReadClosingSlash(AsWritten, [TextTok(name), TagClose], Blank.(inNode := true));
    ReadOpen(AsWritten, [TagSlash, TextTok(name), TagClose], Blank);
    assert [TagOpen, TagSlash, TextTok(name), TagClose] == [TagOpen] + ([TagSlash] + [TextTok(name), TagClose]);
  }

  /** `<inner>text</inner>` and one more token, read by a fresh generator: the
      element is yielded and reading resumes after that token. */
  lemma InnerElementDropsNext(inner: string, text: string, dropped: Token, e: seq<Token>)
    ensures Domize(AsWritten, [TagOpen, TextTok(inner), TagClose] + ([TextTok(text), TagOpen, TagSlash, TextTok(inner), TagClose, dropped] + e), Blank)
            == Prepend(PNode(inner, [], [TextNode(text)], None), Domize(AsWritten, e, Blank))
  {
    var b := [TextTok(text), TagOpen, TagSlash, TextTok(inner), TagClose, dropped] + e;
    DroppedToken(inner, text, dropped, e);
    var pi := Blank.(inNode := true).(name := inner, gaveName := true);
    ReadContent(AsWritten, b, pi, [TextNode(text)], true, e);
    ReadName(AsWritten, inner, [TagClose] + b, Blank.(inNode := true));
    ReadOpen(AsWritten, [TextTok(inner)] + ([TagClose] + b), Blank);
    assert [TagOpen, TextTok(inner), TagClose] + b == [TagOpen] + ([TextTok(inner)] + ([TagClose] + b));
  }

  /** `<outer><inner>text</inner>u</outer>` as written: the `u` after the
      inner closing tag is the token thrown away, so `</outer>` is read intact
      and nothing throws; only `u` is lost. */
  lemma NestedTrailingTextDropped(outer: string, inner: string, text: string, u: string)
    ensures Domize(AsWritten, [TagOpen, TextTok(outer), TagClose, TagOpen, TextTok(inner), TagClose, TextTok(text),
                               TagOpen, TagSlash, TextTok(inner), TagClose, TextTok(u),
                               TagOpen, TagSlash, TextTok(outer), TagClose],
                   Blank)
            == Yielded([PNode(outer, [], [PNode(inner, [], [TextNode(text)], None)], None)], false, [])
  {
    var e := [TagOpen, TagSlash, TextTok(outer), TagClose];
    var a := [TagOpen, TextTok(inner), TagClose] + ([TextTok(text), TagOpen, TagSlash, TextTok(inner), TagClose, TextTok(u)] + e);
    var innerNode := PNode(inner, [], [TextNode(text)], None);
    assert Domize(AsWritten, a, Blank) == Yielded([innerNode], true, []) by {
      FinalClosingTag(outer);
      InnerElementDropsNext(inner, text, TextTok(u), e);
    }
    OuterElement(outer, a, [innerNode]);
    NestedTrailingTokens(outer, inner, text, u);
  }

  /** A fresh generator reading `<outer>` and then content that ends with the
      closing marker and nothing after it. */
  lemma OuterElement(outer: string, a: seq<Token>, children: seq<PNode>)
    requires Domize(AsWritten, a, Blank) == Yielded(children, true, [])
    ensures Domize(AsWritten, [TagOpen] + ([TextTok(outer)] + ([TagClose] + a)), Blank)
            == Yielded([PNode(outer, [], children, None)], false, [])
  {
    var po := Blank.(inNode := true).(name := outer, gaveName := true);
    ReadContent(AsWritten, a, po, children, true, []);
    ReadName(AsWritten, outer, [TagClose] + a, Blank.(inNode := true));
    ReadOpen(AsWritten, [TextTok(outer)] + ([TagClose] + a), Blank);
  }

  lemma NestedTrailingTokens(outer: string, inner: string, text: string, u: string)
    ensures [TagOpen, TextTok(outer), TagClose, TagOpen, TextTok(inner), TagClose, TextTok(text),
             TagOpen, TagSlash, TextTok(inner), TagClose, TextTok(u),
             TagOpen, TagSlash, TextTok(outer), TagClose]
            == [TagOpen] + ([TextTok(outer)] + ([TagClose] + ([TagOpen, TextTok(inner), TagClose]
               + ([TextTok(text), TagOpen, TagSlash, TextTok(inner), TagClose, TextTok(u)]
               + [TagOpen, TagSlash, TextTok(outer), TagClose]))))
  {
  }

  lemma ParaString()
    ensures StringifyNodes([Para]) == "<p>a</p>"
  {
    assert Para.childNodes[1..] == [];
    assert StringifyNodes(Para.childNodes) == "a";
    assert Stringify(Para) == "<p>a</p>";
    assert [Para][1..] == [];
  }

  lemma NestedString()
    ensures Stringify(Document(Nested)) == "<div><p>a</p></div>"
  {
    ParaString();
    assert Nested[0].childNodes == [Para];
    assert StringifyNodes(Nested[0].childNodes) == "<p>a</p>";
    assert Stringify(Nested[0]) == "<div><p>a</p></div>";
    assert Nested[1..] == [];
  }

  /** The same slip on ordinary nested markup: the `<` of `</div>` is the token
      thrown away, and the `/` that follows it outside a tag throws. */
  lemma NestedClosingTagsThrow()
    ensures Stringify(Document(Nested)) == "<div><p>a</p></div>"
    ensures Parse(AsWritten, Stringify(Document(Nested))) == ParseThrew
    ensures Parse(Corrected, Stringify(Document(Nested))) == Parsed(Document(Nested))
  {
    NestedString();
    NestedWellFormed();
    TokenizeStringify(Nested);
    ParseStringify(Nested);
    NestedAsWritten("div", "p", "a");
  }

  /** `<div><p>a</p>b</div>`. */
  const NestedWithText := [PNode("div", [], [Para, TextNode("b")], None)]

  const NestedWithTextToks := [TagOpen, TextTok("div"), TagClose, TagOpen, TextTok("p"), TagClose, TextTok("a"),
                               TagOpen, TagSlash, TextTok("p"), TagClose, TextTok("b"),
                               TagOpen, TagSlash, TextTok("div"), TagClose]

  lemma NestedWithTextWellFormed()
    ensures WellFormedList(NestedWithText) && NodesToks(NestedWithText) == NestedWithTextToks
  {
    ParaWellFormed();
    TextLeaf("b");
    Word("div");
    var kids := NestedWithText[0].childNodes;
    assert kids[1..] == [TextNode("b")];
    assert WellFormedList(kids);
    assert NodesToks(kids) == NodesToks([Para]) + [TextTok("b")] by {
      assert NodesToks(kids[1..]) == [TextTok("b")] by {
        assert kids[1..][1..] == [];
      }
      assert NodeToks(kids[0]) == NodesToks([Para]) by {
        assert [Para][1..] == [];
      }
    }
    OneNodeList(NestedWithText[0]);
    assert NodesToks(NestedWithText) == NodeToks(NestedWithText[0]) by {
      assert NestedWithText[1..] == [];
    }
    assert NodeToks(NestedWithText[0]) == [TagOpen, TextTok("div")] + [] + ([TagClose] + NodesToks(kids) + CloseToks("div"));
  }

  lemma NestedWithTextString()
    ensures Stringify(Document(NestedWithText)) == "<div><p>a</p>b</div>"
  {
    ParaString();
    var kids := NestedWithText[0].childNodes;
    assert kids[1..][1..] == [];
    assert StringifyNodes(kids[1..]) == "b";
    assert StringifyNodes(kids) == "<p>a</p>" + "b";
    assert Stringify(NestedWithText[0]) == "<div><p>a</p>b</div>";
    assert NestedWithText[1..] == [];
  }

  /** When the inner element is followed by text, the parser as written does
      not throw: it drops that text and reads the outer closing tag intact. */
  lemma NestedTextAfterChildDropped()
    ensures Stringify(Document(NestedWithText)) == "<div><p>a</p>b</div>"
    ensures Parse(AsWritten, Stringify(Document(NestedWithText))) == Parsed(Document(Nested))
    ensures Parse(Corrected, Stringify(Document(NestedWithText))) == Parsed(Document(NestedWithText))
  {
    NestedWithTextString();
    NestedWithTextWellFormed();
    TokenizeStringify(NestedWithText);
    ParseStringify(NestedWithText);
    NestedTrailingTextDropped("div", "p", "a", "b");
    ParseFromTokens(AsWritten, Stringify(Document(NestedWithText)), NestedWithTextToks, Nested);
  }
}

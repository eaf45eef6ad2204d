/** The hand-written HTML reader and writer of src/pseudo-html-parser.js:
    a three-state character lexer (`tokenize`), a tree builder over the token
    stream (`domize`), the serialiser (`stringify`/`stringifyNodes`) and the
    preorder search (`querySelector`). */
module PseudoHtml {
  import opened Wrappers

  datatype PAttr = PAttr(name: string, value: string)

  /** A `PseudoHTMLNode`. Text nodes are named `#text` and carry a value; the
      parse root is named `#document`; elements have no value. */
  datatype PNode = PNode(nodeName: string, nodeAttributes: seq<PAttr>, childNodes: seq<PNode>, nodeValue: Option<string>)

  function TextNode(data: string): PNode {
    PNode("#text", [], [], Some(data))
  }

  function Document(children: seq<PNode>): PNode {
    PNode("#document", [], children, None)
  }

  // ---------------------------------------------------------------------------
  // tokenize

  datatype Token = TagOpen | TagClose | TagSlash | TextTok(data: string) | Equals

  /** `isWhitespace`: only space, tab, line feed and carriage return. */
  predicate IsWhitespace(c: char) {
    c == ' ' || c == '\t' || c == '\n' || c == '\r'
  }

  /** State 0 (between tags), 1 (inside `<...>`) and 2 (inside a double-quoted string). */
  datatype Mode = Outside | InTag | InQuote

  /** The lexer between two characters: its state, the characters buffered
      since the last token (`stringBuild`), and the tokens yielded so far. */
  datatype Lexer = Lexer(mode: Mode, buf: string, out: seq<Token>)

  /** The buffered text as a token, if there is any. */
  function Pending(buf: string): (ts: seq<Token>)
    ensures |ts| <= 1
    ensures ts == [] <==> buf == []
    ensures ts != [] ==> ts[0] == TextTok(buf)
  {
    if |buf| > 0 then [TextTok(buf)] else []
  }

  /** One iteration of `tokenize`'s loop. */
  function Step(l: Lexer, c: char): Lexer {
    match l.mode
    case Outside =>
      if c == '<' then Lexer(InTag, "", l.out + Pending(l.buf) + [TagOpen])
      else l.(buf := l.buf + [c])
    case InTag =>
      if IsWhitespace(c) then Lexer(InTag, "", l.out + Pending(l.buf))
      else if c == '=' then Lexer(InTag, "", l.out + Pending(l.buf) + [Equals])
      else if c == '"' then l.(mode := InQuote)
      else if c == '>' then Lexer(Outside, "", l.out + Pending(l.buf) + [TagClose])
      else if c == '/' then Lexer(InTag, "", l.out + Pending(l.buf) + [TagSlash])
      else l.(buf := l.buf + [c])
    case InQuote =>
      if c == '"' then Lexer(InTag, "", l.out + [TextTok(l.buf)])
      else l.(buf := l.buf + [c])
  }

  /** Runs the loop over `s`, one character at a time from the left. */
  function Feed(l: Lexer, s: string): Lexer
    decreases |s|
  {
    if s == [] then l else Feed(Step(l, s[0]), s[1..])
  }

  /** The tail of `tokenize`: buffered text left at the end becomes a last token. */
  function Flush(l: Lexer): seq<Token> {
    l.out + Pending(l.buf)
  }

  function Tokenize(html: string): seq<Token> {
    Flush(Feed(Lexer(Outside, "", []), html))
  }

  // ---------------------------------------------------------------------------
  // domize

  /** `AsWritten` follows the source line by line; `Corrected` resets the
      pending attribute name after each attribute and does not discard the
      token after a closing tag's `>`. */
  datatype Variant = AsWritten | Corrected

  /** The generator's local state: the node under construction and the flags
      `inNode`, `gaveName`, `attributeName`, `wasSlash`. */
  datatype Partial = Partial(name: string, attrs: seq<PAttr>, inNode: bool, gaveName: bool,
                             attrName: string, wasSlash: bool)

  /** `blankNode()` together with the reset flags. */
  const Blank := Partial("#UNKNOWN", [], false, false, "", false)

  function Finish(p: Partial, children: seq<PNode>): PNode {
    PNode(p.name, p.attrs, children, None)
  }

  /** What one `domize` generator produces before it stops: the nodes it
      yielded, whether it stopped by yielding a closing marker, and the tokens
      still unread on the shared iterator. `Threw` is an exception. */
  datatype Domized = Yielded(nodes: seq<PNode>, closed: bool, rest: seq<Token>) | Threw

  function Prepend(n: PNode, r: Domized): (r': Domized)
    ensures r'.Yielded? <==> r.Yielded?
    ensures r'.Yielded? ==> r'.nodes == [n] + r.nodes && r'.closed == r.closed && r'.rest == r.rest
  {
    match r
    case Yielded(ns, c, rest) => Yielded([n] + ns, c, rest)
    case Threw => Threw
  }

  /** The loop that follows a `/` before any name: reads up to the next `>`
      and yields the closing marker. Running out of tokens first reads
      `.type` of `undefined`, which throws. As written, one more token is
      read and discarded after the `>`. */
  function SkipToClose(v: Variant, ts: seq<Token>): (r: Domized)
    ensures r.Yielded? <==> TagClose in ts
    ensures r.Yielded? ==> r.nodes == [] && r.closed
    ensures r.Yielded? ==> |r.rest| < |ts|
    decreases |ts|
  {
    if ts == [] then Threw
    else if ts[0] == TagClose then
      if v == Corrected || ts[1..] == [] then Yielded([], true, ts[1..])
      else Yielded([], true, ts[2..])
    else
      var r := SkipToClose(v, ts[1..]);
      assert TagClose in ts <==> TagClose in ts[1..] by {
        assert ts == [ts[0]] + ts[1..];
      }
      r
  }

  /** `domize` run on the token stream `ts` from local state `p`. A `>` that
      opens content runs a nested generator on the same iterator; the outer
      loop resumes where the nested one stopped. */
  function Domize(v: Variant, ts: seq<Token>, p: Partial): (r: Domized)
    ensures r.Yielded? ==> |r.rest| < |ts| || r.rest == ts == []
    ensures r.Yielded? && !r.closed ==> r.rest == []
    decreases |ts|
  {
    if ts == [] then Yielded([], false, [])
    else
      var more := ts[1..];
      if !p.inNode then
        match ts[0]
        case TextTok(d) => Prepend(TextNode(d), Domize(v, more, Blank))
        case TagOpen => Domize(v, more, p.(inNode := true))
        case _ => Threw
      else
        match ts[0]
        case TextTok(d) =>
          if !p.gaveName then Domize(v, more, p.(name := d, gaveName := true))
          else if |p.attrName| == 0 then Domize(v, more, p.(attrName := d))
          else
            var kept := if v == Corrected then "" else p.attrName;
            Domize(v, more, p.(attrs := p.attrs + [PAttr(p.attrName, d)], attrName := kept))
        case Equals => Domize(v, more, p)
        case TagSlash =>
          if !p.gaveName then SkipToClose(v, more)
          else Domize(v, more, p.(wasSlash := true))
        case TagClose =>
          if p.wasSlash then Prepend(Finish(p, []), Domize(v, more, Blank))
          else
            (match Domize(v, more, Blank)
             case Threw => Threw
             case Yielded(children, _, rest) => Prepend(Finish(p, children), Domize(v, rest, Blank)))
        case TagOpen => Domize(v, more, p)
  }

  /** What `parse` produces: the document, or a document cut short by a
      closing marker at top level (which the source appends as a child before
      stopping), or an exception. */
  datatype Parsed = Parsed(doc: PNode) | StrayClosing(partial: PNode) | ParseThrew

  function Parse(v: Variant, html: string): (r: Parsed)
    ensures r.Parsed? ==> r.doc.nodeName == "#document" && r.doc.nodeAttributes == []
  {
    match Domize(v, Tokenize(html), Blank)
    case Threw => ParseThrew
    case Yielded(ns, closed, _) => if closed then StrayClosing(Document(ns)) else Parsed(Document(ns))
  }

  // ---------------------------------------------------------------------------
  // stringify

  function AttrString(a: PAttr): string {
    " " + a.name + "=" + "\"" + a.value + "\""
  }

  function AttrsString(attrs: seq<PAttr>): string
    decreases |attrs|
  {
    if attrs == [] then "" else AttrString(attrs[0]) + AttrsString(attrs[1..])
  }

  /** `stringify`. A `#text` node without a value is `undefined`, which
      string concatenation in `stringifyNodes` turns into the word `undefined`. */
  function Stringify(n: PNode): string
    decreases n, 1
  {
    if n.nodeName == "#document" then StringifyNodes(n.childNodes)
    else if n.nodeName == "#text" then (if n.nodeValue.Some? then n.nodeValue.value else "undefined")
    else
      "<" + n.nodeName + AttrsString(n.nodeAttributes)
      + (if n.childNodes == [] then "/>" else ">" + StringifyNodes(n.childNodes) + "</" + n.nodeName + ">")
  }

  function StringifyNodes(ns: seq<PNode>): string
    decreases ns, 0
  {
    if ns == [] then "" else Stringify(ns[0]) + StringifyNodes(ns[1..])
  }

  // ---------------------------------------------------------------------------
  // querySelector

  /** All nodes of the tree in preorder, the order `querySelector` visits them. */
  function Preorder(n: PNode): (r: seq<PNode>)
    ensures |r| >= 1 && r[0] == n
    decreases n, 1
  {
    [n] + PreorderAll(n.childNodes)
  }

  function PreorderAll(ns: seq<PNode>): seq<PNode>
    decreases ns, 0
  {
    if ns == [] then [] else Preorder(ns[0]) + PreorderAll(ns[1..])
  }

  /** `querySelector`: the first node in preorder whose name is `selector`. */
  function QuerySelector(n: PNode, selector: string): (r: Option<PNode>)
    ensures r.Some? ==> r.value.nodeName == selector
    ensures r == FirstNamed(Preorder(n), selector)
    decreases n, 1
  {
    if n.nodeName == selector then Some(n) else QuerySelectorAll(n.childNodes, selector)
  }

  function QuerySelectorAll(ns: seq<PNode>, selector: string): (r: Option<PNode>)
    ensures r == FirstNamed(PreorderAll(ns), selector)
    decreases ns, 0
  {
    if ns == [] then None
    else
      match QuerySelector(ns[0], selector)
      case Some(found) =>
        FirstNamedAppend(Preorder(ns[0]), PreorderAll(ns[1..]), selector);
        Some(found)
      case None =>
        FirstNamedAppend(Preorder(ns[0]), PreorderAll(ns[1..]), selector);
        QuerySelectorAll(ns[1..], selector)
  }

  /** The reference: the first element of a list with the given name. */
  function FirstNamed(ns: seq<PNode>, selector: string): (r: Option<PNode>)
    ensures r.None? <==> forall i :: 0 <= i < |ns| ==> ns[i].nodeName != selector
    ensures r.Some? ==> exists i :: 0 <= i < |ns| && ns[i] == r.value && r.value.nodeName == selector
                                    && forall j :: 0 <= j < i ==> ns[j].nodeName != selector
    decreases |ns|
  {
    if ns == [] then None
    else if ns[0].nodeName == selector then Some(ns[0])
    else
      var r := FirstNamed(ns[1..], selector);
      assert forall i :: 1 <= i < |ns| ==> ns[1..][i - 1] == ns[i];
      if r.Some? then
        var k :| 0 <= k < |ns[1..]| && ns[1..][k] == r.value && r.value.nodeName == selector
                 && forall j :: 0 <= j < k ==> ns[1..][j].nodeName != selector;
        assert ns[k + 1] == r.value;
        r
      else r
  }

  lemma {:induction false} FirstNamedAppend(a: seq<PNode>, b: seq<PNode>, selector: string)
    ensures FirstNamed(a + b, selector) == if FirstNamed(a, selector).Some? then FirstNamed(a, selector) else FirstNamed(b, selector)
    decreases |a|
  {
    if a == [] {
      assert a + b == b;
    } else {
      assert (a + b)[0] == a[0];
      assert (a + b)[1..] == a[1..] + b;
      FirstNamedAppend(a[1..], b, selector);
    }
  }
}

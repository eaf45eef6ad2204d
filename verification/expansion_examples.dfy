/** The build tool's documented slot and scope behaviour, checked on a small
    component library with a stand-in renderer that substitutes `{{name}}`. */
module ExpansionExamples {
  import opened Wrappers
  import opened Strings
  import opened Markup
  import opened Templating
  import opened Registry
  import opened PageBuilder
  import opened ExpansionProperties

  /** Replaces the template `{{name}}` by the binding `name` (empty when
      missing), fails on the malformed `{{bad`, and leaves other text alone. */
  function ToyRender(b: Bindings, t: string): Option<string> {
    if t == "{{name}}" then Some(if "name" in b && b["name"].Str? then b["name"].text else "")
    else if t == "{{bad" then None
    else Some(t)
  }

  const InnerTag := Element("GoodWeb-Inner", [], [])

  /** Component sources: `box` is `<div><GoodWeb-Inner/></div>`, `a` is
      `<B><GoodWeb-Inner/></B>`, `b` is `<span><GoodWeb-Inner/></span>` and
      `greet` is `<p>{{name}}</p>`. */
  function ToyXml(s: string): Option<seq<Node>> {
    if s == "box" then Some([Element("div", [], [InnerTag])])
    else if s == "a" then Some([Element("B", [], [InnerTag])])
    else if s == "b" then Some([Element("span", [], [InnerTag])])
    else if s == "greet" then Some([Element("p", [], Greeting)])
    else None
  }

  const Toy := Host(ToyXml, Foreign(ToyRender, _ => None))

  const Library := ComponentStore(map["Box" := Component(0, "box", ""), "A" := Component(1, "a", ""),
                                      "B" := Component(2, "b", ""), "Greet" := Component(3, "greet", "")], 4)

  const Start := Walk([], [], [])

  lemma TrimWord(s: string)
    requires s != [] && !IsRustWhitespace(s[0]) && !IsRustWhitespace(s[|s| - 1])
    ensures Trim(s) == s
  {
    assert LeadingWhitespace(s) == 0;
    assert s[0..] == s;
    assert TrailingWhitespace(s) == 0;
  }

  lemma OneNode(h: Host, store: ComponentStore, fuel: nat, n: Node, e: TemplateEngine, w: Walk)
    ensures ExpandNodes(h, store, fuel, [n], e, w) == ExpandNode(h, store, fuel, n, e, w)
  {
    assert [n][1..] == [];
  }

  lemma HelloText(w: Walk)
    ensures ExpandNodes(Toy, Library, 0, [Text("hello")], NewEngine(), w)
            == Expanded(w.(out := w.out + [TextOut("hello")]))
  {
    TrimWord("hello");
    OneNode(Toy, Library, 0, Text("hello"), NewEngine(), w);
  }

  lemma HelloSlot()
    ensures ExpandNodes(Toy, Library, 1, [InnerTag], NewEngine(), Walk([StartElement("div")], [0], [[Text("hello")]]))
            == Expanded(Walk([StartElement("div"), TextOut("hello")], [0], []))
  {
    var w := Walk([StartElement("div")], [0], [[Text("hello")]]);
    InnerPopsTopEntry(Toy, Library, 1, [], [], NewEngine(), w);
    HelloText(Walk([StartElement("div")], [0], []));
    OneNode(Toy, Library, 1, InnerTag, NewEngine(), w);
  }

  lemma BoxBody()
    ensures ExpandNodes(Toy, Library, 1, [Element("div", [], [InnerTag])], NewEngine(), Walk([], [0], [[Text("hello")]]))
            == Expanded(Walk([StartElement("div"), TextOut("hello"), EndElement], [0], []))
  {
    var pushed := Walk([], [0], [[Text("hello")]]);
    assert SolveAttributes(Toy, NewEngine(), []) == Some([]);
    assert pushed.out + [StartElement("div")] + [] == [StartElement("div")];
    HelloSlot();
    LiteralElement(Toy, Library, 1, "div", [], [InnerTag], NewEngine(), pushed);
    OneNode(Toy, Library, 1, Element("div", [], [InnerTag]), NewEngine(), pushed);
  }

  /** `<Box>hello</Box>` with Box = `<div><GoodWeb-Inner/></div>` gives `<div>hello</div>`. */
  lemma SlotForwarding()
    ensures ExpandNodes(Toy, Library, 2, [Element("Box", [], [Text("hello")])], NewEngine(), Start)
            == Expanded(Walk([StartElement("div"), TextOut("hello"), EndElement], [0], []))
  {
    BoxBody();
    assert Library.components["Box"] == Component(0, "box", "");
    assert ComputeState(Toy.templating, NewEngine(), []) == Some(NewEngine());
    assert Start.used + [0] == [0] && Start.slots + [[Text("hello")]] == [[Text("hello")]];
    ComponentInvocation(Toy, Library, 2, "Box", [], [Text("hello")], NewEngine(), Start);
    OneNode(Toy, Library, 2, Element("Box", [], [Text("hello")]), NewEngine(), Start);
  }

  /** Text other than the two special templates renders to itself. */
  lemma LiteralText(s: string, fuel: nat, e: TemplateEngine, w: Walk)
    requires s != "{{name}}" && s != "{{bad"
    requires s != [] && !IsRustWhitespace(s[0]) && !IsRustWhitespace(s[|s| - 1])
    ensures ExpandNodes(Toy, Library, fuel, [Text(s)], e, w) == Expanded(w.(out := w.out + [TextOut(s)]))
  {
    TrimWord(s);
    OneNode(Toy, Library, fuel, Text(s), e, w);
  }

  const World := [Text("world")]

  lemma WorldSlot()
    ensures ExpandNodes(Toy, Library, 1, [InnerTag], NewEngine(), Walk([StartElement("span")], [1, 2], [World]))
            == Expanded(Walk([StartElement("span"), TextOut("world")], [1, 2], []))
  {
    var w := Walk([StartElement("span")], [1, 2], [World]);
    InnerPopsTopEntry(Toy, Library, 1, [], [], NewEngine(), w);
    WorldText(Walk([StartElement("span")], [1, 2], []));
    OneNode(Toy, Library, 1, InnerTag, NewEngine(), w);
  }

  lemma WorldText(w: Walk)
    ensures ExpandNodes(Toy, Library, 0, World, NewEngine(), w) == Expanded(w.(out := w.out + [TextOut("world")]))
  {
    LiteralText("world", 0, NewEngine(), w);
  }

  lemma ForwardedSlot()
    ensures ExpandNodes(Toy, Library, 2, [InnerTag], NewEngine(), Walk([StartElement("span")], [1, 2], [World, [InnerTag]]))
            == Expanded(Walk([StartElement("span"), TextOut("world")], [1, 2], []))
  {
    var w := Walk([StartElement("span")], [1, 2], [World, [InnerTag]]);
    InnerPopsTopEntry(Toy, Library, 2, [], [], NewEngine(), w);
    assert w.slots[..1] == [World];
    WorldSlot();
    OneNode(Toy, Library, 2, InnerTag, NewEngine(), w);
  }

  lemma BBody()
    ensures ExpandNodes(Toy, Library, 2, [Element("span", [], [InnerTag])], NewEngine(), Walk([], [1, 2], [World, [InnerTag]]))
            == Expanded(Walk([StartElement("span"), TextOut("world"), EndElement], [1, 2], []))
  {
    var pushed := Walk([], [1, 2], [World, [InnerTag]]);
    assert SolveAttributes(Toy, NewEngine(), []) == Some([]);
    assert pushed.out + [StartElement("span")] + [] == [StartElement("span")];
    ForwardedSlot();
    LiteralElement(Toy, Library, 2, "span", [], [InnerTag], NewEngine(), pushed);
    OneNode(Toy, Library, 2, Element("span", [], [InnerTag]), NewEngine(), pushed);
  }

  lemma ABody()
    ensures ExpandNodes(Toy, Library, 3, [Element("B", [], [InnerTag])], NewEngine(), Walk([], [1], [World]))
            == Expanded(Walk([StartElement("span"), TextOut("world"), EndElement], [1, 2], []))
  {
    var w := Walk([], [1], [World]);
    BBody();
    assert Library.components["B"] == Component(2, "b", "");
    assert ComputeState(Toy.templating, NewEngine(), []) == Some(NewEngine());
    assert 2 !in w.used && w.used + [2] == [1, 2] && w.slots + [[InnerTag]] == [World, [InnerTag]];
    ComponentInvocation(Toy, Library, 3, "B", [], [InnerTag], NewEngine(), w);
    OneNode(Toy, Library, 3, Element("B", [], [InnerTag]), NewEngine(), w);
  }

  /** `<A>world</A>` with A = `<B><GoodWeb-Inner/></B>` and B =
      `<span><GoodWeb-Inner/></span>` gives `<span>world</span>`: B's marker
      walks A's marker, which walks the page's content; both ids are recorded
      in first-use order. */
  lemma NestedForwarding()
    ensures ExpandNodes(Toy, Library, 4, [Element("A", [], World)], NewEngine(), Start)
            == Expanded(Walk([StartElement("span"), TextOut("world"), EndElement], [1, 2], []))
  {
    ABody();
    assert Library.components["A"] == Component(1, "a", "");
    assert ComputeState(Toy.templating, NewEngine(), []) == Some(NewEngine());
    assert Start.used + [1] == [1] && Start.slots + [World] == [World];
    ComponentInvocation(Toy, Library, 4, "A", [], World, NewEngine(), Start);
    OneNode(Toy, Library, 4, Element("A", [], World), NewEngine(), Start);
  }

  /** The state an invocation with the single attribute `name="v"` creates. */
  lemma BindName(v: string)
    requires v != "{{name}}" && v != "{{bad"
    ensures ComputeState(Toy.templating, NewEngine(), [Attr("name", v)]) == Some(TemplateEngine(map["name" := Str(v)]))
  {
    var attrs := [Attr("name", v)];
    assert attrs[..0] == [];
    assert ComputeState(Toy.templating, NewEngine(), attrs[..0]) == Some(NewEngine());
    assert Solve(Toy.templating, NewEngine(), v) == Some(v);
    assert StrToJson(Toy.templating, v) == Str(v);
    assert NewEngine().data[ "name" := Str(v)] == map["name" := Str(v)];
  }

  lemma NameText(v: string, w: Walk)
    requires v != [] && !IsRustWhitespace(v[0]) && !IsRustWhitespace(v[|v| - 1])
    ensures ExpandNodes(Toy, Library, 0, Greeting, TemplateEngine(map["name" := Str(v)]), w)
            == Expanded(w.(out := w.out + [TextOut(v)]))
  {
    TrimWord(v);
    assert Solve(Toy.templating, TemplateEngine(map["name" := Str(v)]), "{{name}}") == Some(v);
    OneNode(Toy, Library, 0, Text("{{name}}"), TemplateEngine(map["name" := Str(v)]), w);
  }

  const Greeting := [Text("{{name}}")]

  lemma GreetBody(v: string, w: Walk)
    requires v != [] && !IsRustWhitespace(v[0]) && !IsRustWhitespace(v[|v| - 1])
    ensures ExpandNodes(Toy, Library, 0, [Element("p", [], Greeting)], TemplateEngine(map["name" := Str(v)]), w)
            == Expanded(w.(out := w.out + [StartElement("p")] + [TextOut(v)] + [EndElement]))
  {
    var w1 := w.(out := w.out + [StartElement("p")] + [TextOut(v)]);
    NameText(v, w.(out := w.out + [StartElement("p")]));
    ParagraphAround(TemplateEngine(map["name" := Str(v)]), w, Greeting, w1);
  }

  /** A `<p>` without attributes around content that walks to `w1`. */
  lemma ParagraphAround(e: TemplateEngine, w: Walk, content: seq<Node>, w1: Walk)
    requires ExpandNodes(Toy, Library, 0, content, e, w.(out := w.out + [StartElement("p")])) == Expanded(w1)
    ensures ExpandNodes(Toy, Library, 0, [Element("p", [], content)], e, w) == Expanded(w1.(out := w1.out + [EndElement]))
  {
    assert SolveAttributes(Toy, e, []) == Some([]);
    assert w.out + [StartElement("p")] + [] == w.out + [StartElement("p")];
    LiteralElement(Toy, Library, 0, "p", [], content, e, w);
    OneNode(Toy, Library, 0, Element("p", [], content), e, w);
  }

  lemma GreetOnce(v: string, w: Walk)
    requires v != "{{name}}" && v != "{{bad"
    requires v != [] && !IsRustWhitespace(v[0]) && !IsRustWhitespace(v[|v| - 1])
    requires w.slots == [] && (w.used == [] || w.used == [3])
    ensures ExpandNodes(Toy, Library, 1, [Element("Greet", [Attr("name", v)], [])], NewEngine(), w)
            == Expanded(Walk(w.out + [StartElement("p")] + [TextOut(v)] + [EndElement], [3], []))
  {
    var pushed := Walk(w.out, [3], [[]]);
    var done := pushed.(out := pushed.out + [StartElement("p")] + [TextOut(v)] + [EndElement]);
    BindName(v);
    GreetBody(v, pushed);
    assert Library.components["Greet"] == Component(3, "greet", "");
    assert (if 3 in w.used then w.used else w.used + [3]) == [3] && w.slots + [[]] == [[]];
    assert Truncate(done.slots, 0) == [];
    ComponentInvocation(Toy, Library, 1, "Greet", [Attr("name", v)], [], NewEngine(), w);
    assert ExpandNode(Toy, Library, 1, Element("Greet", [Attr("name", v)], []), NewEngine(), w)
           == Expanded(done.(slots := []));
    OneNode(Toy, Library, 1, Element("Greet", [Attr("name", v)], []), NewEngine(), w);
  }

  /** Two siblings walk one after the other. */
  lemma Siblings(fuel: nat, a: Node, b: Node, e: TemplateEngine, w: Walk, w1: Walk, w2: Walk)
    requires ExpandNodes(Toy, Library, fuel, [a], e, w) == Expanded(w1)
    requires ExpandNodes(Toy, Library, fuel, [b], e, w1) == Expanded(w2)
    ensures ExpandNodes(Toy, Library, fuel, [a, b], e, w) == Expanded(w2)
  {
    ExpandNodesAppend(Toy, Library, fuel, [a], [b], e, w);
    assert [a] + [b] == [a, b];
  }

  const GreetX := Walk([StartElement("p"), TextOut("x"), EndElement], [3], [])
  const GreetXY := Walk([StartElement("p"), TextOut("x"), EndElement, StartElement("p"), TextOut("y"), EndElement], [3], [])

  lemma FirstGreet()
    ensures ExpandNodes(Toy, Library, 1, [Element("Greet", [Attr("name", "x")], [])], NewEngine(), Start) == Expanded(GreetX)
  {
    GreetOnce("x", Start);
    assert Start.out + [StartElement("p")] + [TextOut("x")] + [EndElement] == GreetX.out;
  }

  lemma SecondGreet()
    ensures ExpandNodes(Toy, Library, 1, [Element("Greet", [Attr("name", "y")], [])], NewEngine(), GreetX) == Expanded(GreetXY)
  {
    GreetOnce("y", GreetX);
    assert GreetX.out + [StartElement("p")] + [TextOut("y")] + [EndElement] == GreetXY.out;
  }

  /** Two invocations of Greet = `<p>{{name}}</p>` with different `name`
      attributes each see only their own binding, and Greet is recorded once. */
  lemma ScopeIsolation()
    ensures ExpandNodes(Toy, Library, 1, [Element("Greet", [Attr("name", "x")], []),
                                          Element("Greet", [Attr("name", "y")], [])], NewEngine(), Start)
            == Expanded(Walk([StartElement("p"), TextOut("x"), EndElement,
                              StartElement("p"), TextOut("y"), EndElement], [3], []))
  {
    FirstGreet();
    SecondGreet();
    Siblings(1, Element("Greet", [Attr("name", "x")], []), Element("Greet", [Attr("name", "y")], []),
             NewEngine(), Start, GreetX, GreetXY);
  }

  lemma BoxedNameSlot()
    ensures ExpandNodes(Toy, Library, 1, [InnerTag], TemplateEngine(map["name" := Str("x")]),
                        Walk([StartElement("div")], [0], [[Text("{{name}}")]]))
            == Expanded(Walk([StartElement("div"), TextOut("x")], [0], []))
  {
    var bound := TemplateEngine(map["name" := Str("x")]);
    var w := Walk([StartElement("div")], [0], [[Text("{{name}}")]]);
    InnerPopsTopEntry(Toy, Library, 1, [], [], bound, w);
    NameText("x", Walk([StartElement("div")], [0], []));
    OneNode(Toy, Library, 1, InnerTag, bound, w);
  }

  lemma BoxedNameBody()
    ensures ExpandNodes(Toy, Library, 1, [Element("div", [], [InnerTag])], TemplateEngine(map["name" := Str("x")]),
                        Walk([], [0], [[Text("{{name}}")]]))
            == Expanded(Walk([StartElement("div"), TextOut("x"), EndElement], [0], []))
  {
    var bound := TemplateEngine(map["name" := Str("x")]);
    var pushed := Walk([], [0], [[Text("{{name}}")]]);
    assert SolveAttributes(Toy, bound, []) == Some([]);
    assert pushed.out + [StartElement("div")] + [] == [StartElement("div")];
    BoxedNameSlot();
    LiteralElement(Toy, Library, 1, "div", [], [InnerTag], bound, pushed);
    OneNode(Toy, Library, 1, Element("div", [], [InnerTag]), bound, pushed);
  }

  /** Caller content is walked with the engine current at the marker, that is
      the component's own state: `<Box name="x">{{name}}</Box>` renders `x`,
      although the same text renders empty in the caller's own scope. */
  lemma SlotContentSeesComponentScope()
    ensures ExpandNodes(Toy, Library, 2, [Element("Box", [Attr("name", "x")], [Text("{{name}}")])], NewEngine(), Start)
            == Expanded(Walk([StartElement("div"), TextOut("x"), EndElement], [0], []))
    ensures ExpandNodes(Toy, Library, 0, [Text("{{name}}")], NewEngine(), Start)
            == Expanded(Walk([TextOut("")], [], []))
  {
    var content := [Text("{{name}}")];
    BindName("x");
    BoxedNameBody();
    assert Library.components["Box"] == Component(0, "box", "");
    assert Start.used + [0] == [0] && Start.slots + [content] == [content];
    ComponentInvocation(Toy, Library, 2, "Box", [Attr("name", "x")], content, NewEngine(), Start);
    OneNode(Toy, Library, 2, Element("Box", [Attr("name", "x")], content), NewEngine(), Start);
    assert Solve(Toy.templating, NewEngine(), "{{name}}") == Some("");
    assert Trim("") == [];
    OneNode(Toy, Library, 0, Text("{{name}}"), NewEngine(), Start);
  }

  /** `<Missing/>` with no such component contributes nothing and the walk goes on. */
  lemma MissingComponentSkipped(fuel: nat, rest: seq<Node>)
    ensures ExpandNodes(Toy, Library, fuel, [Element("Missing", [], [])] + rest, NewEngine(), Start)
            == ExpandNodes(Toy, Library, fuel, rest, NewEngine(), Start)
  {
    ComponentInvocation(Toy, Library, fuel, "Missing", [], [], NewEngine(), Start);
    ExpandNodesAppend(Toy, Library, fuel, [Element("Missing", [], [])], rest, NewEngine(), Start);
    OneNode(Toy, Library, fuel, Element("Missing", [], []), NewEngine(), Start);
  }

  /** A malformed expression aborts the walk once the nodes before it have
      expanded, whatever follows it. A failure among those earlier nodes (a
      panic, running out of fuel) comes first and is the walk's outcome. */
  lemma MalformedExpressionAborts(fuel: nat, before: seq<Node>, after: seq<Node>)
    ensures !ExpandNodes(Toy, Library, fuel, before + [Text("{{bad")] + after, NewEngine(), Start).Expanded?
    ensures ExpandNodes(Toy, Library, fuel, before, NewEngine(), Start).Expanded? ==>
              ExpandNodes(Toy, Library, fuel, before + [Text("{{bad")] + after, NewEngine(), Start) == Aborted
    ensures !ExpandNodes(Toy, Library, fuel, before, NewEngine(), Start).Expanded? ==>
              ExpandNodes(Toy, Library, fuel, before + [Text("{{bad")] + after, NewEngine(), Start)
              == ExpandNodes(Toy, Library, fuel, before, NewEngine(), Start)
  {
    var e := NewEngine();
    ExpandNodesAppend(Toy, Library, fuel, before, [Text("{{bad")] + after, e, Start);
    assert before + [Text("{{bad")] + after == before + ([Text("{{bad")] + after);
    match ExpandNodes(Toy, Library, fuel, before, e, Start)
    case Expanded(w1) =>
      ExpandNodesAppend(Toy, Library, fuel, [Text("{{bad")], after, e, w1);
      OneNode(Toy, Library, fuel, Text("{{bad"), e, w1);
    case _ =>
  }
}

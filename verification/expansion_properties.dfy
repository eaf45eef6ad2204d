/** Properties of the expansion engine of src/page_builder.rs that relate
    several calls, or a call to an independent reference definition. */
module ExpansionProperties {
  import opened Wrappers
  import opened Strings
  import opened Markup
  import opened Templating
  import opened Registry
  import opened PageBuilder

  /** `<GoodWeb-Inner/>` pops exactly one slot entry, the most recent one, and
      walks that caller content with the current engine; with nothing pending
      it is a panic, not a skip. */
  lemma InnerPopsTopEntry(h: Host, store: ComponentStore, fuel: nat, attrs: seq<Attr>, children: seq<Node>,
                          e: TemplateEngine, w: Walk)
    ensures var r := ExpandNode(h, store, fuel, Element("GoodWeb-Inner", attrs, children), e, w);
            if |w.slots| == 0 then r == Panicked(EmptySlotStack)
            else if fuel == 0 then r == OutOfFuel
            else r == ExpandNodes(h, store, fuel - 1, w.slots[|w.slots| - 1], e, w.(slots := w.slots[..|w.slots| - 1]))
  {
    assert IsGoodWebComponent("GoodWeb-Inner");
  }

  /** A lower-case element is written around its walked children; the children
      see the same engine and the same slot stack. */
  lemma LiteralElement(h: Host, store: ComponentStore, fuel: nat, name: string, attrs: seq<Attr>,
                       children: seq<Node>, e: TemplateEngine, w: Walk)
    requires name != [] && !('A' <= name[0] <= 'Z')
    ensures var r := ExpandNode(h, store, fuel, Element(name, attrs, children), e, w);
            match SolveAttributes(h, e, attrs)
            case None => r == Aborted
            case Some(ats) =>
              match ExpandNodes(h, store, fuel, children, e, w.(out := w.out + [StartElement(name)] + ats))
              case Expanded(w1) => r == Expanded(w1.(out := w1.out + [EndElement]))
              case failed => r == failed
  {
  }

  /** An upper-case element naming a stored component: its id is recorded once,
      the caller's children are pushed, the component's document is walked
      under the state derived from the invocation's attributes, and the stack
      is cut back to its length before the push. An unknown name is skipped. */
  lemma ComponentInvocation(h: Host, store: ComponentStore, fuel: nat, name: string, attrs: seq<Attr>,
                            children: seq<Node>, e: TemplateEngine, w: Walk)
    requires name != [] && 'A' <= name[0] <= 'Z' && !IsGoodWebComponent(name)
    ensures var r := ExpandNode(h, store, fuel, Element(name, attrs, children), e, w);
            if name !in store.components then r == Expanded(w)
            else
              var c := store.components[name];
              var pushed := Walk(w.out, if c.id in w.used then w.used else w.used + [c.id], w.slots + [children]);
              match h.xml(c.xmlData)
              case None => r == Panicked(UnparseableComponent)
              case Some(doc) =>
                match ComputeState(h.templating, e, attrs)
                case None => r == Aborted
                case Some(inner) =>
                  if fuel == 0 then r == OutOfFuel
                  else
                    match ExpandNodes(h, store, fuel - 1, doc, inner, pushed)
                    case Expanded(w1) => r == Expanded(w1.(slots := Truncate(w1.slots, |w.slots|)))
                    case failed => r == failed
  {
    if name in store.components {
      assert FindComponent(store, name) == Some(store.components[name]);
    }
  }

  /** Continues a sibling walk with `rest` when the first part succeeded. */
  function AndThen(h: Host, store: ComponentStore, fuel: nat, r: Expansion,
                   rest: seq<Node>, e: TemplateEngine): Expansion {
    match r
    case Expanded(w) => ExpandNodes(h, store, fuel, rest, e, w)
    case _ => r
  }

  /** Siblings are walked one after another under the same engine: walking
      `a + b` is walking `a`, then walking `b` from where `a` left off. A
      sibling's expansion never changes the scope the next sibling sees. */
  lemma {:induction false} ExpandNodesAppend(h: Host, store: ComponentStore, fuel: nat,
                                             a: seq<Node>, b: seq<Node>, e: TemplateEngine, w: Walk)
    ensures ExpandNodes(h, store, fuel, a + b, e, w) == AndThen(h, store, fuel, ExpandNodes(h, store, fuel, a, e, w), b, e)
    decreases |a|
  {
    if a == [] {
      assert a + b == b;
    } else {
      assert (a + b)[0] == a[0];
      assert (a + b)[1..] == a[1..] + b;
      match ExpandNode(h, store, fuel, a[0], e, w)
      case Expanded(w1) => ExpandNodesAppend(h, store, fuel, a[1..], b, e, w1);
      case _ =>
    }
  }

  /** Markup that invokes no component and uses no control tag: every element
      name is non-empty and does not start with 'A'..'Z' (which also rules out
      the `GoodWeb-` prefix). */
  predicate PlainNode(n: Node) {
    match n
    case Element(name, _, children) => name != [] && !('A' <= name[0] <= 'Z') && PlainNodes(children)
    case _ => true
  }

  predicate PlainNodes(ns: seq<Node>) {
    forall i :: 0 <= i < |ns| ==> PlainNode(ns[i])
  }

  /** Reference output of plain markup: each text solved and trimmed, comments
      and processing instructions dropped, each element written with its
      attributes solved. `None` when any solve fails. */
  function PlainOutput(h: Host, e: TemplateEngine, n: Node): Option<seq<XmlToken>>
    decreases n
  {
    match n
    case Comment(_) => Some([])
    case ProcessingInstruction(_, _) => Some([])
    case Text(t) =>
      (match Solve(h.templating, e, t)
       case None => None
       case Some(s) => Some([TextOut(Trim(s))]))
    case Element(name, attrs, children) =>
      match SolveAttributes(h, e, attrs)
      case None => None
      case Some(ats) =>
        match PlainOutputs(h, e, children)
        case None => None
        case Some(inner) => Some([StartElement(name)] + ats + inner + [EndElement])
  }

  function PlainOutputs(h: Host, e: TemplateEngine, ns: seq<Node>): Option<seq<XmlToken>>
    decreases ns
  {
    if ns == [] then Some([])
    else
      match PlainOutput(h, e, ns[0])
      case None => None
      case Some(first) =>
        match PlainOutputs(h, e, ns[1..])
        case None => None
        case Some(rest) => Some(first + rest)
  }

  /** The walk of plain markup appends `PlainOutputs` to the output, or aborts
      exactly when that is `None`; components used and slot stack are left
      alone. */
  predicate MatchesPlain(h: Host, e: TemplateEngine, ns: seq<Node>, w: Walk, r: Expansion) {
    match PlainOutputs(h, e, ns)
    case None => r == Aborted
    case Some(toks) => r == Expanded(w.(out := w.out + toks))
  }

  /** A page with no component invocations expands to its own markup with text
      trimmed and expressions solved, whatever the registry holds and however
      much fuel is given. */
  lemma {:induction false} PlainExpansion(h: Host, store: ComponentStore, fuel: nat,
                                          ns: seq<Node>, e: TemplateEngine, w: Walk)
    requires PlainNodes(ns)
    ensures MatchesPlain(h, e, ns, w, ExpandNodes(h, store, fuel, ns, e, w))
    decreases ns
  {
    if ns != [] {
      PlainNodeExpansion(h, store, fuel, ns[0], e, w);
      match PlainOutput(h, e, ns[0])
      case None =>
      case Some(first) =>
        var w1 := w.(out := w.out + first);
        assert PlainNodes(ns[1..]) by {
          forall i | 0 <= i < |ns[1..]| ensures PlainNode(ns[1..][i]) {
            assert ns[1..][i] == ns[i + 1];
          }
        }
        PlainExpansion(h, store, fuel, ns[1..], e, w1);
        match PlainOutputs(h, e, ns[1..])
        case None =>
        case Some(rest) =>
          assert w1.out + rest == w.out + (first + rest);
    }
  }

  lemma {:induction false} PlainNodeExpansion(h: Host, store: ComponentStore, fuel: nat,
                                              n: Node, e: TemplateEngine, w: Walk)
    requires PlainNode(n)
    ensures match PlainOutput(h, e, n)
            case None => ExpandNode(h, store, fuel, n, e, w) == Aborted
            case Some(toks) => ExpandNode(h, store, fuel, n, e, w) == Expanded(w.(out := w.out + toks))
    decreases n
  {
    match n
    case Element(name, attrs, children) => {
      match SolveAttributes(h, e, attrs) {
        case None =>
        case Some(ats) =>
          var started := w.(out := w.out + [StartElement(name)] + ats);
          PlainExpansion(h, store, fuel, children, e, started);
          match PlainOutputs(h, e, children) {
            case None =>
            case Some(inner) =>
              assert started.out + inner + [EndElement] == w.out + ([StartElement(name)] + ats + inner + [EndElement]);
          }
      }
    }
    case _ =>
  }

  /** After a component invocation the slot stack is a prefix of the stack
      before it: never longer, and exactly the same when the component's body
      consumed at most the one entry pushed for it. */
  lemma InvocationRestoresStack(h: Host, store: ComponentStore, fuel: nat, name: string,
                                attrs: seq<Attr>, children: seq<Node>, e: TemplateEngine, w: Walk)
    requires name != [] && 'A' <= name[0] <= 'Z' && !IsGoodWebComponent(name)
    requires name in store.components
    requires InvokeBody(h, store, fuel, store.components[name], attrs, children, e, w).Expanded?
    ensures var body := InvokeBody(h, store, fuel, store.components[name], attrs, children, e, w);
            var r := ExpandNode(h, store, fuel, Element(name, attrs, children), e, w);
            && r.Expanded?
            && r.walk.slots <= w.slots
            && (r.walk.slots == w.slots <==> |body.walk.slots| >= |w.slots|)
  {
    var body := InvokeBody(h, store, fuel, store.components[name], attrs, children, e, w);
    assert body.walk.slots <= w.slots + [children];
    if |body.walk.slots| >= |w.slots| {
      assert body.walk.slots[..|w.slots|] == (w.slots + [children])[..|w.slots|] == w.slots;
    }
  }

  /** Fuel only cuts runs short: a walk that finishes (in any way other than
      running out) with some fuel gives the same result with one more unit. */
  lemma {:induction false} ExpandNodesFuel(h: Host, store: ComponentStore, fuel: nat,
                                           ns: seq<Node>, e: TemplateEngine, w: Walk)
    requires !ExpandNodes(h, store, fuel, ns, e, w).OutOfFuel?
    ensures ExpandNodes(h, store, fuel + 1, ns, e, w) == ExpandNodes(h, store, fuel, ns, e, w)
    decreases fuel, ns, 0
  {
    if ns != [] {
      ExpandNodeFuel(h, store, fuel, ns[0], e, w);
      match ExpandNode(h, store, fuel, ns[0], e, w)
      case Expanded(w1) => ExpandNodesFuel(h, store, fuel, ns[1..], e, w1);
      case _ =>
    }
  }

  /** Any larger fuel, one unit at a time. */
  lemma {:induction false} ExpandNodesMoreFuel(h: Host, store: ComponentStore, fuel: nat, more: nat,
                                               ns: seq<Node>, e: TemplateEngine, w: Walk)
    requires fuel <= more
    requires !ExpandNodes(h, store, fuel, ns, e, w).OutOfFuel?
    ensures ExpandNodes(h, store, more, ns, e, w) == ExpandNodes(h, store, fuel, ns, e, w)
    decreases more - fuel
  {
    if fuel < more {
      ExpandNodesFuel(h, store, fuel, ns, e, w);
      ExpandNodesMoreFuel(h, store, fuel + 1, more, ns, e, w);
    }
  }

  lemma {:induction false} ExpandNodeFuel(h: Host, store: ComponentStore, fuel: nat,
                                          n: Node, e: TemplateEngine, w: Walk)
    requires !ExpandNode(h, store, fuel, n, e, w).OutOfFuel?
    ensures ExpandNode(h, store, fuel + 1, n, e, w) == ExpandNode(h, store, fuel, n, e, w)
    decreases fuel, n, 2
  {
    match n
    case Element(name, attrs, children) => {
      if IsGoodWebComponent(name) {
        if GetGoodWebComponent(name) == Inner && |w.slots| > 0 {
          var top := w.slots[|w.slots| - 1];
          ExpandNodesFuel(h, store, fuel - 1, top, e, w.(slots := w.slots[..|w.slots| - 1]));
        }
      } else if IsFirstCharUppercase(name) == Some(false) {
        match SolveAttributes(h, e, attrs) {
          case None =>
          case Some(ats) =>
            ExpandNodesFuel(h, store, fuel, children, e, w.(out := w.out + [StartElement(name)] + ats));
        }
      } else if IsFirstCharUppercase(name) == Some(true) && name in store.components {
        InvokeBodyFuel(h, store, fuel, store.components[name], attrs, children, e, w);
      }
    }
    case _ =>
  }

  lemma {:induction false} InvokeBodyFuel(h: Host, store: ComponentStore, fuel: nat, c: Component,
                                          attrs: seq<Attr>, children: seq<Node>, e: TemplateEngine, w: Walk)
    requires c in store.components.Values
    requires !InvokeBody(h, store, fuel, c, attrs, children, e, w).OutOfFuel?
    ensures InvokeBody(h, store, fuel + 1, c, attrs, children, e, w) == InvokeBody(h, store, fuel, c, attrs, children, e, w)
    decreases fuel, children, 1
  {
    match h.xml(c.xmlData)
    case None =>
    case Some(doc) =>
      match ComputeState(h.templating, e, attrs)
      case None =>
      case Some(inner) =>
        var used := if c.id in w.used then w.used else w.used + [c.id];
        ExpandNodesFuel(h, store, fuel - 1, doc, inner, Walk(w.out, used, w.slots + [children]));
  }
}

/** The expansion engine of src/page_builder.rs: `build_page`,
    `compute_recursive_pre` and `compute_recursive`, with the tag classifiers
    they use. The walk threads the writer's token stream, the ids of the
    components used and the `GoodWeb-Inner` slot stack. */
module PageBuilder {
  import opened Wrappers
  import opened Strings
  import opened Markup
  import opened Templating
  import opened Registry

  const GoodWebPrefix := "GoodWeb-"

  /** `GoodWebComponent`; the source's `None` variant is `Unrecognized` here. */
  datatype GoodWebComponent = Inner | Styles | Unrecognized

  predicate IsGoodWebComponent(name: string) {
    StartsWith(name, GoodWebPrefix)
  }

  /** Only the two exact control names are recognised, and both carry the prefix. */
  function GetGoodWebComponent(name: string): (k: GoodWebComponent)
    ensures k == Inner <==> name == "GoodWeb-Inner"
    ensures k == Styles <==> name == "GoodWeb-Styles"
    ensures k != Unrecognized ==> IsGoodWebComponent(name)
  {
    if name == "GoodWeb-Inner" then Inner
    else if name == "GoodWeb-Styles" then Styles
    else Unrecognized
  }

  /** `None` for an empty name, otherwise whether the first character is in 'A'..'Z'. */
  function IsFirstCharUppercase(name: string): (r: Option<bool>)
    ensures r.None? <==> name == []
    ensures r == Some(true) <==> name != [] && 'A' <= name[0] <= 'Z'
  {
    if name == [] then None else Some('A' <= name[0] <= 'Z')
  }

  /** The foreign collaborators: roxmltree (a document's root children, or
      `None` when the text does not parse) and the templating pair. */
  datatype Host = Host(xml: string -> Option<seq<Node>>, templating: Foreign)

  function Parses(h: Host): string -> bool {
    s => h.xml(s).Some?
  }

  /** What the walk has produced so far: writer calls, component ids in first
      use order, and the stack of pending caller content (each entry is the
      child list of one component invocation). */
  datatype Walk = Walk(out: seq<XmlToken>, used: seq<int>, slots: seq<seq<Node>>)

  datatype Panic = EmptySlotStack | UnparseableComponent

  /** `Expanded` is `Some(writer)`; `Aborted` is a `None` propagated by `?`;
      `Panicked` is a Rust panic; `OutOfFuel` marks a run the model cut short. */
  datatype Expansion = Expanded(walk: Walk) | Aborted | Panicked(reason: Panic) | OutOfFuel

  predicate NoDup<T(==)>(s: seq<T>) {
    forall i, j :: 0 <= i < j < |s| ==> s[i] != s[j]
  }

  /** How a walk may evolve: output and usage list only grow at the end, the
      usage list stays duplicate-free and records only registered ids, and the
      slot stack only loses entries from its top. */
  ghost predicate Extends(store: ComponentStore, w: Walk, w': Walk) {
    && w.out <= w'.out
    && w.used <= w'.used
    && w'.slots <= w.slots
    && (NoDup(w.used) ==> NoDup(w'.used))
    && (forall i :: |w.used| <= i < |w'.used| ==> w'.used[i] in IdsOf(store))
  }

  lemma ExtendsTrans(store: ComponentStore, w1: Walk, w2: Walk, w3: Walk)
    requires Extends(store, w1, w2) && Extends(store, w2, w3)
    ensures Extends(store, w1, w3)
  {
    forall i | |w1.used| <= i < |w3.used|
      ensures w3.used[i] in IdsOf(store)
    {
      if i < |w2.used| {
        assert w3.used[i] == w2.used[i];
      }
    }
  }

  /** The stack after popping back down to `len` entries. */
  function Truncate<T>(s: seq<T>, len: nat): seq<T> {
    if |s| > len then s[..len] else s
  }

  /** Solves every attribute value against `e`; `None` as soon as one fails. */
  function SolveAttributes(h: Host, e: TemplateEngine, attrs: seq<Attr>): (r: Option<seq<XmlToken>>)
    ensures r.None? <==> exists i :: 0 <= i < |attrs| && Solve(h.templating, e, attrs[i].value).None?
    ensures r.Some? ==> |r.value| == |attrs| && forall i :: 0 <= i < |attrs| ==>
              r.value[i] == Attribute(attrs[i].name, Solve(h.templating, e, attrs[i].value).value)
    decreases |attrs|
  {
    if attrs == [] then Some([])
    else
      match Solve(h.templating, e, attrs[0].value)
      case None => None
      case Some(v) =>
        match SolveAttributes(h, e, attrs[1..])
        case None =>
          assert forall i :: 1 <= i < |attrs| ==> attrs[1..][i - 1] == attrs[i];
          None
        case Some(rest) => Some([Attribute(attrs[0].name, v)] + rest)
  }

  /** `compute_recursive` over a list of siblings, all under the same engine. */
  function ExpandNodes(h: Host, store: ComponentStore, fuel: nat, nodes: seq<Node>,
                       e: TemplateEngine, w: Walk): (r: Expansion)
    ensures r.Expanded? ==> Extends(store, w, r.walk)
    decreases fuel, nodes, 0
  {
    if nodes == [] then Expanded(w)
    else
      match ExpandNode(h, store, fuel, nodes[0], e, w)
      case Expanded(w1) =>
        var r := ExpandNodes(h, store, fuel, nodes[1..], e, w1);
        if r.Expanded? then ExtendsTrans(store, w, w1, r.walk); r else r
      case failed => failed
  }

  /** One iteration of `compute_recursive`'s loop. */
  function ExpandNode(h: Host, store: ComponentStore, fuel: nat, node: Node,
                      e: TemplateEngine, w: Walk): (r: Expansion)
    ensures r.Expanded? ==> Extends(store, w, r.walk)
    decreases fuel, node
  {
    match node
    case Comment(_) => Expanded(w)
    case ProcessingInstruction(_, _) => Expanded(w)
    case Text(t) =>
      (match Solve(h.templating, e, t)
       case None => Aborted
       case Some(s) => Expanded(w.(out := w.out + [TextOut(Trim(s))])))
    case Element(name, attrs, children) =>
      if IsGoodWebComponent(name) then
        (match GetGoodWebComponent(name)
         case Inner =>
           if |w.slots| == 0 then Panicked(EmptySlotStack)
           else if fuel == 0 then OutOfFuel
           else
             var top := w.slots[|w.slots| - 1];
             var popped := w.(slots := w.slots[..|w.slots| - 1]);
             var r := ExpandNodes(h, store, fuel - 1, top, e, popped);
             if r.Expanded? then ExtendsTrans(store, w, popped, r.walk); r else r
         case Styles => Expanded(w)
         case Unrecognized => Expanded(w))
      else
        match IsFirstCharUppercase(name)
        case None => Aborted
        case Some(false) => ExpandLiteral(h, store, fuel, name, attrs, children, e, w)
        case Some(true) =>
          match FindComponent(store, name)
          case None => Expanded(w)
          case Some(c) =>
            var r := InvokeBody(h, store, fuel, c, attrs, children, e, w);
            if r.Expanded? then
              var w' := r.walk.(slots := Truncate(r.walk.slots, |w.slots|));
              assert w'.slots <= w.slots;
              Expanded(w')
            else r
  }

  /** A lower-case element: written out with its attributes solved, its children
      walked with the same engine and the same slot stack. */
  function ExpandLiteral(h: Host, store: ComponentStore, fuel: nat, name: string, attrs: seq<Attr>,
                         children: seq<Node>, e: TemplateEngine, w: Walk): (r: Expansion)
    ensures r.Expanded? ==> Extends(store, w, r.walk)
    decreases fuel, children, 1
  {
    match SolveAttributes(h, e, attrs)
    case None => Aborted
    case Some(attrTokens) =>
      var started := w.(out := w.out + [StartElement(name)] + attrTokens);
      match ExpandNodes(h, store, fuel, children, e, started)
      case Expanded(w1) =>
        ExtendsTrans(store, w, started, w1);
        Expanded(w1.(out := w1.out + [EndElement]))
      case failed => failed
  }

  /** A component invocation up to, but not including, the final truncation of
      the slot stack: records the id, pushes the caller's children, and walks
      the component's own document under the state derived from the
      invocation's attributes. */
  function InvokeBody(h: Host, store: ComponentStore, fuel: nat, c: Component, attrs: seq<Attr>,
                      children: seq<Node>, e: TemplateEngine, w: Walk): (r: Expansion)
    requires c in store.components.Values
    ensures r.Expanded? ==> Extends(store, w.(slots := w.slots + [children]), r.walk)
    ensures r.Expanded? ==> w.out <= r.walk.out && w.used <= r.walk.used
    ensures r.Expanded? ==> (NoDup(w.used) ==> NoDup(r.walk.used))
    ensures r.Expanded? ==> forall i :: |w.used| <= i < |r.walk.used| ==> r.walk.used[i] in IdsOf(store)
    decreases fuel, children
  {
    var used := if c.id in w.used then w.used else w.used + [c.id];
    var pushed := Walk(w.out, used, w.slots + [children]);
    match h.xml(c.xmlData)
    case None => Panicked(UnparseableComponent)
    case Some(doc) =>
      match ComputeState(h.templating, e, attrs)
      case None => Aborted
      case Some(inner) =>
        if fuel == 0 then OutOfFuel
        else
          var r := ExpandNodes(h, store, fuel - 1, doc, inner, pushed);
          if r.Expanded? then
            assert Extends(store, w.(slots := w.slots + [children]), pushed);
            ExtendsTrans(store, w.(slots := w.slots + [children]), pushed, r.walk);
            r
          else r
  }

  /** `build_page`: parses the page and walks its root's children under an
      empty engine with an empty slot stack. */
  function BuildPage(h: Host, store: ComponentStore, fuel: nat, page: Component): (r: Expansion)
    ensures r.Expanded? ==> NoDup(r.walk.used)
    ensures r.Expanded? ==> forall id :: id in r.walk.used ==> id in IdsOf(store)
    ensures r.Expanded? ==> r.walk.slots == []
  {
    match h.xml(page.xmlData)
    case None => Panicked(UnparseableComponent)
    case Some(doc) => ExpandNodes(h, store, fuel, doc, NewEngine(), Walk([], [], []))
  }
}

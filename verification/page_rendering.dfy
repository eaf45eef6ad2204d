/** The JavaScript renderer of src/page-rendering.js: the case-insensitive
    component store, attribute computation, the `render` mutator handed to the
    tree visitor, and the list of components used on every page.

    Evaluating a `{...}` attribute runs `new Function` over the current state;
    that evaluation is a parameter here (`None` is a thrown exception). The
    mutator calls back into the visitor, so the model bounds that nesting with
    fuel: every nested traversal the mutator starts costs one unit. */
module PageRendering {
  import opened Wrappers
  import opened Strings
  import opened PseudoHtml
  import opened NodeVisitor

  /** A `Component` of page-rendering.d.ts; its stylesheet plays no part in rendering. */
  datatype JsComponent = JsComponent(name: string, path: string, html: PNode)

  // ---------------------------------------------------------------------------
  // ComponentStore

  /** `findComponents`: the first component whose name equals `name` once both
      are upper-cased. */
  function FindComponents(cs: seq<JsComponent>, name: string): (r: Option<JsComponent>)
    ensures r.None? <==> forall i :: 0 <= i < |cs| ==> !EqualsIgnoreCase(cs[i].name, name)
    ensures r.Some? ==> exists i :: 0 <= i < |cs| && cs[i] == r.value && EqualsIgnoreCase(cs[i].name, name)
                                    && forall j :: 0 <= j < i ==> !EqualsIgnoreCase(cs[j].name, name)
    decreases |cs|
  {
    if cs == [] then None
    else if EqualsIgnoreCase(cs[0].name, name) then Some(cs[0])
    else
      var r := FindComponents(cs[1..], name);
      assert forall i :: 1 <= i < |cs| ==> cs[1..][i - 1] == cs[i];
      if r.Some? then
        var k :| 0 <= k < |cs[1..]| && cs[1..][k] == r.value && EqualsIgnoreCase(cs[1..][k].name, name)
                 && forall j :: 0 <= j < k ==> !EqualsIgnoreCase(cs[1..][j].name, name);
        assert cs[k + 1] == r.value;
        r
      else r
  }

  datatype Outcome<T> = Returned(value: T) | Raised(message: string)

  /** `findComponent`: `findComponents`, throwing when nothing matches. */
  function FindComponent(cs: seq<JsComponent>, name: string): (r: Outcome<JsComponent>)
    ensures r.Raised? <==> forall i :: 0 <= i < |cs| ==> !EqualsIgnoreCase(cs[i].name, name)
    ensures r.Raised? ==> r.message == "couldn't find component '" + name + "'."
    ensures r.Returned? ==> Some(r.value) == FindComponents(cs, name)
  {
    match FindComponents(cs, name)
    case None => Raised("couldn't find component '" + name + "'.")
    case Some(c) => Returned(c)
  }

  /** A stored component is always found under its own name, though possibly
      as an earlier component whose name differs only in case. */
  lemma FoundUnderOwnName(cs: seq<JsComponent>, c: JsComponent)
    requires c in cs
    ensures FindComponents(cs, c.name).Some?
    ensures EqualsIgnoreCase(FindComponents(cs, c.name).value.name, c.name)
  {
    var i :| 0 <= i < |cs| && cs[i] == c;
    assert EqualsIgnoreCase(cs[i].name, c.name);
  }

  // ---------------------------------------------------------------------------
  // computeAttributes / computeState

  /** The JavaScript state object: every value it ever receives is an attribute's text. */
  type State = map<string, string>

  /** `new Function(environment)()` for the expression between the braces,
      with one constant per key of the state; `None` when it throws. */
  type Eval = (State, string) -> Option<string>

  predicate IsBraced(v: string) {
    StartsWith(v, "{") && EndsWith(v, "}")
  }

  /** The text between the braces (a braced value has at least two characters). */
  function Inside(v: string): string
    requires IsBraced(v)
  {
    assert v[0] == v[..1][0] == '{';
    assert v[|v| - 1] == v[|v| - 1..][0] == '}';
    v[1..|v| - 1]
  }

  /** The names of the attributes that are not braced. */
  function LiteralNames(attrs: seq<PAttr>): (r: set<string>)
    ensures forall i :: 0 <= i < |attrs| && !IsBraced(attrs[i].value) ==> attrs[i].name in r
    decreases |attrs|
  {
    if attrs == [] then {}
    else
      var init := attrs[..|attrs| - 1];
      var last := attrs[|attrs| - 1];
      assert forall i :: 0 <= i < |init| ==> init[i] == attrs[i];
      LiteralNames(init) + (if IsBraced(last.value) then {} else {last.name})
  }

  /** Attribute `i` is a literal and no later literal has its name. */
  predicate IsLastLiteral(attrs: seq<PAttr>, i: int)
    requires 0 <= i < |attrs|
  {
    && !IsBraced(attrs[i].value)
    && forall j :: i < j < |attrs| && !IsBraced(attrs[j].value) ==> attrs[j].name != attrs[i].name
  }

  datatype Computed = Computed(attributes: seq<PAttr>, state: State)

  /** The attribute list `computeAttributes` returns: a braced value is
      replaced by its evaluation against the INPUT state, any other attribute
      is copied. */
  function ComputeValues(eval: Eval, state: State, attrs: seq<PAttr>): (r: Option<seq<PAttr>>)
    ensures r.None? <==> exists i :: 0 <= i < |attrs| && IsBraced(attrs[i].value)
                                     && eval(state, Inside(attrs[i].value)).None?
    ensures r.Some? ==> |r.value| == |attrs|
    ensures r.Some? ==> forall i :: 0 <= i < |attrs| ==>
              && r.value[i].name == attrs[i].name
              && (!IsBraced(attrs[i].value) ==> r.value[i] == attrs[i])
              && (IsBraced(attrs[i].value) ==> r.value[i].value == eval(state, Inside(attrs[i].value)).value)
    decreases |attrs|
  {
    if attrs == [] then Some([])
    else
      match ComputeValue(eval, state, attrs[0])
      case None => None
      case Some(a) =>
        assert forall i :: 1 <= i < |attrs| ==> attrs[1..][i - 1] == attrs[i];
        match ComputeValues(eval, state, attrs[1..])
        case None => None
        case Some(rest) => Some([a] + rest)
  }

  /** One attribute of `computeAttributes`. */
  function ComputeValue(eval: Eval, state: State, a: PAttr): (r: Option<PAttr>)
    ensures r.None? <==> IsBraced(a.value) && eval(state, Inside(a.value)).None?
    ensures r.Some? ==> r.value.name == a.name
    ensures r.Some? && !IsBraced(a.value) ==> r.value == a
    ensures r.Some? && IsBraced(a.value) ==> r.value.value == eval(state, Inside(a.value)).value
  {
    if !IsBraced(a.value) then Some(a)
    else
      match eval(state, Inside(a.value))
      case None => None
      case Some(v) => Some(PAttr(a.name, v))
  }

  /** The state `computeAttributes` returns: a copy of the input with every
      literal attribute bound under its name, in order, so later literals
      overwrite earlier ones. A fold over the attribute prefix. */
  function BindLiterals(state: State, attrs: seq<PAttr>): (r: State)
    ensures r.Keys == state.Keys + LiteralNames(attrs)
    ensures forall k :: k in state && k !in LiteralNames(attrs) ==> r[k] == state[k]
    ensures forall i :: 0 <= i < |attrs| && IsLastLiteral(attrs, i) ==> r[attrs[i].name] == attrs[i].value
    decreases |attrs|
  {
    if attrs == [] then state
    else
      var init := attrs[..|attrs| - 1];
      var last := attrs[|attrs| - 1];
      LastLiteralOfPrefix(attrs);
      if IsBraced(last.value) then BindLiterals(state, init)
      else BindLiterals(state, init)[last.name := last.value]
  }

  /** A literal that is last of its name in `attrs` and not the final
      attribute is last of its name in the prefix without the final attribute. */
  lemma LastLiteralOfPrefix(attrs: seq<PAttr>)
    requires attrs != []
    ensures forall i :: 0 <= i < |attrs| - 1 && IsLastLiteral(attrs, i) ==> IsLastLiteral(attrs[..|attrs| - 1], i)
  {
  }

  /** `computeAttributes`; `None` when an evaluation throws. */
  function ComputeAttributes(eval: Eval, state: State, attrs: seq<PAttr>): (r: Option<Computed>)
    ensures r.None? <==> ComputeValues(eval, state, attrs).None?
    ensures r.Some? ==> r.value == Computed(ComputeValues(eval, state, attrs).value, BindLiterals(state, attrs))
  {
    match ComputeValues(eval, state, attrs)
    case None => None
    case Some(vs) => Some(Computed(vs, BindLiterals(state, attrs)))
  }

  /** `computeState`: the computed attributes, and the new state only when the
      node is a component invocation; a plain element keeps the caller's state. */
  function ComputeState(eval: Eval, current: State, node: PNode, component: Option<JsComponent>): (r: Option<Computed>)
    ensures r.None? <==> ComputeAttributes(eval, current, node.nodeAttributes).None?
    ensures r.Some? ==> r.value.attributes == ComputeAttributes(eval, current, node.nodeAttributes).value.attributes
    ensures r.Some? && component.None? ==> r.value.state == current
    ensures r.Some? && component.Some? ==> r.value.state == ComputeAttributes(eval, current, node.nodeAttributes).value.state
  {
    match ComputeAttributes(eval, current, node.nodeAttributes)
    case None => None
    case Some(c) => Some(Computed(c.attributes, if component.None? then current else c.state))
  }

  /** Attribute evaluation sees the caller's state only: a literal attribute
      earlier in the same list is not visible to a later braced one. */
  lemma EvaluationIgnoresSiblings(eval: Eval, state: State, lit: PAttr, braced: PAttr)
    requires !IsBraced(lit.value) && IsBraced(braced.value)
    requires eval(state, Inside(braced.value)).Some?
    ensures ComputeAttributes(eval, state, [lit, braced]).Some?
    ensures ComputeAttributes(eval, state, [lit, braced]).value.attributes[1].value
            == eval(state, Inside(braced.value)).value
    ensures ComputeAttributes(eval, state, [lit, braced]).value.state == state[lit.name := lit.value]
  {
    var attrs := [lit, braced];
    assert attrs[1..] == [braced] && attrs[1..][1..] == [];
    assert attrs[..1] == [lit] && [lit][..0] == [];
    assert IsLastLiteral(attrs, 0);
    assert BindLiterals(state, attrs) == BindLiterals(state, [lit]);
    assert BindLiterals(state, [lit]) == state[lit.name := lit.value];
  }

  // ---------------------------------------------------------------------------
  // The render mutator

  /** `{ goodwebInnerNode, state }`. */
  datatype Options = Options(inner: Option<PNode>, state: State)

  /** What the mutator closes over: the page's store and the evaluator. */
  datatype Renderer = Renderer(store: seq<JsComponent>, eval: Eval)

  predicate DistinctNames(cs: seq<JsComponent>) {
    forall i, j :: 0 <= i < j < |cs| ==> cs[i].name != cs[j].name
  }

  predicate HasName(cs: seq<JsComponent>, name: string) {
    exists k :: 0 <= k < |cs| && cs[k].name == name
  }

  /** `componentsUsed` after meeting `c`: appended unless a component with
      exactly that name is already listed. */
  function NoteUse(used: seq<JsComponent>, c: JsComponent): (r: seq<JsComponent>)
    ensures used <= r && HasName(r, c.name)
    ensures DistinctNames(used) ==> DistinctNames(r)
    ensures |r| == |used| <==> HasName(used, c.name)
    ensures |r| > |used| ==> r == used + [c]
  {
    if HasName(used, c.name) then used
    else
      assert (used + [c])[|used|].name == c.name;
      used + [c]
  }

  /** How the list of used components may change during a traversal: it only
      grows at the end, stays free of repeated names, and gains only stored
      components. */
  ghost predicate Grows(store: seq<JsComponent>, used: seq<JsComponent>, used': seq<JsComponent>) {
    && used <= used'
    && (DistinctNames(used) ==> DistinctNames(used'))
    && forall i :: |used| <= i < |used'| ==> used'[i] in store
  }

  lemma GrowsTrans(store: seq<JsComponent>, u1: seq<JsComponent>, u2: seq<JsComponent>, u3: seq<JsComponent>)
    requires Grows(store, u1, u2) && Grows(store, u2, u3)
    ensures Grows(store, u1, u3)
  {
    forall i | |u1| <= i < |u3|
      ensures u3[i] in store
    {
      if i < |u2| {
        assert u3[i] == u2[i];
      }
    }
  }

  function Lift(v: Visit<seq<JsComponent>>): (s: Step<seq<JsComponent>>)
    ensures v.Visited? <==> s.Replaced?
    ensures v.Visited? ==> s.node == v.node && s.acc == v.acc
    ensures v.Failed? ==> s == Halted(v.halt)
  {
    match v
    case Visited(n, a) => Replaced(n, a)
    case Failed(h) => Halted(h)
  }

  /** The mutator given to the visitor, with `fuel` nested traversals left. */
  function Mutator(r: Renderer, fuel: nat): (PNode, Options, seq<JsComponent>) -> Step<seq<JsComponent>>
    decreases fuel, 2
  {
    (n, o, used) => RenderStep(r, fuel, n, o, used)
  }

  /** The body of the `render` mutator: a `GOODWEB-INNER` node (any case) is
      replaced by the traversal of the invocation it stands for; a node that is
      not a component is returned as it is when it has no attributes, and
      otherwise gets computed attributes and its children traversed; a
      component is noted as used and replaced by the traversal of its own
      document. */
  function RenderStep(r: Renderer, fuel: nat, n: PNode, o: Options, used: seq<JsComponent>): (s: Step<seq<JsComponent>>)
    ensures !s.Halted? ==> Grows(r.store, used, s.acc)
    decreases fuel, 1
  {
    if ToUpperCase(n.nodeName) == "GOODWEB-INNER" then InnerStep(r, fuel, o, used)
    else
      match FindComponents(r.store, n.nodeName)
      case None => if n.nodeAttributes == [] then Same(used) else ElementStep(r, fuel, n, o, used)
      case Some(c) => ComponentStep(r, fuel, n, c, o, used)
  }

  /** `GoodWeb-Inner`: the invocation's content (its children under a
      `#document` node), traversed with no pending content of its own under the
      current state. Outside any component there is nothing to traverse and
      reading its `childNodes` throws. */
  function InnerStep(r: Renderer, fuel: nat, o: Options, used: seq<JsComponent>): (s: Step<seq<JsComponent>>)
    ensures !s.Halted? ==> Grows(r.store, used, s.acc)
    ensures o.inner.None? ==> s == Halted(Thrown)
    decreases fuel, 0
  {
    match o.inner
    case None => Halted(Thrown)
    case Some(inner) =>
      if fuel == 0 then Halted(OutOfFuel)
      else
        var m := Mutator(r, fuel - 1);
        var o' := Options(None, o.state);
        MutatorGrows(r, fuel - 1, o', used);
        TraverseKeeps(m, u => Grows(r.store, used, u), inner, o', used);
        Lift(Traverse(m, inner, o', used))
  }

  /** An element that is not a component, with attributes: the computed
      attributes replace its own and its children are traversed under the
      caller's state, which a plain element never changes. */
  function ElementStep(r: Renderer, fuel: nat, n: PNode, o: Options, used: seq<JsComponent>): (s: Step<seq<JsComponent>>)
    ensures !s.Halted? ==> Grows(r.store, used, s.acc)
    ensures s.Replaced? ==> ComputeValues(r.eval, o.state, n.nodeAttributes).Some?
                            && s.node == n.(nodeAttributes := ComputeValues(r.eval, o.state, n.nodeAttributes).value,
                                            childNodes := s.node.childNodes)
    decreases fuel, 0
  {
    match ComputeState(r.eval, o.state, n, None)
    case None => Halted(Thrown)
    case Some(c) =>
      if fuel == 0 then Halted(OutOfFuel)
      else
        var m := Mutator(r, fuel - 1);
        var o' := Options(o.inner, c.state);
        var computed := n.(nodeAttributes := c.attributes);
        MutatorGrows(r, fuel - 1, o', used);
        TraverseAllKeeps(m, u => Grows(r.store, used, u), computed.childNodes, o', used);
        Lift(TraverseInner(m, computed, o', used))
  }

  /** A component invocation: noted as used, then replaced by the traversal of
      the component's document, whose `GoodWeb-Inner` gets the invocation
      renamed `#document`, under the state its attributes derive. */
  function ComponentStep(r: Renderer, fuel: nat, n: PNode, c: JsComponent, o: Options, used: seq<JsComponent>): (s: Step<seq<JsComponent>>)
    requires c in r.store
    ensures !s.Halted? ==> Grows(r.store, used, s.acc)
    ensures !s.Halted? ==> NoteUse(used, c) <= s.acc
    decreases fuel, 0
  {
    var used' := NoteUse(used, c);
    match ComputeState(r.eval, o.state, n, Some(c))
    case None => Halted(Thrown)
    case Some(cs) =>
      if fuel == 0 then Halted(OutOfFuel)
      else
        var o' := Options(Some(n.(nodeName := "#document")), cs.state);
        var v := Traverse(Mutator(r, fuel - 1), c.html, o', used');
        TraverseGrows(r, fuel - 1, c.html, o', used');
        NoteUseGrows(r.store, used, c);
        if v.Visited? then GrowsTrans(r.store, used, used', v.acc); Lift(v) else Lift(v)
  }

  /** Noting a stored component is a way of growing the list. */
  lemma NoteUseGrows(store: seq<JsComponent>, used: seq<JsComponent>, c: JsComponent)
    requires c in store
    ensures Grows(store, used, NoteUse(used, c))
  {
  }

  /** A nested traversal with the render mutator grows the list it starts from. */
  lemma TraverseGrows(r: Renderer, fuel: nat, n: PNode, o: Options, base: seq<JsComponent>)
    ensures Traverse(Mutator(r, fuel), n, o, base).Visited? ==> Grows(r.store, base, Traverse(Mutator(r, fuel), n, o, base).acc)
    decreases fuel, 4
  {
    MutatorGrows(r, fuel, o, base);
    TraverseKeeps(Mutator(r, fuel), u => Grows(r.store, base, u), n, o, base);
  }

  /** Every step of the mutator with `fuel` left keeps `Grows` from `base`. */
  lemma MutatorGrows(r: Renderer, fuel: nat, o: Options, base: seq<JsComponent>)
    ensures forall x, a :: Grows(r.store, base, a) && !Mutator(r, fuel)(x, o, a).Halted? ==>
              Grows(r.store, base, Mutator(r, fuel)(x, o, a).acc)
    decreases fuel, 3
  {
    forall x, a | Grows(r.store, base, a) && !Mutator(r, fuel)(x, o, a).Halted?
      ensures Grows(r.store, base, Mutator(r, fuel)(x, o, a).acc)
    {
      var s := RenderStep(r, fuel, x, o, a);
      assert Grows(r.store, a, s.acc);
      forall i | |base| <= i < |s.acc|
        ensures s.acc[i] in r.store
      {
        if i < |a| {
          assert s.acc[i] == a[i];
        }
      }
    }
  }

  /** A node that is neither `GoodWeb-Inner` nor a component and has no
      attributes is handed back untouched. */
  lemma PlainNodeUntouched(r: Renderer, fuel: nat, n: PNode, o: Options, used: seq<JsComponent>)
    requires ToUpperCase(n.nodeName) != "GOODWEB-INNER"
    requires FindComponents(r.store, n.nodeName).None?
    requires n.nodeAttributes == []
    ensures RenderStep(r, fuel, n, o, used) == Same(used)
  {
  }

  // ---------------------------------------------------------------------------
  // render

  /** One page: the visitor over its document with the render mutator, no
      pending `GoodWeb-Inner` content, an empty state and no components used. */
  function RenderPage(r: Renderer, fuel: nat, page: JsComponent): (v: Visit<seq<JsComponent>>)
    ensures v.Visited? ==> DistinctNames(v.acc) && forall c :: c in v.acc ==> c in r.store
  {
    var o := Options(None, map[]);
    MutatorGrows(r, fuel, o, []);
    TraverseKeeps(Mutator(r, fuel), u => Grows(r.store, [], u), page.html, o, []);
    Traverse(Mutator(r, fuel), page.html, o, [])
  }

  function NamesOf(cs: seq<JsComponent>): (r: seq<string>)
    ensures |r| == |cs| && forall i :: 0 <= i < |cs| ==> r[i] == cs[i].name
  {
    seq(|cs|, i requires 0 <= i < |cs| => cs[i].name)
  }

  /** `x` occurs in every list. */
  predicate InAll(x: string, lists: seq<seq<string>>) {
    forall k :: 0 <= k < |lists| ==> x in lists[k]
  }

  /** The reference for the intersection: the elements of `s` that occur in
      every list, in their order in `s`. */
  function Common(s: seq<string>, lists: seq<seq<string>>): (r: seq<string>)
    ensures |r| <= |s|
    decreases |s|
  {
    if s == [] then []
    else
      var init := s[..|s| - 1];
      var last := s[|s| - 1];
      assert s == init + [last];
      Common(init, lists) + (if InAll(last, lists) then [last] else [])
  }

  /** The reference keeps exactly the elements of `s` found in every list. */
  lemma {:induction false} CommonMembers(s: seq<string>, lists: seq<seq<string>>)
    ensures forall x :: x in Common(s, lists) <==> x in s && InAll(x, lists)
    decreases |s|
  {
    if s != [] {
      var init := s[..|s| - 1];
      CommonMembers(init, lists);
      assert s == init + [s[|s| - 1]];
    }
  }

  /** Filtering by one more list is filtering by all of them at once. */
  lemma {:induction false} CommonOneMore(s: seq<string>, lists: seq<seq<string>>, l: seq<string>)
    ensures Common(Common(s, lists), [l]) == Common(s, lists + [l])
    decreases |s|
  {
    if s != [] {
      var init := s[..|s| - 1];
      var last := s[|s| - 1];
      CommonOneMore(init, lists, l);
      var c := Common(init, lists);
      var tail := if InAll(last, lists) then [last] else [];
      assert Common(s, lists) == c + tail;
      assert InAll(last, lists + [l]) <==> InAll(last, lists) && last in l by {
        if InAll(last, lists) && last in l {
          forall k | 0 <= k < |lists + [l]| ensures last in (lists + [l])[k] {
            if k < |lists| { assert (lists + [l])[k] == lists[k]; }
          }
        }
        if InAll(last, lists + [l]) {
          assert (lists + [l])[|lists|] == l;
          forall k | 0 <= k < |lists| ensures last in lists[k] {
            assert (lists + [l])[k] == lists[k];
          }
        }
      }
      if tail == [] {
        assert c + tail == c;
      } else {
        assert (c + tail)[..|c + tail| - 1] == c;
        assert InAll(last, [l]) <==> last in l;
      }
    }
  }

  lemma CommonNone(s: seq<string>)
    ensures Common(s, []) == s
    decreases |s|
  {
    if s != [] {
      CommonNone(s[..|s| - 1]);
      assert s[..|s| - 1] + [s[|s| - 1]] == s;
    }
  }

  /** One step of the reference: the prefix one element longer. */
  lemma CommonSnoc(s: seq<string>, k: nat, l: seq<string>)
    requires k < |s|
    ensures Common(s[..k + 1], [l]) == Common(s[..k], [l]) + (if s[k] in l then [s[k]] else [])
  {
    assert s[..k + 1][..k] == s[..k];
    assert s[..k + 1][k] == s[k];
    assert [l][0] == l;
    assert InAll(s[k], [l]) <==> s[k] in l;
  }

  /** The body of the splice loop keeps its invariant: position `j` of the
      working list is element `k` of the original. */
  lemma SpliceStep(m0: seq<string>, k: nat, l: seq<string>, m: seq<string>)
    requires k < |m0| && m == Common(m0[..k], [l]) + m0[k..]
    ensures var j := |Common(m0[..k], [l])|;
            && j < |m| && m[j] == m0[k]
            && (m0[k] !in l ==> m[..j] + m[j + 1..] == Common(m0[..k + 1], [l]) + m0[k + 1..]
                                && j == |Common(m0[..k + 1], [l])|)
            && (m0[k] in l ==> m == Common(m0[..k + 1], [l]) + m0[k + 1..]
                               && j + 1 == |Common(m0[..k + 1], [l])|)
  {
    CommonSnoc(m0, k, l);
    SpliceAt(Common(m0[..k], [l]), m0, k, m);
  }

  /** Removing position `|c|` of `c + m0[k..]` drops exactly `m0[k]`. */
  lemma SpliceAt(c: seq<string>, m0: seq<string>, k: nat, m: seq<string>)
    requires k < |m0| && m == c + m0[k..]
    ensures |c| < |m| && m[|c|] == m0[k]
    ensures m[..|c|] + m[|c| + 1..] == c + m0[k + 1..]
    ensures m == (c + [m0[k]]) + m0[k + 1..]
  {
    assert m0[k..] == [m0[k]] + m0[k + 1..];
    assert m[..|c|] == c;
    assert m[|c| + 1..] == m0[k + 1..];
  }

  /** The inner loop of the intersection for one page's names `l`: `splice`
      out, in place, every name `l` lacks, stepping `j` back after each
      removal so that the name moved into position `j` is examined next. */
  method SpliceMissing(m0: seq<string>, l: seq<string>) returns (m: seq<string>)
    ensures m == Common(m0, [l])
  {
    m := m0;
    ghost var k := 0;
    var j: int := 0;
    while j < |m|
      invariant 0 <= k <= |m0| && 0 <= j <= |m|
      invariant j == |Common(m0[..k], [l])|
      invariant m == Common(m0[..k], [l]) + m0[k..]
      decreases |m| - j
    {
      SpliceStep(m0, k, l, m);
      if !(m[j] in l) {
        m := m[..j] + m[j + 1..];
        j := j - 1;
      }
      j := j + 1;
      k := k + 1;
    }
    assert m0[..k] == m0;
  }

  /** The loop at the end of `render`: the first page's names, cut down by
      every other page's names in turn. */
  method MinimumComponentsUsedEverywhere(first: seq<string>, others: seq<seq<string>>) returns (m: seq<string>)
    ensures m == Common(first, others)
    ensures forall x :: x in m <==> x in first && InAll(x, others)
  {
    m := first;
    CommonNone(first);
    assert others[..0] == [];
    var i := 0;
    while i < |others|
      invariant 0 <= i <= |others|
      invariant m == Common(first, others[..i])
    {
      m := SpliceMissing(m, others[i]);
      CommonOneMore(first, others[..i], others[i]);
      assert others[..i] + [others[i]] == others[..i + 1];
      i := i + 1;
    }
    assert others[..|others|] == others;
    CommonMembers(first, others);
  }

  datatype PageRender = PageRender(render: string, page: JsComponent, componentsUsed: seq<JsComponent>)

  datatype RenderResult = Rendered(pages: seq<PageRender>, everywhere: seq<JsComponent>) | RenderFailed(halt: Halt)

  /** The pages visited in order; the first failure ends `render`. */
  function VisitPages(r: Renderer, fuel: nat, pages: seq<JsComponent>): (v: Option<seq<PageRender>>)
    ensures v.None? <==> exists i :: 0 <= i < |pages| && RenderPage(r, fuel, pages[i]).Failed?
    ensures v.Some? ==> |v.value| == |pages| && forall i :: 0 <= i < |pages| ==>
              && v.value[i].page == pages[i]
              && v.value[i].componentsUsed == RenderPage(r, fuel, pages[i]).acc
              && v.value[i].render == Stringify(RenderPage(r, fuel, pages[i]).node)
    decreases |pages|
  {
    if pages == [] then Some([])
    else
      match RenderPage(r, fuel, pages[0])
      case Failed(_) => None
      case Visited(doc, used) =>
        assert forall i :: 1 <= i < |pages| ==> pages[1..][i - 1] == pages[i];
        match VisitPages(r, fuel, pages[1..])
        case None => None
        case Some(rest) => Some([PageRender(Stringify(doc), pages[0], used)] + rest)
  }

  /** The names the intersection starts from and cuts down with. */
  function FirstNames(vp: seq<PageRender>): seq<string>
    requires |vp| > 0
  {
    NamesOf(vp[0].componentsUsed)
  }

  function OtherNames(vp: seq<PageRender>): (r: seq<seq<string>>)
    requires |vp| > 0
    ensures |r| == |vp| - 1 && forall i :: 0 <= i < |r| ==> r[i] == NamesOf(vp[i + 1].componentsUsed)
  {
    seq(|vp| - 1, i requires 0 <= i < |vp| - 1 => NamesOf(vp[i + 1].componentsUsed))
  }

  /** `render`: every page rendered, then the names of the components used on
      every page, each looked up again in the store. The first page that fails
      ends the loop with its own halt. With no pages at all, reading the first
      page's list throws. */
  method Render(r: Renderer, fuel: nat, pages: seq<JsComponent>) returns (res: RenderResult)
    ensures res.Rendered? <==> pages != [] && forall i :: 0 <= i < |pages| ==> RenderPage(r, fuel, pages[i]).Visited?
    ensures pages == [] ==> res == RenderFailed(Thrown)
    ensures res.RenderFailed? && pages != [] ==>
              exists k :: 0 <= k < |pages| && RenderPage(r, fuel, pages[k]) == Failed(res.halt)
                          && forall j :: 0 <= j < k ==> RenderPage(r, fuel, pages[j]).Visited?
    ensures res.Rendered? ==> Some(res.pages) == VisitPages(r, fuel, pages)
    ensures res.Rendered? ==>
              var names := Common(FirstNames(res.pages), OtherNames(res.pages));
              && |res.everywhere| == |names|
              && forall i :: 0 <= i < |names| ==>
                   res.everywhere[i] in r.store && FindComponents(r.store, names[i]) == Some(res.everywhere[i])
  {
    var visited := VisitPages(r, fuel, pages);
    if visited.None? {
      var k := 0;
      while RenderPage(r, fuel, pages[k]).Visited?
        invariant 0 <= k < |pages|
        invariant exists i :: k <= i < |pages| && RenderPage(r, fuel, pages[i]).Failed?
        invariant forall j :: 0 <= j < k ==> RenderPage(r, fuel, pages[j]).Visited?
        decreases |pages| - k
      {
        k := k + 1;
      }
      return RenderFailed(RenderPage(r, fuel, pages[k]).halt);
    }
    var vp := visited.value;
    if |vp| == 0 {
      return RenderFailed(Thrown);
    }
    var names := MinimumComponentsUsedEverywhere(FirstNames(vp), OtherNames(vp));
    assert vp[0].componentsUsed == RenderPage(r, fuel, pages[0]).acc;
    var everywhere := LookUpAll(r.store, vp[0].componentsUsed, names);
    res := Rendered(vp, everywhere);
  }

  /** `minimumComponentsUsedEverywhere.map(x => componentStore.findComponent(x))`,
      for names taken from a list of stored components. */
  method LookUpAll(store: seq<JsComponent>, used: seq<JsComponent>, names: seq<string>)
      returns (everywhere: seq<JsComponent>)
    requires forall c :: c in used ==> c in store
    requires forall x :: x in names ==> x in NamesOf(used)
    ensures |everywhere| == |names|
    ensures forall k :: 0 <= k < |names| ==>
              everywhere[k] in store && FindComponents(store, names[k]) == Some(everywhere[k])
  {
    everywhere := [];
    var i := 0;
    while i < |names|
      invariant 0 <= i <= |names| && |everywhere| == i
      invariant forall k :: 0 <= k < i ==>
                  everywhere[k] in store && FindComponents(store, names[k]) == Some(everywhere[k])
    {
      var found := LookUpUsed(store, used, names[i]);
      everywhere := everywhere + [found];
      i := i + 1;
    }
  }

  /** `findComponent` on the name of a component taken from the store: it
      cannot throw. */
  method LookUpUsed(store: seq<JsComponent>, used: seq<JsComponent>, name: string)
      returns (c: JsComponent)
    requires forall c :: c in used ==> c in store
    requires name in NamesOf(used)
    ensures c in store && FindComponents(store, name) == Some(c)
  {
    var k :| 0 <= k < |used| && NamesOf(used)[k] == name;
    FoundUnderOwnName(store, used[k]);
    var found := FindComponent(store, name);
    c := found.value;
  }
}

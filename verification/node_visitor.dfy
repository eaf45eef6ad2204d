/** `NodeVisitor` of src/nodevisitor.js: a map over a pseudo-HTML tree in
    which a mutator sees every node first and may replace it outright.

    JavaScript compares the mutator's result with `!==`, that is by object
    identity; the model makes that explicit: the mutator answers `Same` when it
    hands back the very node it was given and `Replaced` otherwise. The mutator
    also threads an accumulator, which is how the renderer collects the
    components it meets. A `Halted` step is an exception thrown by the mutator
    (or a mutator run the model cut short) and ends the whole traversal. */
module NodeVisitor {
  import opened PseudoHtml

  datatype Halt = Thrown | OutOfFuel

  datatype Step<A> = Same(acc: A) | Replaced(node: PNode, acc: A) | Halted(halt: Halt)

  datatype Visit<A> = Visited(node: PNode, acc: A) | Failed(halt: Halt)

  datatype VisitAll<A> = VisitedAll(nodes: seq<PNode>, acc: A) | FailedAll(halt: Halt)

  /** `traverse`. Every node of the parser has a child array, so the source's
      `childNodes == null` shortcut is the case of an empty child list here,
      where the shallow copy equals the node itself. */
  function Traverse<O, A>(m: (PNode, O, A) -> Step<A>, n: PNode, o: O, a: A): (r: Visit<A>)
    ensures m(n, o, a).Halted? ==> r == Failed(m(n, o, a).halt)
    ensures m(n, o, a).Replaced? ==> r == Visited(m(n, o, a).node, m(n, o, a).acc)
    ensures m(n, o, a).Same? && r.Visited? ==>
              && r.node.nodeName == n.nodeName
              && r.node.nodeAttributes == n.nodeAttributes
              && r.node.nodeValue == n.nodeValue
              && |r.node.childNodes| == |n.childNodes|
    ensures m(n, o, a).Same? && n.childNodes == [] ==> r == Visited(n, m(n, o, a).acc)
    decreases n, 2
  {
    match m(n, o, a)
    case Same(a1) => TraverseInner(m, n, o, a1)
    case Replaced(n1, a1) => Visited(n1, a1)
    case Halted(h) => Failed(h)
  }

  /** `traverseInner`: the node with each child traversed in order under the
      same options, the accumulator threaded from one child to the next. */
  function TraverseInner<O, A>(m: (PNode, O, A) -> Step<A>, n: PNode, o: O, a: A): (r: Visit<A>)
    ensures r.Visited? ==> r.node == n.(childNodes := r.node.childNodes)
    ensures r.Visited? ==> |r.node.childNodes| == |n.childNodes|
    ensures r.Failed? <==> TraverseAll(m, n.childNodes, o, a).FailedAll?
    decreases n, 1
  {
    match TraverseAll(m, n.childNodes, o, a)
    case VisitedAll(kids, a1) => Visited(n.(childNodes := kids), a1)
    case FailedAll(h) => Failed(h)
  }

  /** The loop of `traverseInner`: one traversal per child, left to right,
      stopping at the first exception. */
  function TraverseAll<O, A>(m: (PNode, O, A) -> Step<A>, ns: seq<PNode>, o: O, a: A): (r: VisitAll<A>)
    ensures r.VisitedAll? ==> |r.nodes| == |ns|
    ensures ns == [] ==> r == VisitedAll([], a)
    decreases ns, 0
  {
    if ns == [] then VisitedAll([], a)
    else
      match Traverse(m, ns[0], o, a)
      case Failed(h) => FailedAll(h)
      case Visited(n1, a1) =>
        match TraverseAll(m, ns[1..], o, a1)
        case FailedAll(h) => FailedAll(h)
        case VisitedAll(rest, a2) => VisitedAll([n1] + rest, a2)
  }

  /** Carries on traversing `ys` after a traversal of some earlier siblings. */
  function ThenAll<O, A>(m: (PNode, O, A) -> Step<A>, first: VisitAll<A>, ys: seq<PNode>, o: O): VisitAll<A> {
    match first
    case FailedAll(h) => FailedAll(h)
    case VisitedAll(us, a1) =>
      match TraverseAll(m, ys, o, a1)
      case FailedAll(h) => FailedAll(h)
      case VisitedAll(vs, a2) => VisitedAll(us + vs, a2)
  }

  /** Traversing `xs + ys` is traversing `xs` and then `ys` from where `xs`
      left the accumulator: the children are visited strictly in order. */
  lemma {:induction false} TraverseAllAppend<O, A>(m: (PNode, O, A) -> Step<A>, xs: seq<PNode>, ys: seq<PNode>, o: O, a: A)
    ensures TraverseAll(m, xs + ys, o, a) == ThenAll(m, TraverseAll(m, xs, o, a), ys, o)
    decreases xs
  {
    if xs == [] {
      assert xs + ys == ys;
    } else {
      assert (xs + ys)[0] == xs[0];
      assert (xs + ys)[1..] == xs[1..] + ys;
      match Traverse(m, xs[0], o, a)
      case Failed(h) =>
      case Visited(n1, a1) =>
        TraverseAllAppend(m, xs[1..], ys, o, a1);
        match TraverseAll(m, xs[1..], o, a1)
        case FailedAll(h) =>
        case VisitedAll(us, a2) =>
          match TraverseAll(m, ys, o, a2)
          case FailedAll(h) =>
          case VisitedAll(vs, a3) =>
            assert [n1] + (us + vs) == ([n1] + us) + vs;
    }
  }

  /** A mutator that hands every node back untouched makes the traversal an
      identity on the tree. */
  lemma {:induction false} IdentityTraversal<O, A>(m: (PNode, O, A) -> Step<A>, n: PNode, o: O, a: A)
    requires forall x, a1 :: m(x, o, a1) == Same(a1)
    ensures Traverse(m, n, o, a) == Visited(n, a)
    decreases n, 1
  {
    IdentityTraversalAll(m, n.childNodes, o, a);
    assert n.(childNodes := n.childNodes) == n;
  }

  lemma {:induction false} IdentityTraversalAll<O, A>(m: (PNode, O, A) -> Step<A>, ns: seq<PNode>, o: O, a: A)
    requires forall x, a1 :: m(x, o, a1) == Same(a1)
    ensures TraverseAll(m, ns, o, a) == VisitedAll(ns, a)
    decreases ns, 0
  {
    if ns != [] {
      IdentityTraversal(m, ns[0], o, a);
      IdentityTraversalAll(m, ns[1..], o, a);
      assert [ns[0]] + ns[1..] == ns;
    }
  }

  /** A property of the accumulator that every mutator step keeps is kept by
      the whole traversal. */
  lemma {:induction false} TraverseKeeps<O, A>(m: (PNode, O, A) -> Step<A>, inv: A -> bool, n: PNode, o: O, a: A)
    requires forall x, a1 :: inv(a1) && !m(x, o, a1).Halted? ==> inv(m(x, o, a1).acc)
    requires inv(a)
    ensures Traverse(m, n, o, a).Visited? ==> inv(Traverse(m, n, o, a).acc)
    decreases n, 1
  {
    if m(n, o, a).Same? {
      TraverseAllKeeps(m, inv, n.childNodes, o, m(n, o, a).acc);
    }
  }

  lemma {:induction false} TraverseAllKeeps<O, A>(m: (PNode, O, A) -> Step<A>, inv: A -> bool, ns: seq<PNode>, o: O, a: A)
    requires forall x, a1 :: inv(a1) && !m(x, o, a1).Halted? ==> inv(m(x, o, a1).acc)
    requires inv(a)
    ensures TraverseAll(m, ns, o, a).VisitedAll? ==> inv(TraverseAll(m, ns, o, a).acc)
    decreases ns, 0
  {
    if ns != [] {
      TraverseKeeps(m, inv, ns[0], o, a);
      match Traverse(m, ns[0], o, a)
      case Failed(_) =>
      case Visited(_, a1) => TraverseAllKeeps(m, inv, ns[1..], o, a1);
    }
  }
}

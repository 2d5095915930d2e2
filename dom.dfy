/**
  The parsed HTML the bot searches: a forest of elements and text nodes, as
  `html_parser` hands it over (`Dom::children`). Attribute values are optional
  because a bare attribute (`<input name=fkey value>`) has no value.

  Every search in the bot walks the forest in pre-order and, at an element
  that its own test picks out, stops descending. `Frontier` lists those
  elements in visiting order and `Elements` lists every element; both are the
  reference definitions the individual searches are proved against.
*/
module Dom {
  import opened Results

  datatype Node =
    | Element(name: string, attrs: map<string, Option<string>>, children: seq<Node>)
    | Text(text: string)

  /** The value of attribute `key` when it is present and has a value. */
  function AttrValue(node: Node, key: string): Option<string>
    requires node.Element?
  {
    if key in node.attrs then node.attrs[key] else None
  }

  /**
    The elements a pre-order walk of `nodes` reaches that satisfy `stop`,
    without descending into an element that satisfies `stop`.
  */
  function Frontier(nodes: seq<Node>, stop: Node -> bool): seq<Node>
    decreases nodes
  {
    if nodes == [] then [] else FrontierOf(nodes[0], stop) + Frontier(nodes[1..], stop)
  }

  function FrontierOf(node: Node, stop: Node -> bool): seq<Node>
    decreases node
  {
    match node
    case Text(_) => []
    case Element(_, _, children) => if stop(node) then [node] else Frontier(children, stop)
  }

  /** Every element of `nodes`, in pre-order. */
  function Elements(nodes: seq<Node>): seq<Node>
    decreases nodes
  {
    if nodes == [] then [] else ElementsOf(nodes[0]) + Elements(nodes[1..])
  }

  function ElementsOf(node: Node): seq<Node>
    decreases node
  {
    match node
    case Text(_) => []
    case Element(_, _, children) => [node] + Elements(children)
  }

  /** The first `Some` among the hits of `xs`, in order. */
  function FirstHit<T>(xs: seq<Node>, hit: Node -> Option<T>): (r: Option<T>)
    ensures r.Some? ==> exists k :: 0 <= k < |xs| && hit(xs[k]) == r && forall j :: 0 <= j < k ==> hit(xs[j]).None?
    ensures r.None? <==> forall k :: 0 <= k < |xs| ==> hit(xs[k]).None?
  {
    if xs == [] then None
    else if hit(xs[0]).Some? then hit(xs[0])
    else
      var r := FirstHit(xs[1..], hit);
      assert forall k :: 1 <= k < |xs| ==> xs[k] == xs[1..][k - 1];
      r
  }

  /**
    The shape every `search_node` in the bot shares: at an element that
    satisfies `stop`, answer `hit` of it; otherwise search its children in
    order and return the first answer. Text nodes answer nothing.
  */
  function SearchNode<T>(node: Node, stop: Node -> bool, hit: Node -> Option<T>): Option<T>
    decreases node
  {
    match node
    case Text(_) => None
    case Element(_, _, children) => if stop(node) then hit(node) else SearchNodes(children, stop, hit)
  }

  /** `SearchNode` over a forest: the first tree that answers. */
  function SearchNodes<T>(nodes: seq<Node>, stop: Node -> bool, hit: Node -> Option<T>): Option<T>
    decreases nodes
  {
    if nodes == [] then None
    else
      match SearchNode(nodes[0], stop, hit)
      case Some(r) => Some(r)
      case None => SearchNodes(nodes[1..], stop, hit)
  }

  /** The forest's answer is the answer of its first tree that answers, and none when no tree does. */
  lemma {:induction false} SearchNodesFirstTree<T>(nodes: seq<Node>, stop: Node -> bool, hit: Node -> Option<T>)
    ensures var r := SearchNodes(nodes, stop, hit);
      && (r.None? <==> forall k :: 0 <= k < |nodes| ==> SearchNode(nodes[k], stop, hit).None?)
      && (r.Some? ==> exists k :: (0 <= k < |nodes| && SearchNode(nodes[k], stop, hit) == r
            && forall j :: 0 <= j < k ==> SearchNode(nodes[j], stop, hit).None?))
    decreases nodes
  {
    if nodes != [] && SearchNode(nodes[0], stop, hit).None? {
      SearchNodesFirstTree(nodes[1..], stop, hit);
      assert forall k :: 1 <= k < |nodes| ==> nodes[k] == nodes[1..][k - 1];
      var r := SearchNodes(nodes, stop, hit);
      if r.Some? {
        var k :| 0 <= k < |nodes[1..]| && SearchNode(nodes[1..][k], stop, hit) == r
          && forall j :: 0 <= j < k ==> SearchNode(nodes[1..][j], stop, hit).None?;
        assert SearchNode(nodes[k + 1], stop, hit) == r;
      }
    }
  }

  /** The recursive search answers with the first hit along the frontier of `stop` elements. */
  lemma {:induction false} SearchIsFirstHit<T>(nodes: seq<Node>, stop: Node -> bool, hit: Node -> Option<T>)
    ensures SearchNodes(nodes, stop, hit) == FirstHit(Frontier(nodes, stop), hit)
    decreases nodes
  {
    if nodes != [] {
      SearchNodeIsFirstHit(nodes[0], stop, hit);
      SearchIsFirstHit(nodes[1..], stop, hit);
      FirstHitAppend(FrontierOf(nodes[0], stop), Frontier(nodes[1..], stop), hit);
    }
  }

  lemma {:induction false} SearchNodeIsFirstHit<T>(node: Node, stop: Node -> bool, hit: Node -> Option<T>)
    ensures SearchNode(node, stop, hit) == FirstHit(FrontierOf(node, stop), hit)
    decreases node
  {
    match node
    case Text(_) =>
    case Element(_, _, children) =>
      if stop(node) {
        assert [node][1..] == [];
      } else {
        SearchIsFirstHit(children, stop, hit);
      }
  }

  lemma {:induction false} FirstHitAppend<T>(xs: seq<Node>, ys: seq<Node>, hit: Node -> Option<T>)
    ensures FirstHit(xs + ys, hit) == if FirstHit(xs, hit).Some? then FirstHit(xs, hit) else FirstHit(ys, hit)
  {
    if xs != [] {
      assert (xs + ys)[1..] == xs[1..] + ys;
      FirstHitAppend(xs[1..], ys, hit);
    } else {
      assert xs + ys == ys;
    }
  }

  /** Every frontier element satisfies `stop`, and a walk that finds none found no element satisfying it. */
  lemma {:induction false} FrontierEmptyIff(nodes: seq<Node>, stop: Node -> bool)
    ensures (forall k :: 0 <= k < |Frontier(nodes, stop)| ==> stop(Frontier(nodes, stop)[k]))
    ensures |Frontier(nodes, stop)| == 0 <==> forall e :: e in Elements(nodes) ==> !stop(e)
    decreases nodes
  {
    if nodes != [] {
      FrontierOfEmptyIff(nodes[0], stop);
      FrontierEmptyIff(nodes[1..], stop);
      var f0, f1 := FrontierOf(nodes[0], stop), Frontier(nodes[1..], stop);
      assert Frontier(nodes, stop) == f0 + f1;
      assert forall k :: |f0| <= k < |f0| + |f1| ==> (f0 + f1)[k] == f1[k - |f0|];
    }
  }

  lemma {:induction false} FrontierOfEmptyIff(node: Node, stop: Node -> bool)
    ensures (forall k :: 0 <= k < |FrontierOf(node, stop)| ==> stop(FrontierOf(node, stop)[k]))
    ensures |FrontierOf(node, stop)| == 0 <==> forall e :: e in ElementsOf(node) ==> !stop(e)
    decreases node
  {
    match node
    case Text(_) =>
    case Element(_, _, children) =>
      if !stop(node) {
        FrontierEmptyIff(children, stop);
      }
  }

  lemma {:induction false} FrontierAppend(xs: seq<Node>, ys: seq<Node>, stop: Node -> bool)
    ensures Frontier(xs + ys, stop) == Frontier(xs, stop) + Frontier(ys, stop)
    decreases |xs|
  {
    if xs == [] {
      assert xs + ys == ys;
    } else {
      assert (xs + ys)[1..] == xs[1..] + ys;
      FrontierAppend(xs[1..], ys, stop);
    }
  }
}

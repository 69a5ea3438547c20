/** `pathThroughNonAgents`: breadth-first search that may only pass through non-agent nodes. */
module EdgeRealisation {
  import opened Reachability
  import opened DiagramLines

  /** One hop of the diagram: along an edge, or back along a `<-->`. */
  ghost predicate Hop(edges: seq<EdgeRecord>, a: NodeId, b: NodeId) {
    exists e :: e in edges && ((e.from == a && e.to == b) || (e.arrow.Both? && e.to == a && e.from == b))
  }

  /** A real agent node: a stadium that does not carry a primitive's label. */
  predicate Blocks(nodes: map<NodeId, NodeRecord>, primitives: set<NodeId>, x: NodeId) {
    x in nodes && nodes[x].shape.Stadium? && x !in primitives
  }

  /** A path along hops whose interior nodes are all non-agents. */
  ghost predicate IsRoute(edges: seq<EdgeRecord>, nodes: map<NodeId, NodeRecord>, primitives: set<NodeId>,
        p: seq<NodeId>)
  {
    && |p| > 0
    && (forall i :: 0 < i < |p| ==> Hop(edges, p[i - 1], p[i]))
    && (forall i :: 0 < i < |p| - 1 ==> !Blocks(nodes, primitives, p[i]))
  }

  ghost predicate Routed(edges: seq<EdgeRecord>, nodes: map<NodeId, NodeRecord>, primitives: set<NodeId>,
                         start: NodeId, targets: set<NodeId>) {
    exists p :: IsRoute(edges, nodes, primitives, p) && p[0] == start && p[|p| - 1] in targets
  }

  // ----- the adjacency lists -----

  function Neighbours(adj: map<NodeId, seq<NodeId>>, x: NodeId): seq<NodeId> {
    if x in adj then adj[x] else []
  }

  ghost predicate Lists(edges: seq<EdgeRecord>, adj: map<NodeId, seq<NodeId>>) {
    forall a, b :: b in Neighbours(adj, a) <==> Hop(edges, a, b)
  }

  lemma HopNext(edges: seq<EdgeRecord>, e: EdgeRecord)
    ensures forall a, b :: Hop(edges + [e], a, b) <==>
                           Hop(edges, a, b) || (e.from == a && e.to == b) || (e.arrow.Both? && e.to == a && e.from == b)
  {
    assert e in edges + [e];
    forall a, b | Hop(edges, a, b)
      ensures Hop(edges + [e], a, b)
    {
      var d :| d in edges && ((d.from == a && d.to == b) || (d.arrow.Both? && d.to == a && d.from == b));
      assert d in edges + [e];
    }
  }

  function AddEdge(adj: map<NodeId, seq<NodeId>>, from: NodeId, to: NodeId): (r: map<NodeId, seq<NodeId>>)
    ensures forall a, b :: b in Neighbours(r, a) <==> b in Neighbours(adj, a) || (a == from && b == to)
  {
    adj[from := Neighbours(adj, from) + [to]]
  }

  method BuildAdjacency(edges: seq<EdgeRecord>) returns (adj: map<NodeId, seq<NodeId>>)
    ensures Lists(edges, adj)
  {
    hide Hop;
    adj := map[];
    NoHops();
    for i := 0 to |edges|
      invariant Lists(edges[..i], adj)
    {
      var e := edges[i];
      HopNext(edges[..i], e);
      assert edges[..i + 1] == edges[..i] + [e];
      adj := AddEdge(adj, e.from, e.to);
      if e.arrow == Both {
        adj := AddEdge(adj, e.to, e.from);
      }
    }
    assert edges[..|edges|] == edges;
  }

  lemma NoHops()
    ensures forall a, b :: !Hop([], a, b)
  {
  }

  // ----- the search -----

  /** `x` is reached from `start` with nothing but non-agents after `start`. */
  ghost predicate Open(edges: seq<EdgeRecord>, nodes: map<NodeId, NodeRecord>, primitives: set<NodeId>,
        start: NodeId, x: NodeId)
  {
    exists p :: IsRoute(edges, nodes, primitives, p) && p[0] == start && p[|p| - 1] == x &&
                (x == start || !Blocks(nodes, primitives, x))
  }

  lemma OpenStart(edges: seq<EdgeRecord>, nodes: map<NodeId, NodeRecord>, primitives: set<NodeId>, start: NodeId)
    ensures Open(edges, nodes, primitives, start, start)
  {
    assert IsRoute(edges, nodes, primitives, [start]);
  }

  lemma RouteMore(edges: seq<EdgeRecord>, nodes: map<NodeId, NodeRecord>, primitives: set<NodeId>, p: seq<NodeId>,
        y: NodeId)
    requires IsRoute(edges, nodes, primitives, p) && Hop(edges, p[|p| - 1], y)
    requires |p| > 1 ==> !Blocks(nodes, primitives, p[|p| - 1])
    ensures IsRoute(edges, nodes, primitives, p + [y])
  {
    hide Hop, Blocks;
    var q := p + [y];
    forall i | 0 < i < |q|
      ensures Hop(edges, q[i - 1], q[i])
    {
      assert q[i - 1] == p[i - 1];
      assert i < |p| ==> q[i] == p[i];
    }
    forall i | 0 < i < |q| - 1
      ensures !Blocks(nodes, primitives, q[i])
    {
      assert q[i] == p[i];
    }
  }

  lemma OpenHop(edges: seq<EdgeRecord>, nodes: map<NodeId, NodeRecord>, primitives: set<NodeId>,
                start: NodeId, x: NodeId, y: NodeId)
    requires Open(edges, nodes, primitives, start, x) && Hop(edges, x, y)
    ensures Routed(edges, nodes, primitives, start, {y})
    ensures !Blocks(nodes, primitives, y) ==> Open(edges, nodes, primitives, start, y)
  {
    var p :| IsRoute(edges, nodes, primitives, p) && p[0] == start && p[|p| - 1] == x &&
             (x == start || !Blocks(nodes, primitives, x));
    var from := if x == start then [start] else p;
    assert IsRoute(edges, nodes, primitives, from);
    hide Blocks, Hop, IsRoute;
    RouteMore(edges, nodes, primitives, from, y);
    var q := from + [y];
    assert q[0] == start && q[|q| - 1] == y;
  }

  /** Every processed node's neighbours have been dealt with. */
  ghost predicate Settled(edges: seq<EdgeRecord>, nodes: map<NodeId, NodeRecord>, primitives: set<NodeId>,
                          targets: set<NodeId>, visited: set<NodeId>, x: NodeId) {
    forall y :: Hop(edges, x, y) ==> y !in targets && (Blocks(nodes, primitives, y) || y in visited)
  }

  /** With every visited node processed, no route leaves for a target. */
  lemma NoRoute(edges: seq<EdgeRecord>, nodes: map<NodeId, NodeRecord>, primitives: set<NodeId>,
                start: NodeId, targets: set<NodeId>, visited: set<NodeId>)
    requires start in visited && start !in targets
    requires forall x :: x in visited ==> Settled(edges, nodes, primitives, targets, visited, x)
    ensures !Routed(edges, nodes, primitives, start, targets)
  {
    hide Hop, Blocks;
    if Routed(edges, nodes, primitives, start, targets) {
      var p :| IsRoute(edges, nodes, primitives, p) && p[0] == start && p[|p| - 1] in targets;
      var i := 0;
      while i < |p| - 1
        invariant 0 <= i < |p| && p[i] !in targets && (i < |p| - 1 ==> p[i] in visited)
      {
        assert Hop(edges, p[i], p[i + 1]);
        assert i + 1 < |p| - 1 ==> !Blocks(nodes, primitives, p[i + 1]);
        i := i + 1;
      }
    }
  }

  lemma NeighbourHops(edges: seq<EdgeRecord>, adj: map<NodeId, seq<NodeId>>, cur: NodeId, to: NodeId)
    requires Lists(edges, adj)
    ensures to in Neighbours(adj, cur) <==> Hop(edges, cur, to)
  {
    hide Hop;
  }

  lemma SettledMore(edges: seq<EdgeRecord>, nodes: map<NodeId, NodeRecord>, primitives: set<NodeId>,
        targets: set<NodeId>,
        visited: set<NodeId>, more: set<NodeId>)
    requires visited <= more
    ensures forall x :: Settled(edges, nodes, primitives, targets, visited, x) ==>
      Settled(edges, nodes, primitives, targets, more, x)
  {
    hide Hop, Blocks;
  }

  lemma JustSettled(edges: seq<EdgeRecord>, adj: map<NodeId, seq<NodeId>>, nodes: map<NodeId, NodeRecord>,
        primitives: set<NodeId>, targets: set<NodeId>, visited: set<NodeId>, cur: NodeId)
    requires Lists(edges, adj)
    requires forall y :: y in Neighbours(adj, cur) ==> y !in targets && (Blocks(nodes, primitives, y) || y in visited)
    ensures Settled(edges, nodes, primitives, targets, visited, cur)
  {
    hide Hop, Blocks;
  }

  method PathThroughNonAgents(edges: seq<EdgeRecord>, adj: map<NodeId, seq<NodeId>>, nodes: map<NodeId, NodeRecord>,
                              primitives: set<NodeId>, start: NodeId, targets: set<NodeId>)
    returns (reached: bool)
    requires Lists(edges, adj)
    ensures reached <==> Routed(edges, nodes, primitives, start, targets)
  {
    hide Hop, Blocks, Open, IsRoute, Settled, Routed, Lists, Neighbours;
    OpenStart(edges, nodes, primitives, start);
    if start in targets {
      StartIsTarget(edges, nodes, primitives, start, targets);
      return true;
    }
    var visited := {start};
    var queue := [start];
    ghost var universe := {start} + (set e | e in edges :: e.to) + (set e | e in edges :: e.from);
    while queue != []
      invariant start in visited && visited <= universe
      invariant forall x :: x in queue ==> x in visited
      invariant forall x :: x in visited ==> Open(edges, nodes, primitives, start, x)
      invariant forall x :: x in visited && x !in queue ==> Settled(edges, nodes, primitives, targets, visited, x)
      decreases universe - visited, |queue|
    {
      var cur := queue[0];
      queue := queue[1..];
      ghost var before, rest := visited, queue;
      var tos := Neighbours(adj, cur);
      for i := 0 to |tos|
        invariant before <= visited <= universe
        invariant before < visited || queue == rest
        invariant forall x :: x in queue ==> x in visited
        invariant forall x :: x in visited ==> Open(edges, nodes, primitives, start, x)
        invariant forall x :: x in visited && x !in queue && x != cur ==>
          Settled(edges, nodes, primitives, targets, visited, x)
        invariant forall y :: y in tos[..i] ==> y !in targets && (Blocks(nodes, primitives, y) || y in visited)
      {
        var to := tos[i];
        assert to in tos;
        NeighbourHops(edges, adj, cur, to);
        OpenHop(edges, nodes, primitives, start, cur, to);
        if to in targets {
          RoutedMore(edges, nodes, primitives, start, to, targets);
          return true;
        }
        if !Blocks(nodes, primitives, to) && to !in visited {
          HopInUniverse(edges, cur, to);
          SettledMore(edges, nodes, primitives, targets, visited, visited + {to});
          visited := visited + {to};
          queue := queue + [to];
        }
        assert tos[..i + 1] == tos[..i] + [to];
      }
      assert tos[..|tos|] == tos;
      JustSettled(edges, adj, nodes, primitives, targets, visited, cur);
    }
    NoRoute(edges, nodes, primitives, start, targets, visited);
    return false;
  }

  lemma StartIsTarget(edges: seq<EdgeRecord>, nodes: map<NodeId, NodeRecord>, primitives: set<NodeId>,
                      start: NodeId, targets: set<NodeId>)
    requires start in targets
    ensures Routed(edges, nodes, primitives, start, targets)
  {
    assert IsRoute(edges, nodes, primitives, [start]);
  }

  lemma RoutedMore(edges: seq<EdgeRecord>, nodes: map<NodeId, NodeRecord>, primitives: set<NodeId>,
                   start: NodeId, to: NodeId, targets: set<NodeId>)
    requires Routed(edges, nodes, primitives, start, {to}) && to in targets
    ensures Routed(edges, nodes, primitives, start, targets)
  {
  }

  lemma HopInUniverse(edges: seq<EdgeRecord>, a: NodeId, b: NodeId)
    requires Hop(edges, a, b)
    ensures b in (set e | e in edges :: e.to) + (set e | e in edges :: e.from)
  {
  }
}

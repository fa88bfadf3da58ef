/** The directed traffic network and its shortest-path query. */
module TrafficNetworks {
  import opened Numbers
  import opened RoadGraph
  import opened Wrappers

  datatype Intersection = Intersection(id: string, lat: real, lon: real)

  datatype Outcome = Found(path: seq<string>, total: real) | NoSuchNode(name: string) | NoPath

  lemma LeastEntry(pq: Heap) returns (e: (real, string))
    requires pq != multiset{}
    ensures e in pq && forall x :: x in pq ==> e.0 <= x.0
    decreases |pq|
  {
    e :| e in pq;
    var rest := pq - multiset{e};
    if rest != multiset{} {
      var f := LeastEntry(rest);
      if f.0 < e.0 {
        e := f;
      }
    }
  }

  /** heappop: removes some least entry; which one among equals is not promised. */
  method PopLeast(pq: Heap) returns (d: real, u: string, rest: Heap)
    requires pq != multiset{}
    ensures (d, u) in pq && forall e :: e in pq ==> d <= e.0
    ensures rest == pq - multiset{(d, u)} && |rest| < |pq|
  {
    ghost var least := LeastEntry(pq);
    var top :| top in pq && forall e :: e in pq ==> top.0 <= e.0;
    d, u := top.0, top.1;
    rest := pq - multiset{top};
  }

  /** When the heap is empty, or its least entry is the target's, the target's distance is exact. */
  lemma SearchDone(g: Graph, s: string, dist: map<string, Extended>, prev: map<string, Option<string>>,
                   route: map<string, seq<RoadEdge>>, settled: set<string>, pq: Heap, bound: Extended, target: string)
    requires Routed(g, s, dist, prev, route, settled) && Covered(g, dist, settled, pq) && AllTried(g, dist, settled)
    requires target in g && target in dist && LowerBound(pq, bound) && (bound.Fin? ==> bound == dist[target])
    ensures forall p :: IsPath(g, p, s, target) ==> !Less(PathTime(p), dist[target])
  {
    hide Routed, Covered, AllTried, WellFormed, NonNegative, IsPath, PathTime;
    RoutedShape(g, s, dist, prev, route, settled);
    HeapBounds(g, dist, settled, pq, bound);
    forall p | IsPath(g, p, s, target)
      ensures !Less(PathTime(p), dist[target])
    {
      NoShorterPath(g, s, dist, settled, bound, p, target);
    }
  }

  /** A current least entry settles its node: what the relaxation of its roads starts from. */
  lemma Settles(g: Graph, s: string, dist: map<string, Extended>, prev: map<string, Option<string>>,
                route: map<string, seq<RoadEdge>>, settled: set<string>, pq: Heap, d: real, u: string)
    requires Routed(g, s, dist, prev, route, settled) && Covered(g, dist, settled, pq) && AllTried(g, dist, settled)
    requires (d, u) in pq && (forall e :: e in pq ==> d <= e.0) && u in g && u in dist && dist[u] == Fin(d)
    ensures u !in settled && Routed(g, s, dist, prev, route, settled + {u})
    ensures Covered(g, dist, settled + {u}, pq - multiset{(d, u)}) && Nearest(g, dist, settled + {u}, d)
    ensures Tried(g, dist, settled + {u}, u, 0)
  {
    hide Routed, Covered, AllTried, Tried, Nearest;
    SettledCovered(g, dist, settled, pq, d, u);
    SettledRouted(g, s, dist, prev, route, settled, u);
    TriedBefore(g, dist, settled, u);
  }

  /** The roads of p lead along the named nodes, from s to x. */
  ghost predicate Spells(g: Graph, names: seq<string>, s: string, x: string, p: seq<RoadEdge>) {
    && |names| == |p| + 1 && names[0] == s && names[|p|] == x
    && forall k :: 0 <= k < |p| ==> HasEdge(g, p[k]) && p[k].source == names[k] && p[k].target == names[k + 1]
  }

  class TrafficNetwork {
    var nodes: map<string, Intersection>
    var edges: Graph

    ghost predicate Valid()
      reads this
    {
      edges.Keys == nodes.Keys && WellFormed(edges)
    }

    constructor ()
      ensures Valid() && nodes == map[] && edges == map[]
    {
      nodes, edges := map[], map[];
    }

    /** Re-adding a node replaces its data and keeps its roads. */
    method AddIntersection(id: string, lat: real, lon: real)
      requires Valid()
      modifies this
      ensures Valid() && nodes == old(nodes)[id := Intersection(id, lat, lon)]
      ensures edges == if id in old(edges) then old(edges) else old(edges)[id := []]
    {
      nodes := nodes[id := Intersection(id, lat, lon)];
      if id !in edges {
        edges := edges[id := []];
      }
    }

    /** Appends a road; unknown ends are refused. */
    method AddRoad(e: RoadEdge) returns (missing: Option<string>)
      requires Valid()
      modifies this`edges
      ensures Valid()
      ensures missing ==
        if e.source !in nodes then Some(e.source) else if e.target !in nodes then Some(e.target) else None
      ensures edges == if missing.None? then old(edges)[e.source := old(edges)[e.source] + [e]] else old(edges)
    {
      if e.source !in nodes {
        return Some(e.source);
      }
      if e.target !in nodes {
        return Some(e.target);
      }
      edges := edges[e.source := edges[e.source] + [e]];
      return None;
    }

    /** Dijkstra with lazy deletion and early exit. */
    method ShortestPath(source: string, target: string) returns (r: Outcome)
      requires Valid() && NonNegative(edges)
      ensures r.NoSuchNode? <==> source !in nodes || target !in nodes
      ensures r.NoSuchNode? ==> r.name == if source !in nodes then source else target
      ensures r.NoPath? ==> forall p :: IsPath(edges, p, source, target) ==> PathTime(p) == Inf
      ensures r.Found? ==>
        && (exists p :: IsPath(edges, p, source, target) && PathTime(p) == Fin(r.total) && Nodes(source, p) == r.path)
        && (exists p :: Spells(edges, r.path, source, target, p) && PathTime(p) == Fin(r.total))
        && (forall p :: IsPath(edges, p, source, target) ==> !Less(PathTime(p), Fin(r.total)))
        && (forall i, j :: 0 <= i < j < |r.path| ==> r.path[i] != r.path[j])
    {
      if source !in nodes {
        return NoSuchNode(source);
      }
      if target !in nodes {
        return NoSuchNode(target);
      }
      var dist, prev;
      ghost var route, settled;
      dist, prev, route, settled := Search(source, target);
      if dist[target] == Inf {
        return NoPath;
      }
      var path := Reconstruct(source, target, dist, prev, route, settled);
      RouteIsPath(edges, source, dist, prev, route, settled, target);
      RouteIsSimple(edges, source, dist, prev, route, settled, target);
      NodesOfPath(edges, route[target], source, target);
      assert Spells(edges, path, source, target, route[target]);
      return Found(path, dist[target].r);
    }

    /** The main loop: on return the target's distance is exact. */
    method Search(source: string, target: string)
      returns (dist: map<string, Extended>, prev: map<string, Option<string>>,
               ghost route: map<string, seq<RoadEdge>>, ghost settled: set<string>)
      requires Valid() && NonNegative(edges) && source in nodes && target in nodes
      ensures Routed(edges, source, dist, prev, route, settled)
      ensures forall p :: IsPath(edges, p, source, target) ==> !Less(PathTime(p), dist[target])
    {
      hide Routed, Covered, AllTried, WellFormed, NonNegative, Relaxed, Nearest, IsPath, PathTime, Less, Plus;
      dist := map n | n in nodes :: if n == source then Fin(0.0) else Inf;
      prev := map n | n in nodes :: None;
      route := map n | n in nodes :: [];
      settled := {};
      var pq: Heap := multiset{(0.0, source)};
      Started(edges, source, dist, prev, route);
      ghost var bound := Inf;
      while pq != multiset{}
        invariant Routed(edges, source, dist, prev, route, settled)
        invariant Covered(edges, dist, settled, pq)
        invariant AllTried(edges, dist, settled)
        invariant bound == Inf
        decreases edges.Keys - settled, |pq|
      {
        RoutedShape(edges, source, dist, prev, route, settled);
        var d, u, rest := PopLeast(pq);
        EntryFacts(edges, dist, settled, pq, d, u);
        if d > dist[u].r {
          StaleDropped(edges, dist, settled, pq, d, u);
          pq := rest;
          continue;
        }
        if u == target {
          bound := dist[u];
          break;
        }
        Settles(edges, source, dist, prev, route, settled, pq, d, u);
        pq := rest;
        settled := settled + {u};
        dist, prev, pq, route := RelaxAll(source, u, dist, prev, pq, route, settled);
      }
      RoutedShape(edges, source, dist, prev, route, settled);
      SearchDone(edges, source, dist, prev, route, settled, pq, bound, target);
    }

    /** Tries every road out of the node just settled. */
    method RelaxAll(source: string, u: string, dist0: map<string, Extended>, prev0: map<string, Option<string>>,
                    pq0: Heap,
                    ghost route0: map<string, seq<RoadEdge>>, ghost settled: set<string>)
      returns (dist: map<string, Extended>, prev: map<string, Option<string>>, pq: Heap,
               ghost route: map<string, seq<RoadEdge>>)
      requires Routed(edges, source, dist0, prev0, route0, settled) && Covered(edges, dist0, settled, pq0)
      requires Tried(edges, dist0, settled, u, 0) && u in settled && u in edges
      requires u in dist0 && dist0[u].Fin? && Nearest(edges, dist0, settled, dist0[u].r)
      ensures Routed(edges, source, dist, prev, route, settled) && Covered(edges, dist, settled, pq)
      ensures AllTried(edges, dist, settled)
    {
      hide Routed, Covered, Tried, AllTried, Relaxed, Nearest;
      RoutedShape(edges, source, dist0, prev0, route0, settled);
      dist, prev, pq, route := dist0, prev0, pq0, route0;
      for i := 0 to |edges[u]|
        invariant Routed(edges, source, dist, prev, route, settled) && Covered(edges, dist, settled, pq)
        invariant Tried(edges, dist, settled, u, i)
        invariant u in dist && dist[u].Fin? && Nearest(edges, dist, settled, dist[u].r)
      {
        var edge := edges[u][i];
        RoutedShape(edges, source, dist, prev, route, settled);
        var alt := Plus(dist[u], TravelTime(edge));
        if Less(alt, dist[edge.target]) {
          ImprovedIsUnsettled(edges, source, dist, prev, route, settled, edge);
          ImprovedRouted(edges, source, dist, prev, route, settled, edge, alt);
          ImprovedCovered(edges, dist, settled, pq, edge.target, alt);
          ImprovedNearest(edges, dist, settled, edge.target, alt, dist[u].r);
          ImprovedTried(edges, dist, settled, u, i, alt);
          route := route[edge.target := route[u] + [edge]];
          dist := dist[edge.target := alt];
          prev := prev[edge.target := Some(u)];
          pq := pq + multiset{(alt.r, edge.target)};
        } else {
          NotImprovedTried(edges, dist, settled, u, i);
        }
      }
      TriedAfter(edges, dist, settled, u);
    }

    /** Follows the predecessors back from the target and reverses the result. */
    method Reconstruct(source: string, target: string, dist: map<string, Extended>, prev: map<string, Option<string>>,
                       ghost route: map<string, seq<RoadEdge>>, ghost settled: set<string>)
      returns (path: seq<string>)
      requires Routed(edges, source, dist, prev, route, settled) && target in edges && dist[target].Fin?
      ensures path == Nodes(source, route[target])
    {
      hide Routed, Stepped, Nodes, WellFormed, NonNegative, Reversed;
      assert Reversed<string>([]) == [] by { ReversedNone<string>(); }
      RoutedShape(edges, source, dist, prev, route, settled);
      var backwards: seq<string> := [];
      var node := Some(target);
      while node != None
        invariant node.Some? ==> node.value in edges && node.value in route && dist[node.value].Fin?
        invariant Nodes(source, route[target]) ==
          (if node.Some? then Nodes(source, route[node.value]) else []) + Reversed(backwards)
        decreases node.Some?, if node.Some? then |route[node.value]| else 0
      {
        var x := node.value;
        PredecessorOf(edges, source, dist, prev, route, settled, x);
        ReversedSnoc(backwards, x);
        ghost var front := if prev[x].Some? then Nodes(source, route[prev[x].value]) else [];
        assert (front + [x]) + Reversed(backwards) == front + ([x] + Reversed(backwards));
        backwards := backwards + [x];
        node := prev[x];
      }
      path := Reversed(backwards);
    }
  }

  function Reversed<T>(s: seq<T>): (r: seq<T>)
  {
    if s == [] then [] else [s[|s| - 1]] + Reversed(s[..|s| - 1])
  }

  lemma ReversedNone<T>()
    ensures Reversed<T>([]) == []
  {
  }

  lemma ReversedSnoc<T>(s: seq<T>, x: T)
    ensures Reversed(s + [x]) == [x] + Reversed(s)
  {
    assert (s + [x])[..|s|] == s;
  }
}

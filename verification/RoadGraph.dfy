/** The road network as a value: travel times, paths, and the invariant of Dijkstra's search. */
module RoadGraph {
  import opened Numbers
  import opened Products
  import opened Wrappers

  function Plus(a: Extended, b: Extended): Extended { if a.Fin? && b.Fin? then Fin(a.r + b.r) else Inf }

  datatype RoadEdge = RoadEdge(source: string, target: string, lengthM: real, speedLimitKmh: real, lanes: int)

  function TravelTime(e: RoadEdge): Extended {
    if e.speedLimitKmh <= 0.0 then Inf else Fin(e.lengthM / (e.speedLimitKmh / 3.6))
  }

  /** Open roads take a time that is not negative. */
  predicate TakesTime(e: RoadEdge) { TravelTime(e).Fin? ==> TravelTime(e).r >= 0.0 }

  lemma TravelTimeNonNegative(e: RoadEdge)
    ensures TakesTime(e) <==> e.lengthM >= 0.0 || e.speedLimitKmh <= 0.0
  {
    if e.speedLimitKmh > 0.0 {
      var q := e.speedLimitKmh / 3.6;
      assert q > 0.0;
      var t := e.lengthM / q;
      assert t * q == e.lengthM;
      SignOfFactor(t, q);
    }
  }

  lemma SignOfFactor(a: real, b: real)
    requires b > 0.0
    ensures a * b >= 0.0 <==> a >= 0.0
  {
  }

  /** Distance is speed times time: with the length in metres, the limit in km/h and the time in
      seconds. A closed road takes for ever. */
  lemma DistanceIsSpeedTimesTime(e: RoadEdge)
    ensures e.speedLimitKmh > 0.0 ==> TravelTime(e).Fin? && TravelTime(e).r * e.speedLimitKmh == 3.6 * e.lengthM
    ensures e.speedLimitKmh <= 0.0 ==> TravelTime(e) == Inf
  {
    if e.speedLimitKmh > 0.0 {
      var q := e.speedLimitKmh / 3.6;
      var t := e.lengthM / q;
      assert t * q == e.lengthM && q * 3.6 == e.speedLimitKmh;
      assert t * e.speedLimitKmh == (t * q) * 3.6;
    }
  }

  /** The same road, at least as fast. */
  predicate AtLeastAsFast(e: RoadEdge, e': RoadEdge) {
    0.0 <= e'.lengthM == e.lengthM && 0.0 < e.speedLimitKmh <= e'.speedLimitKmh
  }

  /** Raising a speed limit never lengthens the time, and shortens it if the road has a length. */
  lemma FasterIsSooner(e: RoadEdge, e': RoadEdge)
    requires AtLeastAsFast(e, e')
    ensures TravelTime(e).Fin? && TravelTime(e').Fin? && 0.0 <= TravelTime(e').r <= TravelTime(e).r
    ensures e.lengthM > 0.0 && e.speedLimitKmh < e'.speedLimitKmh ==> TravelTime(e').r < TravelTime(e).r
  {
    hide TravelTime;
    DistanceIsSpeedTimesTime(e);
    DistanceIsSpeedTimesTime(e');
    SmallerFactor(TravelTime(e).r, e.speedLimitKmh, TravelTime(e').r, e'.speedLimitKmh);
  }

  lemma SmallerFactor(t: real, v: real, t': real, v': real)
    requires 0.0 < v <= v' && t * v == t' * v' && t * v >= 0.0
    ensures 0.0 <= t' <= t && (t * v > 0.0 && v < v' ==> t' < t)
  {
    FactorSign(t, v);
    FactorSign(t', v');
    ProductSign(t', v' - v);
    assert (t - t') * v == t' * (v' - v);
    FactorSign(t - t', v);
    if t * v > 0.0 && v < v' {
      if t' == t { ProductPositive(t, v' - v); }
    }
  }

  /** Adjacency lists. */
  type Graph = map<string, seq<RoadEdge>>

  ghost predicate WellFormed(g: Graph) {
    forall u, i :: u in g && 0 <= i < |g[u]| ==> g[u][i].source == u && g[u][i].target in g
  }

  /** No road takes negative time; a closed one may have any length. */
  ghost predicate NonNegative(g: Graph) {
    forall u, i :: u in g && 0 <= i < |g[u]| ==> TakesTime(g[u][i])
  }

  ghost predicate HasEdge(g: Graph, e: RoadEdge) { e.source in g && e in g[e.source] }

  lemma EdgeTakesTime(g: Graph, e: RoadEdge)
    requires NonNegative(g) && HasEdge(g, e)
    ensures TakesTime(e)
  {
  }

  ghost predicate IsPath(g: Graph, p: seq<RoadEdge>, s: string, x: string) {
    if p == [] then s == x && s in g
    else
      var e := p[|p| - 1];
      e.target == x && HasEdge(g, e) && IsPath(g, p[..|p| - 1], s, e.source)
  }

  ghost function PathTime(p: seq<RoadEdge>): Extended {
    if p == [] then Fin(0.0) else Plus(PathTime(p[..|p| - 1]), TravelTime(p[|p| - 1]))
  }

  ghost function Nodes(s: string, p: seq<RoadEdge>): (ns: seq<string>)
    ensures |ns| == |p| + 1
  {
    if p == [] then [s] else Nodes(s, p[..|p| - 1]) + [p[|p| - 1].target]
  }

  /** A path's total length in metres. */
  ghost function Distance(p: seq<RoadEdge>): real {
    if p == [] then 0.0 else Distance(p[..|p| - 1]) + p[|p| - 1].lengthM
  }

  /** A path driven at one speed throughout takes its whole length at that speed. */
  lemma {:induction false} PathAtOneSpeed(p: seq<RoadEdge>, v: real)
    requires v > 0.0 && forall k :: 0 <= k < |p| ==> p[k].speedLimitKmh == v
    ensures PathTime(p).Fin? && PathTime(p).r * v == 3.6 * Distance(p)
  {
    hide TravelTime;
    if p == [] {
    } else {
      var e, q := p[|p| - 1], p[..|p| - 1];
      PathAtOneSpeed(q, v);
      DistanceIsSpeedTimesTime(e);
      assert (PathTime(q).r + TravelTime(e).r) * v == PathTime(q).r * v + TravelTime(e).r * v;
    }
  }

  /** Raising speed limits along a path never lengthens it, and shortens it if a road of positive
      length got faster. */
  lemma {:induction false} FasterPathIsSooner(p: seq<RoadEdge>, p': seq<RoadEdge>)
    requires |p| == |p'| && forall k :: 0 <= k < |p| ==> AtLeastAsFast(p[k], p'[k])
    ensures PathTime(p).Fin? && PathTime(p').Fin? && PathTime(p').r <= PathTime(p).r
    ensures (exists k :: 0 <= k < |p| && p[k].lengthM > 0.0 && p[k].speedLimitKmh < p'[k].speedLimitKmh) ==>
              PathTime(p').r < PathTime(p).r
  {
    hide TravelTime;
    if p == [] {
    } else {
      var n := |p| - 1;
      FasterPathIsSooner(p[..n], p'[..n]);
      FasterIsSooner(p[n], p'[n]);
      if k :| 0 <= k < n && p[k].lengthM > 0.0 && p[k].speedLimitKmh < p'[k].speedLimitKmh {
        assert p[..n][k] == p[k] && p'[..n][k] == p'[k];
      }
    }
  }

  /** A path closed anywhere takes for ever, an open one does not. */
  lemma {:induction false} OpenExactly(p: seq<RoadEdge>)
    ensures PathTime(p).Fin? <==> forall k :: 0 <= k < |p| ==> p[k].speedLimitKmh > 0.0
  {
    hide TravelTime;
    if p == [] {
    } else {
      var n := |p| - 1;
      OpenExactly(p[..n]);
      DistanceIsSpeedTimesTime(p[n]);
      assert forall k :: 0 <= k < n ==> p[..n][k] == p[k];
    }
  }

  /** Two short roads at twice the speed beat one long road: 50 seconds against 100. */
  lemma DetourIsQuicker(ab: RoadEdge, ac: RoadEdge, cb: RoadEdge)
    requires ab.lengthM == 1000.0 && ab.speedLimitKmh == 36.0
    requires ac.lengthM == cb.lengthM == 500.0 && ac.speedLimitKmh == cb.speedLimitKmh == 72.0
    ensures PathTime([ab]) == Fin(100.0) && PathTime([ac, cb]) == Fin(50.0)
  {
    hide TravelTime;
    DistanceIsSpeedTimesTime(ab);
    DistanceIsSpeedTimesTime(ac);
    DistanceIsSpeedTimesTime(cb);
    assert [ab][..0] == [] && [ac, cb][..1] == [ac] && [ac][..0] == [];
  }

  /** The nodes of a path: its start, then the end of each road. */
  lemma {:induction false} NodesOfPath(g: Graph, p: seq<RoadEdge>, s: string, x: string)
    requires IsPath(g, p, s, x)
    ensures Nodes(s, p)[0] == s && Nodes(s, p)[|p|] == x
    ensures forall k :: 0 <= k < |p| ==>
      HasEdge(g, p[k]) && p[k].source == Nodes(s, p)[k] && p[k].target == Nodes(s, p)[k + 1]
  {
    if p == [] {
    } else {
      hide HasEdge;
      var n := |p| - 1;
      var q := p[..n];
      NodesOfPath(g, q, s, p[n].source);
      forall k | 0 <= k < n
        ensures HasEdge(g, p[k]) && p[k].source == Nodes(s, p)[k] && p[k].target == Nodes(s, p)[k + 1]
      {
        assert q[k] == p[k];
      }
    }
  }

  lemma PathSnoc(g: Graph, p: seq<RoadEdge>, s: string, e: RoadEdge)
    requires IsPath(g, p, s, e.source) && HasEdge(g, e)
    ensures IsPath(g, p + [e], s, e.target)
    ensures PathTime(p + [e]) == Plus(PathTime(p), TravelTime(e))
    ensures Nodes(s, p + [e]) == Nodes(s, p) + [e.target]
  {
    assert (p + [e])[..|p|] == p;
  }

  lemma {:induction false} PathConcat(g: Graph, p: seq<RoadEdge>, q: seq<RoadEdge>, s: string, x: string, y: string)
    requires IsPath(g, p, s, x) && IsPath(g, q, x, y)
    ensures IsPath(g, p + q, s, y) && PathTime(p + q) == Plus(PathTime(p), PathTime(q))
    decreases |q|
  {
    if q == [] {
      assert p + q == p;
    } else {
      var e := q[|q| - 1];
      PathConcat(g, p, q[..|q| - 1], s, x, e.source);
      assert (p + q)[..|p + q| - 1] == p + q[..|q| - 1];
    }
  }

  /** The path p followed k times by the loop. */
  lemma {:induction false} Looping(g: Graph, s: string, x: string, p: seq<RoadEdge>, loop: seq<RoadEdge>, k: nat)
    returns (q: seq<RoadEdge>)
    requires IsPath(g, p, s, x) && IsPath(g, loop, x, x) && PathTime(p).Fin? && PathTime(loop).Fin?
    ensures IsPath(g, q, s, x) && PathTime(q) == Fin(PathTime(p).r + k as real * PathTime(loop).r)
  {
    hide IsPath, PathTime;
    if k == 0 {
      q := p;
    } else {
      var q0 := Looping(g, s, x, p, loop, k - 1);
      PathConcat(g, q0, loop, s, x, x);
      OneMoreTurn(k, PathTime(loop).r);
      q := q0 + loop;
    }
  }

  lemma OneMoreTurn(k: nat, c: real)
    requires k > 0
    ensures k as real * c == (k - 1) as real * c + c
  {
  }

  /** Why road lengths have to be non-negative: past a loop that takes negative time there is no
      quickest path, so no query could answer. */
  lemma NegativeLoopHasNoQuickest(g: Graph, s: string, x: string, p: seq<RoadEdge>, loop: seq<RoadEdge>, bound: real)
    returns (q: seq<RoadEdge>)
    requires IsPath(g, p, s, x) && IsPath(g, loop, x, x)
    requires PathTime(p).Fin? && PathTime(loop).Fin? && PathTime(loop).r < 0.0
    ensures IsPath(g, q, s, x) && PathTime(q).Fin? && PathTime(q).r < bound
  {
    var start, gain := PathTime(p).r, -PathTime(loop).r;
    var k := Archimedes(gain, start - bound);
    q := Looping(g, s, x, p, loop, k);
  }

  // ------------------------------------------------------------- the invariant

  type Heap = multiset<(real, string)>

  /** Distances and predecessors describe real routes: a settled predecessor plus one road. */
  ghost predicate Routed(g: Graph, s: string, dist: map<string, Extended>, prev: map<string, Option<string>>,
                         route: map<string, seq<RoadEdge>>, settled: set<string>)
  {
    && WellFormed(g) && NonNegative(g) && s in g && dist.Keys == prev.Keys == route.Keys == g.Keys && settled <= g.Keys
    && dist[s] == Fin(0.0) && prev[s] == None && route[s] == []
    && (forall x :: x in settled ==> dist[x].Fin?)
    && (forall x :: x in g && x != s && dist[x].Inf? ==> prev[x] == None)
    && forall x {:trigger route[x]} :: x in g && x != s && dist[x].Fin? ==> Stepped(g, dist, prev, route, settled, x)
  }

  ghost predicate Stepped(g: Graph, dist: map<string, Extended>, prev: map<string, Option<string>>,
                          route: map<string, seq<RoadEdge>>, settled: set<string>, x: string)
  {
    && x in dist && x in prev && x in route && route[x] != [] && prev[x].Some?
    && var e := route[x][|route[x]| - 1];
       var u := prev[x].value;
       && u in settled && u in dist && u in route
       && HasEdge(g, e) && e.source == u && e.target == x
       && route[x] == route[u] + [e]
       && dist[x] == Plus(dist[u], TravelTime(e))
  }

  /** The heap covers every unsettled reached node, and settled nodes are done. */
  ghost predicate Covered(g: Graph, dist: map<string, Extended>, settled: set<string>, pq: Heap)
  {
    && dist.Keys == g.Keys
    && (forall x :: x in g && x !in settled && dist[x].Fin? ==> (dist[x].r, x) in pq)
    && (forall k, x :: (k, x) in pq ==>
          && x in g && dist[x].Fin? && dist[x].r <= k
          && (x in settled ==> dist[x].r < k))
    && (forall x :: x in g && dist[x].Fin? ==> pq[(dist[x].r, x)] <= 1)
    && (forall k, x, y :: (k, x) in pq && y in settled && y in g && dist[y].Fin? ==> dist[y].r <= k)
  }

  ghost predicate Relaxed(dist: map<string, Extended>, e: RoadEdge) {
    e.source in dist && e.target in dist && !Less(Plus(dist[e.source], TravelTime(e)), dist[e.target])
  }

  /** Every road out of a settled node has been tried, save those of u from i on. */
  ghost predicate Tried(g: Graph, dist: map<string, Extended>, settled: set<string>, u: string, i: nat)
  {
    && (forall x, k :: x in settled && x in g && x != u && 0 <= k < |g[x]| ==> Relaxed(dist, g[x][k]))
    && (u in g ==> forall k :: 0 <= k < i && k < |g[u]| ==> Relaxed(dist, g[u][k]))
  }

  ghost predicate AllTried(g: Graph, dist: map<string, Extended>, settled: set<string>) {
    forall x, k :: x in settled && x in g && 0 <= k < |g[x]| ==> Relaxed(dist, g[x][k])
  }

  lemma TriedBefore(g: Graph, dist: map<string, Extended>, settled: set<string>, u: string)
    requires AllTried(g, dist, settled)
    ensures Tried(g, dist, settled + {u}, u, 0)
  {
  }

  lemma TriedAfter(g: Graph, dist: map<string, Extended>, settled: set<string>, u: string)
    requires u in g && Tried(g, dist, settled, u, |g[u]|)
    ensures AllTried(g, dist, settled)
  {
  }

  lemma NotImprovedTried(g: Graph, dist: map<string, Extended>, settled: set<string>, u: string, i: nat)
    requires WellFormed(g) && dist.Keys == g.Keys && Tried(g, dist, settled, u, i) && u in g && i < |g[u]|
    requires !Less(Plus(dist[u], TravelTime(g[u][i])), dist[g[u][i].target])
    ensures Tried(g, dist, settled, u, i + 1)
  {
  }

  lemma RoutedShape(g: Graph, s: string, dist: map<string, Extended>, prev: map<string, Option<string>>,
                    route: map<string, seq<RoadEdge>>, settled: set<string>)
    requires Routed(g, s, dist, prev, route, settled)
    ensures WellFormed(g) && NonNegative(g) && s in g && dist[s] == Fin(0.0)
    ensures dist.Keys == prev.Keys == route.Keys == g.Keys && settled <= g.Keys
    ensures forall x :: x in settled ==> dist[x].Fin?
  {
  }

  /** One step back along a route: the source has no predecessor, any other node a nearer one. */
  lemma PredecessorOf(g: Graph, s: string, dist: map<string, Extended>, prev: map<string, Option<string>>,
                      route: map<string, seq<RoadEdge>>, settled: set<string>, x: string)
    requires Routed(g, s, dist, prev, route, settled) && x in g && dist[x].Fin?
    ensures x in prev && x in route
    ensures prev[x].None? ==> Nodes(s, route[x]) == [x]
    ensures prev[x].Some? ==>
      var u := prev[x].value;
      && u in g && u in dist && u in route && dist[u].Fin? && |route[u]| < |route[x]|
      && Nodes(s, route[x]) == Nodes(s, route[u]) + [x]
  {
    if x != s {
      assert Stepped(g, dist, prev, route, settled, x);
      var u := prev[x].value;
      assert route[x][..|route[x]| - 1] == route[u];
    }
  }

  lemma Started(g: Graph, s: string, dist: map<string, Extended>, prev: map<string, Option<string>>,
                route: map<string, seq<RoadEdge>>)
    requires WellFormed(g) && NonNegative(g) && s in g
    requires dist.Keys == prev.Keys == route.Keys == g.Keys
    requires forall x :: x in g ==> prev[x] == None && route[x] == [] && dist[x] == if x == s then Fin(0.0) else Inf
    ensures Routed(g, s, dist, prev, route, {})
    ensures Covered(g, dist, {}, multiset{(0.0, s)})
    ensures AllTried(g, dist, {})
  {
  }

  /** What an entry of the heap says. */
  lemma EntryFacts(g: Graph, dist: map<string, Extended>, settled: set<string>, pq: Heap, k: real, x: string)
    requires Covered(g, dist, settled, pq) && (k, x) in pq
    ensures x in g && x in dist && dist[x].Fin? && dist[x].r <= k
    ensures forall y :: y in settled && y in g && dist[y].Fin? ==> dist[y].r <= k
  {
  }

  /** The least entry of the heap, or infinity when it is empty. */
  ghost predicate LowerBound(pq: Heap, bound: Extended) {
    if pq == multiset{} then bound == Inf else bound.Fin? && forall e :: e in pq ==> bound.r <= e.0
  }

  /** Below the least entry of the heap every node is settled. */
  lemma HeapBounds(g: Graph, dist: map<string, Extended>, settled: set<string>, pq: Heap, bound: Extended)
    requires Covered(g, dist, settled, pq)
    requires LowerBound(pq, bound)
    ensures forall y :: y in g && y !in settled ==> !Less(dist[y], bound)
  {
    forall y | y in g && y !in settled && dist[y].Fin?
      ensures !Less(dist[y], bound)
    {
      assert (dist[y].r, y) in pq;
    }
  }

  /** Dropping a stale entry loses nothing. */
  lemma StaleDropped(g: Graph, dist: map<string, Extended>, settled: set<string>, pq: Heap, k: real, x: string)
    requires Covered(g, dist, settled, pq) && (k, x) in pq && dist[x].r < k
    ensures Covered(g, dist, settled, pq - multiset{(k, x)})
  {
  }

  /** Settled nodes are no further than d. */
  ghost predicate Nearest(g: Graph, dist: map<string, Extended>, settled: set<string>, d: real) {
    dist.Keys == g.Keys && forall y :: y in settled && y in g && dist[y].Fin? ==> dist[y].r <= d
  }

  /** The least entry, if current, settles its node. */
  lemma SettledCovered(g: Graph, dist: map<string, Extended>, settled: set<string>, pq: Heap, k: real, x: string)
    requires Covered(g, dist, settled, pq) && (k, x) in pq && dist[x].r == k
    requires forall e :: e in pq ==> k <= e.0
    ensures x !in settled
    ensures Nearest(g, dist, settled + {x}, k)
    ensures Covered(g, dist, settled + {x}, pq - multiset{(k, x)})
  {
    var pq' := pq - multiset{(k, x)};
    forall k', y | (k', y) in pq'
      ensures k <= k' && (y == x ==> k < k')
    {
      assert (k', y) in pq && k <= (k', y).0;
    }
  }

  lemma SettledRouted(g: Graph, s: string, dist: map<string, Extended>, prev: map<string, Option<string>>,
                      route: map<string, seq<RoadEdge>>, settled: set<string>, x: string)
    requires Routed(g, s, dist, prev, route, settled) && x in g && dist[x].Fin?
    ensures Routed(g, s, dist, prev, route, settled + {x})
  {
    forall y | y in g && y != s && dist[y].Fin?
      ensures Stepped(g, dist, prev, route, settled + {x}, y)
    {
      assert Stepped(g, dist, prev, route, settled, y);
    }
  }

  /** A better way to e.target leads to an unsettled node, no nearer than u. */
  lemma ImprovedIsUnsettled(g: Graph, s: string, dist: map<string, Extended>, prev: map<string, Option<string>>,
                            route: map<string, seq<RoadEdge>>, settled: set<string>, e: RoadEdge)
    requires Routed(g, s, dist, prev, route, settled) && HasEdge(g, e) && e.source in settled && e.target in g
    requires dist[e.source].Fin? && Nearest(g, dist, settled, dist[e.source].r)
    requires Less(Plus(dist[e.source], TravelTime(e)), dist[e.target])
    ensures var alt := Plus(dist[e.source], TravelTime(e));
            alt.Fin? && e.target !in settled && e.target != s && Nearest(g, dist, settled, alt.r)
  {
    EdgeTakesTime(g, e);
    RouteIsPath(g, s, dist, prev, route, settled, e.source);
  }

  /** A recorded step survives a new record of another, unsettled node. */
  lemma StepSurvives(g: Graph, dist: map<string, Extended>, prev: map<string, Option<string>>,
                     route: map<string, seq<RoadEdge>>, settled: set<string>, x: string,
                     v: string, d: Extended, p: Option<string>, r: seq<RoadEdge>)
    requires Stepped(g, dist, prev, route, settled, x) && x != v && v !in settled
    ensures Stepped(g, dist[v := d], prev[v := p], route[v := r], settled, x)
  {
    hide HasEdge, TravelTime, Plus;
  }

  /** The new record is itself a step. */
  lemma StepImproved(g: Graph, dist: map<string, Extended>, prev: map<string, Option<string>>,
                     route: map<string, seq<RoadEdge>>, settled: set<string>, e: RoadEdge)
    requires HasEdge(g, e) && e.source in settled && e.target !in settled && e.source in dist && e.source in route
    ensures Stepped(g, dist[e.target := Plus(dist[e.source], TravelTime(e))], prev[e.target := Some(e.source)],
                    route[e.target := route[e.source] + [e]], settled, e.target)
  {
    hide HasEdge, TravelTime, Plus;
  }

  /** An improvement keeps the key sets and the entry of the source. */
  lemma ImprovedKeys(g: Graph, dist: map<string, Extended>, prev: map<string, Option<string>>,
                     route: map<string, seq<RoadEdge>>, v: string, d: Extended, p: Option<string>, r: seq<RoadEdge>)
    requires dist.Keys == prev.Keys == route.Keys == g.Keys && v in g
    ensures dist[v := d].Keys == prev[v := p].Keys == route[v := r].Keys == g.Keys
  {
  }

  lemma ImprovedRouted(g: Graph, s: string, dist: map<string, Extended>, prev: map<string, Option<string>>,
                       route: map<string, seq<RoadEdge>>, settled: set<string>, e: RoadEdge, alt: Extended)
    requires Routed(g, s, dist, prev, route, settled) && HasEdge(g, e) && e.source in settled && e.target in g
    requires alt == Plus(dist[e.source], TravelTime(e)) && alt.Fin? && e.target !in settled && e.target != s
    ensures Routed(g, s, dist[e.target := alt], prev[e.target := Some(e.source)],
                   route[e.target := route[e.source] + [e]], settled)
  {
    hide Stepped, WellFormed, NonNegative, HasEdge, TravelTime, Plus;
    var v, p, r := e.target, Some(e.source), route[e.source] + [e];
    ImprovedKeys(g, dist, prev, route, v, alt, p, r);
    StepImproved(g, dist, prev, route, settled, e);
    forall y | y in g && y != s && y != v && dist[y].Fin?
      ensures Stepped(g, dist[v := alt], prev[v := p], route[v := r], settled, y)
    {
      StepSurvives(g, dist, prev, route, settled, y, v, alt, p, r);
    }
  }

  lemma ImprovedCovered(g: Graph, dist: map<string, Extended>, settled: set<string>, pq: Heap, v: string, alt: Extended)
    requires Covered(g, dist, settled, pq) && v in g && v !in settled && Less(alt, dist[v])
    requires Nearest(g, dist, settled, alt.r)
    ensures Covered(g, dist[v := alt], settled, pq + multiset{(alt.r, v)})
  {
    var dist', pq' := dist[v := alt], pq + multiset{(alt.r, v)};
    assert dist'.Keys == g.Keys;
    assert (alt.r, v) !in pq;
    forall k, x | (k, x) in pq'
      ensures x in g && dist'[x].Fin? && dist'[x].r <= k && (x in settled ==> dist'[x].r < k)
    {
      if (k, x) != (alt.r, v) { assert (k, x) in pq; }
    }
    forall x | x in g && dist'[x].Fin?
      ensures pq'[(dist'[x].r, x)] <= 1
    {
      if x != v { assert (dist'[x].r, x) != (alt.r, v); }
    }
  }

  /** Moving an unsettled node leaves the settled ones as near as they were. */
  lemma ImprovedNearest(g: Graph, dist: map<string, Extended>, settled: set<string>, v: string, alt: Extended, d: real)
    requires Nearest(g, dist, settled, d) && v in g && v !in settled
    ensures Nearest(g, dist[v := alt], settled, d)
  {
    assert dist[v := alt].Keys == g.Keys;
  }

  lemma ImprovedTried(g: Graph, dist: map<string, Extended>, settled: set<string>, u: string, i: nat, alt: Extended)
    requires WellFormed(g) && dist.Keys == g.Keys && Tried(g, dist, settled, u, i)
    requires u in settled && u in g && i < |g[u]|
    requires alt == Plus(dist[u], TravelTime(g[u][i])) && Less(alt, dist[g[u][i].target])
    requires g[u][i].target !in settled
    ensures Tried(g, dist[g[u][i].target := alt], settled, u, i + 1)
  {
    var v := g[u][i].target;
    var dist' := dist[v := alt];
    forall x, k | x in settled && x in g && 0 <= k < |g[x]| && (x != u || k <= i)
      ensures Relaxed(dist', g[x][k])
    {
      if (x, k) != (u, i) { assert Relaxed(dist, g[x][k]); }
    }
  }

  /** Recorded routes are paths of the recorded length. */
  lemma {:induction false} RouteIsPath(g: Graph, s: string, dist: map<string, Extended>,
                                       prev: map<string, Option<string>>,
                                       route: map<string, seq<RoadEdge>>, settled: set<string>, x: string)
    requires Routed(g, s, dist, prev, route, settled) && x in g && dist[x].Fin?
    ensures IsPath(g, route[x], s, x) && PathTime(route[x]) == dist[x] && dist[x].r >= 0.0
    decreases |route[x]|
  {
    if x == s {
    } else {
      assert Stepped(g, dist, prev, route, settled, x);
      var u, e := prev[x].value, route[x][|route[x]| - 1];
      RouteIsPath(g, s, dist, prev, route, settled, u);
      PathSnoc(g, route[u], s, e);
      EdgeTakesTime(g, e);
    }
  }

  /** No path is shorter than the recorded distance, or than the bound below which
      every node is settled. */
  lemma {:induction false} NoShorterPath(g: Graph, s: string, dist: map<string, Extended>, settled: set<string>,
                                         bound: Extended, p: seq<RoadEdge>, x: string)
    requires WellFormed(g) && NonNegative(g) && s in g && dist.Keys == g.Keys && dist[s] == Fin(0.0)
    requires AllTried(g, dist, settled)
    requires forall y :: y in g && y !in settled ==> !Less(dist[y], bound)
    requires IsPath(g, p, s, x)
    ensures x in g && (!Less(PathTime(p), dist[x]) || !Less(PathTime(p), bound))
  {
    if p == [] {
    } else {
      var e := p[|p| - 1];
      NoShorterPath(g, s, dist, settled, bound, p[..|p| - 1], e.source);
      var k :| 0 <= k < |g[e.source]| && g[e.source][k] == e;
      EdgeTakesTime(g, e);
    }
  }

  /** The node at place i of a recorded route is itself recorded with i roads. */
  lemma {:induction false} NodeRank(g: Graph, s: string, dist: map<string, Extended>, prev: map<string, Option<string>>,
                                    route: map<string, seq<RoadEdge>>, settled: set<string>, x: string, i: nat)
    requires Routed(g, s, dist, prev, route, settled) && x in g && dist[x].Fin? && i <= |route[x]|
    ensures Nodes(s, route[x])[i] in g && |route[Nodes(s, route[x])[i]]| == i
    decreases |route[x]|
  {
    if x == s {
    } else {
      assert Stepped(g, dist, prev, route, settled, x);
      if i < |route[x]| {
        var u, e := prev[x].value, route[x][|route[x]| - 1];
        assert route[x][..|route[x]| - 1] == route[u];
        NodeRank(g, s, dist, prev, route, settled, u, i);
      }
    }
  }

  /** No route visits a node twice, even along roads of length zero. */
  lemma RouteIsSimple(g: Graph, s: string, dist: map<string, Extended>, prev: map<string, Option<string>>,
                      route: map<string, seq<RoadEdge>>, settled: set<string>, x: string)
    requires Routed(g, s, dist, prev, route, settled) && x in g && dist[x].Fin?
    ensures forall i, j :: 0 <= i < j <= |route[x]| ==> Nodes(s, route[x])[i] != Nodes(s, route[x])[j]
  {
    forall i, j | 0 <= i < j <= |route[x]|
      ensures Nodes(s, route[x])[i] != Nodes(s, route[x])[j]
    {
      NodeRank(g, s, dist, prev, route, settled, x, i);
      NodeRank(g, s, dist, prev, route, settled, x, j);
    }
  }

  // ------------------------------------------------------ where time runs backwards

  /** A road at the speed at which its time in seconds is its length in metres. */
  function Lane(source: string, target: string, seconds: real): RoadEdge {
    RoadEdge(source, target, seconds, 3.6, 1)
  }

  /** From a to b in one second, and from a over c to b in two seconds less five. */
  function Shortcut(): Graph {
    map["a" := [Lane("a", "b", 1.0), Lane("a", "c", 2.0)], "b" := [], "c" := [Lane("c", "b", -5.0)]]
  }

  lemma LaneTime(source: string, target: string, seconds: real)
    ensures TravelTime(Lane(source, target, seconds)) == Fin(seconds)
  {
    assert 3.6 / 3.6 == 1.0;
  }

  /** The distances once the roads of a have been tried. */
  function ShortcutDist(): map<string, Extended> { map["a" := Fin(0.0), "b" := Fin(1.0), "c" := Fin(2.0)] }

  const SHORTCUT_HEAP: Heap := multiset{(1.0, "b"), (2.0, "c")}

  lemma ShortcutCovered()
    ensures Covered(Shortcut(), ShortcutDist(), {"a"}, SHORTCUT_HEAP)
  {
    hide Lane;
    assert ShortcutDist().Keys == Shortcut().Keys;
  }

  lemma ShortcutTried()
    ensures WellFormed(Shortcut()) && AllTried(Shortcut(), ShortcutDist(), {"a"})
  {
    hide TravelTime;
    LaneTime("a", "b", 1.0);
    LaneTime("a", "c", 2.0);
  }

  lemma QuickerPath() returns (p: seq<RoadEdge>)
    ensures IsPath(Shortcut(), p, "a", "b") && PathTime(p) == Fin(-3.0)
  {
    hide TravelTime;
    var ac, cb := Lane("a", "c", 2.0), Lane("c", "b", -5.0);
    LaneTime("a", "c", 2.0);
    LaneTime("c", "b", -5.0);
    assert Shortcut()["a"][1] == ac && Shortcut()["c"][0] == cb;
    PathSnoc(Shortcut(), [], "a", ac);
    p := [] + [ac];
    PathSnoc(Shortcut(), p, "a", cb);
    p := p + [cb];
  }

  /** One road of negative time is enough, without any loop: after the roads of a have been tried
      the least entry is the target's, where the search stops, yet the way over c is quicker. */
  lemma NegativeRoadMisleads() returns (p: seq<RoadEdge>)
    ensures WellFormed(Shortcut()) && AllTried(Shortcut(), ShortcutDist(), {"a"})
    ensures Covered(Shortcut(), ShortcutDist(), {"a"}, SHORTCUT_HEAP) && LowerBound(SHORTCUT_HEAP, ShortcutDist()["b"])
    ensures IsPath(Shortcut(), p, "a", "b") && Less(PathTime(p), ShortcutDist()["b"])
  {
    hide Covered, AllTried, WellFormed, IsPath, PathTime, Shortcut;
    ShortcutCovered();
    ShortcutTried();
    p := QuickerPath();
  }
}

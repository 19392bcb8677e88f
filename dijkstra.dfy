/**
 * The shortest-path part of the route service: buildGraph, dijkstra and
 * reconstructPath. The graph is the adjacency object keyed by station id,
 * graph[u][v] the length of the edge u -> v. Station ids are array-index
 * integers, so Object.keys lists them in ascending order; the node set is
 * filled in that order and dijkstra's scan for the closest node breaks
 * ties towards the smallest id.
 */
module ShortestPath {
  import opened JsBuiltins

  /** The adjacency object built by buildGraph. */
  type Graph = map<nat, map<nat, real>>

  /** A tentative distance: a finite number or Infinity. */
  datatype Dist = Fin(value: real) | Inf

  /** `a < b` on numbers that may be Infinity. */
  predicate Below(a: Dist, b: Dist)
  {
    a.Fin? && (b.Inf? || a.value < b.value)
  }

  /** `a <= b` on numbers that may be Infinity. */
  predicate AtMost(a: Dist, b: Dist)
  {
    b.Inf? || (a.Fin? && a.value <= b.value)
  }

  predicate NonNegative(graph: Graph)
  {
    forall u, v :: u in graph && v in graph[u] ==> graph[u][v] >= 0.0
  }

  // ---------------------------------------------------------------------------
  // Object.keys on integer keys
  // ---------------------------------------------------------------------------

  /** k is the smallest element of s. */
  predicate IsMinOf(s: set<nat>, k: nat)
  {
    k in s && forall j :: j in s ==> k <= j
  }

  lemma {:induction false} HasMinimum(s: set<nat>)
    requires s != {}
    ensures exists k :: IsMinOf(s, k)
    decreases |s|
  {
    var x :| x in s;
    var rest := s - {x};
    if rest == {} {
      assert s == {x};
      assert IsMinOf(s, x);
    } else {
      HasMinimum(rest);
      var k :| IsMinOf(rest, k);
      var m := if x < k then x else k;
      forall j | j in s ensures m <= j {
        if j != x {
          assert j in rest;
        }
      }
      assert IsMinOf(s, m);
    }
  }

  function MinKey(s: set<nat>): (k: nat)
    requires s != {}
    ensures IsMinOf(s, k)
  {
    HasMinimum(s);
    var k :| IsMinOf(s, k);
    k
  }

  /** Object.keys of an object whose keys are array indices: ascending order. */
  function ObjectKeys(s: set<nat>): (keys: seq<nat>)
    ensures forall k :: k in keys <==> k in s
    ensures forall i, j :: 0 <= i < j < |keys| ==> keys[i] < keys[j]
    decreases |s|
  {
    if s == {} then []
    else
      var k := MinKey(s);
      [k] + ObjectKeys(s - {k})
  }

  // ---------------------------------------------------------------------------
  // Walks through the graph
  // ---------------------------------------------------------------------------

  function Last(p: seq<nat>): nat
    requires |p| >= 1
  {
    p[|p| - 1]
  }

  /** An edge dijkstra can follow: both ends are keys of the graph. */
  predicate Edge(graph: Graph, a: nat, b: nat)
  {
    a in graph && b in graph[a] && b in graph
  }

  predicate EdgesOk(graph: Graph, p: seq<nat>)
  {
    forall i :: 0 <= i < |p| - 1 ==> Edge(graph, p[i], p[i + 1])
  }

  /** A walk from start along edges between keys of the graph. */
  predicate IsWalkFrom(graph: Graph, start: nat, p: seq<nat>)
  {
    |p| >= 1 && p[0] == start && EdgesOk(graph, p)
  }

  function WalkLength(graph: Graph, p: seq<nat>): real
    requires EdgesOk(graph, p)
  {
    if |p| <= 1 then 0.0
    else
      assert Edge(graph, p[|p| - 2], p[|p| - 1]);
      WalkLength(graph, p[..|p| - 1]) + graph[p[|p| - 2]][p[|p| - 1]]
  }

  // ---------------------------------------------------------------------------
  // dijkstra
  // ---------------------------------------------------------------------------

  /**
   * The `nodes.forEach` scan: in insertion (= ascending id) order, keep the
   * node whose distance is strictly below the best so far, starting from
   * Infinity. The result is the smallest id among the closest finite nodes,
   * or None when every node left is at Infinity.
   */
  method SelectMin(keys: seq<nat>, nodes: set<nat>, dist: map<nat, Dist>) returns (r: Option<nat>)
    requires forall i, j :: 0 <= i < j < |keys| ==> keys[i] < keys[j]
    requires forall k :: k in nodes ==> k in keys && k in dist
    ensures r.None? <==> forall k :: k in nodes ==> dist[k].Inf?
    ensures r.Some? ==> r.value in nodes && dist[r.value].Fin?
    ensures r.Some? ==> forall k :: k in nodes ==> AtMost(dist[r.value], dist[k])
    ensures r.Some? ==> forall k :: k in nodes && dist[k] == dist[r.value] ==> r.value <= k
  {
    r := None;
    var best := Inf;
    var i := 0;
    while i < |keys|
      invariant 0 <= i <= |keys|
      invariant r.None? ==> best == Inf
      invariant r.Some? ==> r.value in nodes && best == dist[r.value] && best.Fin?
      invariant r.Some? ==> exists j :: 0 <= j < i && keys[j] == r.value
      invariant forall j :: 0 <= j < i && keys[j] in nodes ==> AtMost(best, dist[keys[j]])
      invariant forall j :: 0 <= j < i && keys[j] in nodes && dist[keys[j]] == best && best.Fin? ==>
                  r.Some? && r.value <= keys[j]
    {
      var node := keys[i];
      if node in nodes && Below(dist[node], best) {
        r := Some(node);
        best := dist[node];
      }
      i := i + 1;
    }
  }

  /** previous[v] = u is backed by the edge u -> v and the distances it produced. */
  ghost predicate PrevLink(graph: Graph, dist: map<nat, Dist>, rank: map<nat, nat>, u: nat, v: nat)
  {
    Edge(graph, u, v) && u in rank && u in dist && v in dist && dist[u].Fin?
    && dist[v] == Fin(dist[u].value + graph[u][v])
    && (v in rank ==> rank[u] < rank[v])
  }

  /**
   * What holds at every step of dijkstra: the shape of the three tables,
   * the removed nodes (those with a rank, in removal order) are finite,
   * previous is set exactly for the non-start nodes with a finite
   * distance, and every previous link is an edge from an earlier-removed node.
   */
  ghost predicate Bookkeeping(graph: Graph, start: nat, dist: map<nat, Dist>, prev: map<nat, Option<nat>>,
                              nodes: set<nat>, rank: map<nat, nat>, count: nat)
  {
    Shape(graph, start, dist, prev, nodes, rank, count)
    && StartFacts(graph, start, dist, prev, nodes)
    && ReachedFacts(graph, start, dist, prev, rank)
    && (forall v :: v in prev && prev[v].Some? ==> PrevLink(graph, dist, rank, prev[v].value, v))
  }

  ghost predicate Shape(graph: Graph, start: nat, dist: map<nat, Dist>, prev: map<nat, Option<nat>>,
                        nodes: set<nat>, rank: map<nat, nat>, count: nat)
  {
    dist.Keys == graph.Keys + {start} && prev.Keys == graph.Keys && nodes <= graph.Keys
    && rank.Keys == graph.Keys - nodes
    && (forall k :: k in rank ==> rank[k] < count)
  }

  ghost predicate StartFacts(graph: Graph, start: nat, dist: map<nat, Dist>, prev: map<nat, Option<nat>>, nodes: set<nat>)
    requires start in dist && prev.Keys == graph.Keys && graph.Keys <= dist.Keys
  {
    dist[start] == Fin(0.0)
    && (start in nodes ==> forall k :: k in graph && k != start ==> dist[k].Inf?)
    && (start in graph ==> prev[start].None?)
  }

  ghost predicate ReachedFacts(graph: Graph, start: nat, dist: map<nat, Dist>, prev: map<nat, Option<nat>>,
                               rank: map<nat, nat>)
    requires prev.Keys == graph.Keys && graph.Keys <= dist.Keys && rank.Keys <= dist.Keys
  {
    (forall k :: k in rank ==> dist[k].Fin?)
    && (forall v {:trigger prev[v]} :: v in graph && v != start ==> (prev[v].Some? <==> dist[v].Fin?))
  }

  /**
   * With non-negative edges: distances are non-negative, no removed node is
   * farther than a node still in the set, and every edge out of a removed
   * node has been relaxed.
   */
  ghost predicate Settled(graph: Graph, dist: map<nat, Dist>, nodes: set<nat>, rank: map<nat, nat>)
  {
    NonNegative(graph) ==>
      (forall k :: k in dist && dist[k].Fin? ==> dist[k].value >= 0.0)
      && (forall a, b :: a in rank && b in nodes && a in dist && b in dist ==> AtMost(dist[a], dist[b]))
      && (forall a, v :: a in rank && Edge(graph, a, v) && a in dist && v in dist && dist[a].Fin? ==>
            AtMost(dist[v], Fin(dist[a].value + graph[a][v])))
  }

  /**
   * (dist', prev') is (dist, prev) after relaxing the edges out of u at
   * distance du: a neighbour still in the node set takes `du + graph[u][v]`
   * and previous u exactly when that is strictly smaller; nothing else changes.
   */
  ghost predicate RelaxedFrom(graph: Graph, u: nat, du: real, nodes: set<nat>,
                              dist: map<nat, Dist>, prev: map<nat, Option<nat>>,
                              dist': map<nat, Dist>, prev': map<nat, Option<nat>>)
    requires u in graph && nodes <= dist.Keys && nodes <= prev.Keys
  {
    dist'.Keys == dist.Keys && prev'.Keys == prev.Keys
    && (forall v :: v in dist && !(v in nodes && v in graph[u]) ==> dist'[v] == dist[v])
    && (forall v :: v in prev && !(v in nodes && v in graph[u]) ==> prev'[v] == prev[v])
    && (forall v :: v in nodes && v in graph[u] ==>
          if Below(Fin(du + graph[u][v]), dist[v])
          then dist'[v] == Fin(du + graph[u][v]) && prev'[v] == Some(u)
          else dist'[v] == dist[v] && prev'[v] == prev[v])
  }

  /** Relaxation never raises a distance. */
  lemma RelaxNeverIncreases(graph: Graph, u: nat, du: real, nodes: set<nat>,
                            dist: map<nat, Dist>, prev: map<nat, Option<nat>>,
                            dist': map<nat, Dist>, prev': map<nat, Option<nat>>)
    requires u in graph && nodes <= dist.Keys && nodes <= prev.Keys
    requires RelaxedFrom(graph, u, du, nodes, dist, prev, dist', prev')
    ensures forall v :: v in dist ==> v in dist' && AtMost(dist'[v], dist[v])
    ensures forall v :: v in dist && dist'[v] != dist[v] ==> v in nodes && prev'[v] == Some(u)
  {
    forall v | v in dist ensures v in dist' && AtMost(dist'[v], dist[v]) {
      if v in nodes && v in graph[u] {
        if Below(Fin(du + graph[u][v]), dist[v]) {
        }
      }
    }
  }

  /**
   * The `Object.keys(graph[minNode]).forEach` relaxation: a neighbour still
   * in the node set takes `distances[u] + graph[u][v]` and previous u when
   * that is strictly smaller; nothing else changes. Each neighbour is
   * touched once and distances[u] does not move, so the visiting order
   * does not matter.
   */
  method RelaxNeighbors(graph: Graph, u: nat, du: real, nodes: set<nat>,
                        dist: map<nat, Dist>, prev: map<nat, Option<nat>>)
    returns (dist': map<nat, Dist>, prev': map<nat, Option<nat>>)
    requires u in graph && nodes <= graph.Keys && nodes <= dist.Keys && nodes <= prev.Keys
    ensures RelaxedFrom(graph, u, du, nodes, dist, prev, dist', prev')
  {
    dist', prev' := dist, prev;
    var todo := graph[u].Keys;
    while todo != {}
      invariant todo <= graph[u].Keys
      invariant dist'.Keys == dist.Keys && prev'.Keys == prev.Keys
      invariant forall v :: v in dist && !(v in nodes && v in graph[u] && v !in todo) ==> dist'[v] == dist[v]
      invariant forall v :: v in prev && !(v in nodes && v in graph[u] && v !in todo) ==> prev'[v] == prev[v]
      invariant forall v :: v in nodes && v in graph[u] && v !in todo ==>
                  if Below(Fin(du + graph[u][v]), dist[v])
                  then dist'[v] == Fin(du + graph[u][v]) && prev'[v] == Some(u)
                  else dist'[v] == dist[v] && prev'[v] == prev[v]
      decreases |todo|
    {
      var v :| v in todo;
      todo := todo - {v};
      if v in nodes {
        var alt := du + graph[u][v];
        if Below(Fin(alt), dist'[v]) {
          dist' := dist'[v := Fin(alt)];
          prev' := prev'[v := Some(u)];
        }
      }
    }
  }

  /**
   * dijkstra: distances and previous for every key of the graph.
   * Unconditionally: the start is at 0 and has no previous, previous is set
   * exactly for the nodes reached with a finite distance, and each previous
   * link is an edge whose length accounts for the distance; the ghost rank
   * (removal order) shows the links never form a cycle. With non-negative
   * edges, no walk from the start is shorter than the distance reported
   * for its last node.
   */
  method Dijkstra(graph: Graph, start: nat)
    returns (dist: map<nat, Dist>, prev: map<nat, Option<nat>>, ghost rank: map<nat, nat>)
    ensures dist.Keys == graph.Keys + {start} && prev.Keys == graph.Keys
    ensures dist[start] == Fin(0.0)
    ensures start in graph ==> prev[start].None?
    ensures forall v :: v in graph && v != start ==> (prev[v].None? <==> dist[v].Inf?)
    ensures forall v :: v in prev && prev[v].Some? ==>
              Edge(graph, prev[v].value, v) && dist[prev[v].value].Fin?
              && dist[v] == Fin(dist[prev[v].value].value + graph[prev[v].value][v])
    ensures forall v :: v in prev && prev[v].Some? ==>
              prev[v].value in rank && v in rank && rank[prev[v].value] < rank[v]
    ensures NonNegative(graph) ==>
              forall p :: IsWalkFrom(graph, start, p) ==>
                Last(p) in dist && AtMost(dist[Last(p)], Fin(WalkLength(graph, p)))
  {
    var keys := ObjectKeys(graph.Keys);
    var nodes;
    dist, prev, nodes := InitTables(keys);
    dist := dist[start := Fin(0.0)];
    ghost var count;
    dist, prev, nodes, rank, count := MainLoop(graph, start, keys, dist, prev, nodes);
    Finished(graph, start, dist, prev, nodes, rank, count);
  }

  /**
   * The `while (nodes.size > 0)` loop: take the closest node still in the
   * set, stop when it is unreachable, otherwise remove it and relax its edges.
   */
  method MainLoop(graph: Graph, start: nat, keys: seq<nat>,
                  dist0: map<nat, Dist>, prev0: map<nat, Option<nat>>, nodes0: set<nat>)
    returns (dist: map<nat, Dist>, prev: map<nat, Option<nat>>, nodes: set<nat>,
             ghost rank: map<nat, nat>, ghost count: nat)
    requires forall i, j :: 0 <= i < j < |keys| ==> keys[i] < keys[j]
    requires forall k :: k in keys <==> k in graph
    requires Bookkeeping(graph, start, dist0, prev0, nodes0, map[], 0)
    requires nodes0 == graph.Keys && Settled(graph, dist0, nodes0, map[])
    ensures Bookkeeping(graph, start, dist, prev, nodes, rank, count)
    ensures Settled(graph, dist, nodes, rank)
    ensures forall v :: v in nodes ==> dist[v].Inf?
  {
    dist, prev, nodes, rank, count := dist0, prev0, nodes0, map[], 0;
    while nodes != {}
      invariant Bookkeeping(graph, start, dist, prev, nodes, rank, count)
      invariant Settled(graph, dist, nodes, rank)
      decreases |nodes|
    {
      var m := SelectMin(keys, nodes, dist);
      if m.None? {
        return;
      }
      dist, prev, nodes, rank := Visit(graph, start, m.value, dist, prev, nodes, rank, count);
      count := count + 1;
    }
  }

  /**
   * When the loop stops (no node left, or only unreachable ones) the tables
   * answer the postcondition of Dijkstra.
   */
  lemma Finished(graph: Graph, start: nat, dist: map<nat, Dist>, prev: map<nat, Option<nat>>,
                 nodes: set<nat>, rank: map<nat, nat>, count: nat)
    requires Bookkeeping(graph, start, dist, prev, nodes, rank, count)
    requires Settled(graph, dist, nodes, rank)
    requires forall v :: v in nodes ==> dist[v].Inf?
    ensures forall v :: v in prev && prev[v].Some? ==>
              Edge(graph, prev[v].value, v) && dist[prev[v].value].Fin?
              && dist[v] == Fin(dist[prev[v].value].value + graph[prev[v].value][v])
    ensures forall v :: v in prev && prev[v].Some? ==>
              prev[v].value in rank && v in rank && rank[prev[v].value] < rank[v]
    ensures NonNegative(graph) ==>
              forall p :: IsWalkFrom(graph, start, p) ==>
                Last(p) in dist && AtMost(dist[Last(p)], Fin(WalkLength(graph, p)))
  {
    forall v | v in prev && prev[v].Some?
      ensures Edge(graph, prev[v].value, v) && dist[prev[v].value].Fin?
      ensures dist[v] == Fin(dist[prev[v].value].value + graph[prev[v].value][v])
      ensures prev[v].value in rank && v in rank && rank[prev[v].value] < rank[v]
    {
      FinishedLink(graph, start, dist, prev, nodes, rank, count, v);
    }
    if NonNegative(graph) {
      FinishedWalks(graph, start, dist, prev, nodes, rank, count);
    }
  }

  /** A previous link left at the end joins two removed nodes. */
  lemma FinishedLink(graph: Graph, start: nat, dist: map<nat, Dist>, prev: map<nat, Option<nat>>,
                     nodes: set<nat>, rank: map<nat, nat>, count: nat, v: nat)
    requires Bookkeeping(graph, start, dist, prev, nodes, rank, count)
    requires forall v :: v in nodes ==> dist[v].Inf?
    requires v in prev && prev[v].Some?
    ensures PrevLink(graph, dist, rank, prev[v].value, v) && v in rank
  {
    assert PrevLink(graph, dist, rank, prev[v].value, v);
    assert v !in nodes;
  }

  /** At the end every walk from start is at least as long as the distance of its last node. */
  lemma FinishedWalks(graph: Graph, start: nat, dist: map<nat, Dist>, prev: map<nat, Option<nat>>,
                      nodes: set<nat>, rank: map<nat, nat>, count: nat)
    requires Bookkeeping(graph, start, dist, prev, nodes, rank, count)
    requires Settled(graph, dist, nodes, rank)
    requires forall v :: v in nodes ==> dist[v].Inf?
    requires NonNegative(graph)
    ensures forall p :: IsWalkFrom(graph, start, p) ==>
              Last(p) in dist && AtMost(dist[Last(p)], Fin(WalkLength(graph, p)))
  {
    forall p | IsWalkFrom(graph, start, p)
      ensures Last(p) in dist && AtMost(dist[Last(p)], Fin(WalkLength(graph, p)))
    {
      WalkBound(graph, start, dist, prev, nodes, rank, count, p);
    }
  }

  /** The initialisation forEach: every key at Infinity, without previous, in the set. */
  method InitTables(keys: seq<nat>) returns (dist: map<nat, Dist>, prev: map<nat, Option<nat>>, nodes: set<nat>)
    ensures dist.Keys == prev.Keys == nodes
    ensures forall k :: k in nodes <==> k in keys
    ensures forall k :: k in dist ==> dist[k] == Inf && prev[k] == None
  {
    dist, prev := map[], map[];
    nodes := {};
    var i := 0;
    while i < |keys|
      invariant 0 <= i <= |keys|
      invariant dist.Keys == prev.Keys == nodes && nodes == set j | 0 <= j < i :: keys[j]
      invariant forall k :: k in dist ==> dist[k] == Inf && prev[k] == None
    {
      dist := dist[keys[i] := Inf];
      prev := prev[keys[i] := None];
      nodes := nodes + {keys[i]};
      i := i + 1;
    }
  }

  /** One round of the main loop after the scan found u: delete u, relax its edges. */
  method Visit(graph: Graph, start: nat, u: nat, dist: map<nat, Dist>, prev: map<nat, Option<nat>>,
               nodes: set<nat>, ghost rank: map<nat, nat>, ghost count: nat)
    returns (dist': map<nat, Dist>, prev': map<nat, Option<nat>>, nodes': set<nat>, ghost rank': map<nat, nat>)
    requires Bookkeeping(graph, start, dist, prev, nodes, rank, count)
    requires Settled(graph, dist, nodes, rank)
    requires u in nodes && dist[u].Fin? && forall k :: k in nodes ==> AtMost(dist[u], dist[k])
    ensures nodes' == nodes - {u}
    ensures Bookkeeping(graph, start, dist', prev', nodes', rank', count + 1)
    ensures Settled(graph, dist', nodes', rank')
  {
    nodes' := nodes - {u};
    rank' := rank[u := count];
    dist', prev' := RelaxNeighbors(graph, u, dist[u].value, nodes', dist, prev);
    FactsAfterVisit(graph, start, u, dist, dist', prev, prev', nodes, rank, count);
    PrevLinksAfterVisit(graph, u, dist, dist', prev, prev', nodes, nodes', rank, count);
    if NonNegative(graph) {
      SettledAfterVisit(graph, u, dist, dist', prev, prev', nodes, nodes', rank, rank');
    }
  }

  lemma FactsAfterVisit(graph: Graph, start: nat, u: nat, dist: map<nat, Dist>, dist': map<nat, Dist>,
                        prev: map<nat, Option<nat>>, prev': map<nat, Option<nat>>,
                        nodes: set<nat>, rank: map<nat, nat>, count: nat)
    requires Shape(graph, start, dist, prev, nodes, rank, count)
    requires StartFacts(graph, start, dist, prev, nodes)
    requires ReachedFacts(graph, start, dist, prev, rank)
    requires u in nodes && dist[u].Fin?
    requires RelaxedFrom(graph, u, dist[u].value, nodes - {u}, dist, prev, dist', prev')
    ensures Shape(graph, start, dist', prev', nodes - {u}, rank[u := count], count + 1)
    ensures StartFacts(graph, start, dist', prev', nodes - {u})
    ensures ReachedFacts(graph, start, dist', prev', rank[u := count])
  {
    assert start in nodes ==> u == start;
  }

  lemma PrevLinksAfterVisit(graph: Graph, u: nat, dist: map<nat, Dist>, dist': map<nat, Dist>,
                            prev: map<nat, Option<nat>>, prev': map<nat, Option<nat>>,
                            nodes: set<nat>, nodes': set<nat>, rank: map<nat, nat>, count: nat)
    requires u in nodes && u in graph && nodes <= graph.Keys && nodes' == nodes - {u}
    requires forall k :: k in rank ==> rank[k] < count
    requires rank.Keys == graph.Keys - nodes
    requires dist'.Keys == dist.Keys && graph.Keys <= dist.Keys && prev'.Keys == prev.Keys == graph.Keys
    requires dist[u].Fin?
    requires forall v :: v in prev && prev[v].Some? ==> PrevLink(graph, dist, rank, prev[v].value, v)
    requires RelaxedFrom(graph, u, dist[u].value, nodes', dist, prev, dist', prev')
    ensures forall v :: v in prev' && prev'[v].Some? ==> PrevLink(graph, dist', rank[u := count], prev'[v].value, v)
  {
    var rank' := rank[u := count];
    forall v | v in prev' && prev'[v].Some? ensures PrevLink(graph, dist', rank', prev'[v].value, v) {
      if v in nodes' && v in graph[u] && Below(Fin(dist[u].value + graph[u][v]), dist[v]) {
        assert dist'[u] == dist[u];
        assert v !in rank';
      } else {
        var w := prev[v].value;
        assert PrevLink(graph, dist, rank, w, v);
        assert dist'[w] == dist[w];
      }
    }
  }

  lemma SettledAfterVisit(graph: Graph, u: nat, dist: map<nat, Dist>, dist': map<nat, Dist>,
                          prev: map<nat, Option<nat>>, prev': map<nat, Option<nat>>,
                          nodes: set<nat>, nodes': set<nat>, rank: map<nat, nat>, rank': map<nat, nat>)
    requires NonNegative(graph) && Settled(graph, dist, nodes, rank)
    requires u in nodes && u in graph && nodes <= graph.Keys && nodes' == nodes - {u}
    requires rank'.Keys == rank.Keys + {u} && rank.Keys == graph.Keys - nodes
    requires dist'.Keys == dist.Keys && graph.Keys <= dist.Keys
    requires dist[u].Fin? && forall k :: k in nodes ==> AtMost(dist[u], dist[k])
    requires forall k :: k in rank ==> dist[k].Fin?
    requires nodes <= prev.Keys
    requires RelaxedFrom(graph, u, dist[u].value, nodes', dist, prev, dist', prev')
    ensures Settled(graph, dist', nodes', rank')
  {
    forall v | v in dist ensures AtMost(dist'[v], dist[v]) {
    }
    forall a, b | a in rank' && b in nodes' && a in dist' && b in dist' ensures AtMost(dist'[a], dist'[b]) {
      assert dist'[a] == dist[a];
      assert AtMost(dist[a], dist[u]);
    }
    forall a, v | a in rank' && Edge(graph, a, v) && a in dist' && v in dist' && dist'[a].Fin?
      ensures AtMost(dist'[v], Fin(dist'[a].value + graph[a][v]))
    {
      assert dist'[a] == dist[a];
      if a == u {
        if v !in nodes' {
          assert graph[u][v] >= 0.0;
          if v != u {
            assert v in rank;
            assert AtMost(dist[v], dist[u]);
          }
        }
      } else {
        assert AtMost(dist[v], Fin(dist[a].value + graph[a][v]));
      }
    }
  }

  /** Induction over a walk: each of its prefixes is bounded by the distances. */
  lemma {:induction false} WalkBound(graph: Graph, start: nat, dist: map<nat, Dist>, prev: map<nat, Option<nat>>,
                                     nodes: set<nat>, rank: map<nat, nat>, count: nat, p: seq<nat>)
    requires Bookkeeping(graph, start, dist, prev, nodes, rank, count)
    requires Settled(graph, dist, nodes, rank) && NonNegative(graph)
    requires forall k :: k in nodes ==> dist[k].Inf?
    requires IsWalkFrom(graph, start, p)
    ensures Last(p) in dist && AtMost(dist[Last(p)], Fin(WalkLength(graph, p)))
    decreases |p|
  {
    if |p| > 1 {
      var p' := p[..|p| - 1];
      assert IsWalkFrom(graph, start, p');
      WalkBound(graph, start, dist, prev, nodes, rank, count, p');
      var u, v := Last(p'), Last(p);
      assert Edge(graph, u, v);
      assert u in rank;
    }
  }

  // ---------------------------------------------------------------------------
  // reconstructPath
  // ---------------------------------------------------------------------------

  /**
   * previous never loops back: every link goes to a key, and from a node
   * with a smaller rank (dijkstra's removal order).
   */
  ghost predicate Acyclic(prev: map<nat, Option<nat>>, rank: map<nat, nat>)
  {
    forall v :: v in prev && prev[v].Some? ==>
      prev[v].value in prev && prev[v].value in rank && v in rank && rank[prev[v].value] < rank[v]
  }

  /** previous[b] is a. */
  predicate Link(prev: map<nat, Option<nat>>, a: nat, b: nat)
  {
    b in prev && prev[b] == Some(a)
  }

  /** p follows previous backwards from its last node to a node without one. */
  predicate IsChain(prev: map<nat, Option<nat>>, p: seq<nat>)
  {
    |p| >= 1 && p[0] in prev && prev[p[0]].None?
    && forall i :: 0 <= i < |p| - 1 ==> Link(prev, p[i], p[i + 1])
  }

  ghost function ChainMeasure(cur: Option<nat>, rank: map<nat, nat>): nat
  {
    match cur
    case None => 0
    case Some(x) => 1 + (if x in rank then rank[x] + 1 else 0)
  }

  /**
   * reconstructPath: follow previous from the end node, putting each node
   * in front, until a null link. The start node is not read. The walk
   * stops only at a null entry: an end node that is not a key of previous
   * would be followed through `undefined` forever, so end must be a key.
   */
  method ReconstructPath(prev: map<nat, Option<nat>>, start: nat, end: nat, ghost rank: map<nat, nat>)
    returns (path: seq<nat>)
    requires end in prev
    requires Acyclic(prev, rank)
    ensures IsChain(prev, path) && path[|path| - 1] == end
    ensures prev[end].None? ==> path == [end]
  {
    path := [];
    var cur := Some(end);
    while cur.Some?
      invariant path == [] ==> cur == Some(end)
      invariant path != [] ==> path[|path| - 1] == end && path[0] in prev && cur == prev[path[0]]
      invariant path != [] && prev[end].None? ==> path == [end]
      invariant cur.Some? ==> cur.value in prev
      invariant forall i :: 0 <= i < |path| - 1 ==> Link(prev, path[i], path[i + 1])
      decreases ChainMeasure(cur, rank)
    {
      var node := cur.value;
      ghost var old_path := path;
      path := [node] + path;
      forall i | 0 <= i < |path| - 1 ensures Link(prev, path[i], path[i + 1]) {
        if i > 0 {
          assert path[i + 1] == old_path[i] && path[i] == old_path[i - 1];
          assert Link(prev, old_path[i - 1], old_path[i]);
        }
      }
      cur := prev[node];
    }
  }

  /**
   * Along a chain that dijkstra's previous table produced, the distance of
   * each node is the length of the chain up to it, and the chain starts at
   * the start node: it is a walk from start of length dist[end].
   */
  lemma {:induction false} ChainLength(graph: Graph, start: nat, dist: map<nat, Dist>, prev: map<nat, Option<nat>>,
                                       path: seq<nat>)
    requires dist.Keys == graph.Keys + {start} && prev.Keys == graph.Keys
    requires dist[start] == Fin(0.0)
    requires forall v :: v in graph && v != start ==> (prev[v].None? <==> dist[v].Inf?)
    requires forall v :: v in prev && prev[v].Some? ==>
               Edge(graph, prev[v].value, v) && dist[prev[v].value].Fin?
               && dist[v] == Fin(dist[prev[v].value].value + graph[prev[v].value][v])
    requires IsChain(prev, path) && Last(path) in dist && dist[Last(path)].Fin?
    ensures IsWalkFrom(graph, start, path)
    ensures WalkLength(graph, path) == dist[Last(path)].value
    decreases |path|
  {
    if |path| == 1 {
      assert path[0] == start;
    } else {
      var p' := path[..|path| - 1];
      assert Link(prev, path[|path| - 2], path[|path| - 1]);
      assert Last(path) in prev && prev[Last(path)] == Some(Last(p'));
      assert IsChain(prev, p') by {
        forall i | 0 <= i < |p'| - 1 ensures Link(prev, p'[i], p'[i + 1]) {
          assert p'[i + 1] == path[i + 1] && p'[i] == path[i];
        }
      }
      ChainLength(graph, start, dist, prev, p');
      assert Edge(graph, Last(p'), Last(path));
      assert EdgesOk(graph, path) by {
        forall i | 0 <= i < |path| - 1 ensures Edge(graph, path[i], path[i + 1]) {
          if i < |path| - 2 {
            assert path[i] == p'[i] && path[i + 1] == p'[i + 1];
          }
        }
      }
      assert path[..|path| - 1] == p';
    }
  }

  /**
   * With non-negative edges, the path reconstructed from dijkstra's tables
   * for a reached end node is a walk from start to end that no other walk
   * from start to end undercuts.
   */
  lemma ReconstructedPathIsShortest(graph: Graph, start: nat, dist: map<nat, Dist>, prev: map<nat, Option<nat>>,
                                    path: seq<nat>)
    requires dist.Keys == graph.Keys + {start} && prev.Keys == graph.Keys
    requires dist[start] == Fin(0.0)
    requires forall v :: v in graph && v != start ==> (prev[v].None? <==> dist[v].Inf?)
    requires forall v :: v in prev && prev[v].Some? ==>
               Edge(graph, prev[v].value, v) && dist[prev[v].value].Fin?
               && dist[v] == Fin(dist[prev[v].value].value + graph[prev[v].value][v])
    requires forall p :: IsWalkFrom(graph, start, p) ==>
               Last(p) in dist && AtMost(dist[Last(p)], Fin(WalkLength(graph, p)))
    requires IsChain(prev, path) && Last(path) in dist && dist[Last(path)].Fin?
    ensures IsWalkFrom(graph, start, path) && WalkLength(graph, path) == dist[Last(path)].value
    ensures forall q :: IsWalkFrom(graph, start, q) && Last(q) == Last(path) ==>
              WalkLength(graph, path) <= WalkLength(graph, q)
  {
    ChainLength(graph, start, dist, prev, path);
  }

  // ---------------------------------------------------------------------------
  // buildGraph
  // ---------------------------------------------------------------------------

  /** The station columns buildGraph reads. */
  datatype Station = Station(id: nat, latitude: real, longitude: real)

  function Ids(stations: seq<Station>): (ids: set<nat>)
    ensures forall k :: 0 <= k < |stations| ==> stations[k].id in ids
    ensures forall id :: id in ids ==> exists k :: 0 <= k < |stations| && stations[k].id == id
  {
    set k | 0 <= k < |stations| :: stations[k].id
  }

  /** The last station carrying the id: with repeated ids, the one whose write survives. */
  function LastWithId(stations: seq<Station>, id: nat): (s: Station)
    requires id in Ids(stations)
    ensures s in stations && s.id == id
    decreases |stations|
  {
    var n := |stations| - 1;
    if stations[n].id == id then stations[n]
    else
      var k :| 0 <= k < |stations| && stations[k].id == id;
      assert stations[k] == stations[..n][k];
      LastWithId(stations[..n], id)
  }

  lemma LastWithIdAppend(stations: seq<Station>, s: Station, id: nat)
    requires id in Ids(stations) || s.id == id
    ensures id in Ids(stations + [s])
    ensures LastWithId(stations + [s], id) == if s.id == id then s else LastWithId(stations, id)
  {
    assert (stations + [s])[|stations|] == s;
    assert (stations + [s])[..|stations|] == stations;
  }

  /** With distinct ids, the last station with an id is the only one. */
  lemma LastWithUniqueId(stations: seq<Station>, i: nat)
    requires i < |stations|
    requires forall a, b :: 0 <= a < b < |stations| ==> stations[a].id != stations[b].id
    ensures LastWithId(stations, stations[i].id) == stations[i]
  {
    var s := LastWithId(stations, stations[i].id);
    var k :| 0 <= k < |stations| && stations[k] == s;
    assert k == i;
  }

  /**
   * buildGraph as written: for two stations with different ids it calls the
   * four-argument calculateDistance (the later definition shadows the
   * async one), gets a number back and reads `distance[0].distance`, which
   * is `undefined.distance` and throws. It returns a graph only when all
   * stations share one id, and then every row is empty.
   */
  method BuildGraphAsWritten(stations: seq<Station>) returns (r: Outcome<Graph>)
    ensures r.TypeError? <==> exists i, j :: 0 <= i < |stations| && 0 <= j < |stations| && stations[i].id != stations[j].id
    ensures r.Ok? ==> r.value == if stations == [] then map[] else map[stations[0].id := map[]]
  {
    var graph: Graph := map[];
    var i := 0;
    while i < |stations|
      invariant 0 <= i <= |stations|
      invariant forall a, b :: 0 <= a < i && 0 <= b < |stations| ==> stations[a].id == stations[b].id
      invariant graph == if i == 0 then map[] else map[stations[0].id := map[]]
    {
      var station := stations[i];
      graph := graph[station.id := map[]];
      var j := 0;
      while j < |stations|
        invariant 0 <= j <= |stations|
        invariant forall b :: 0 <= b < j ==> stations[b].id == station.id
      {
        if station.id != stations[j].id {
          return TypeError;
        }
        j := j + 1;
      }
      i := i + 1;
    }
    return Ok(graph);
  }

  /**
   * buildGraph with the distance it evidently meant, `distance(station,
   * other)` for every ordered pair of stations with different ids: one row
   * per id, holding every other id. A repeated id rebuilds its row from the
   * later station, so the last station with each id decides the entries.
   */
  method BuildGraph(stations: seq<Station>, distance: (Station, Station) -> real) returns (graph: Graph)
    ensures graph.Keys == Ids(stations)
    ensures forall a :: a in graph ==> graph[a].Keys == Ids(stations) - {a}
    ensures forall a, b :: a in graph && b in graph[a] ==>
              graph[a][b] == distance(LastWithId(stations, a), LastWithId(stations, b))
  {
    graph := map[];
    var i := 0;
    while i < |stations|
      invariant 0 <= i <= |stations|
      invariant GraphSoFar(stations, distance, graph, i)
    {
      var row := BuildRow(stations, stations[i], distance);
      GraphStep(stations, distance, graph, i, row);
      graph := graph[stations[i].id := row];
      i := i + 1;
    }
    assert stations[..i] == stations;
  }

  /** The graph after the rows of the first i stations. */
  ghost predicate GraphSoFar(stations: seq<Station>, distance: (Station, Station) -> real, graph: Graph, i: nat)
    requires i <= |stations|
  {
    graph.Keys == Ids(stations[..i])
    && RowsKeyed(stations, graph)
    && EntriesFrom(stations, distance, graph, stations[..i])
  }

  /** Every row holds exactly the ids other than its own. */
  ghost predicate RowsKeyed(stations: seq<Station>, graph: Graph)
  {
    forall a :: a in graph ==> graph[a].Keys == Ids(stations) - {a}
  }

  /** Each row was written from the last station in `prefix` with its id. */
  ghost predicate EntriesFrom(stations: seq<Station>, distance: (Station, Station) -> real, graph: Graph, prefix: seq<Station>)
    requires graph.Keys == Ids(prefix) && RowsKeyed(stations, graph)
  {
    forall a, b :: a in graph && b in graph[a] ==>
      graph[a][b] == distance(LastWithId(prefix, a), LastWithId(stations, b))
  }

  /** The inner loop of buildGraph: the row of one station, one entry per other id. */
  method BuildRow(stations: seq<Station>, station: Station, distance: (Station, Station) -> real)
    returns (row: map<nat, real>)
    ensures row.Keys == Ids(stations) - {station.id}
    ensures forall b :: b in row ==> row[b] == distance(station, LastWithId(stations, b))
  {
    row := map[];
    var j := 0;
    while j < |stations|
      invariant 0 <= j <= |stations|
      invariant row.Keys == Ids(stations[..j]) - {station.id}
      invariant forall b :: b in row ==> row[b] == distance(station, LastWithId(stations[..j], b))
    {
      var other := stations[j];
      LastWithIdAppendAll(stations[..j], other);
      assert stations[..j + 1] == stations[..j] + [other];
      if station.id != other.id {
        row := row[other.id := distance(station, other)];
      }
      j := j + 1;
    }
    assert stations[..j] == stations;
  }

  /** Writing the row of station i extends the graph by that station. */
  lemma GraphStep(stations: seq<Station>, distance: (Station, Station) -> real, graph: Graph, i: nat, row: map<nat, real>)
    requires i < |stations| && GraphSoFar(stations, distance, graph, i)
    requires row.Keys == Ids(stations) - {stations[i].id}
    requires forall b :: b in row ==> row[b] == distance(stations[i], LastWithId(stations, b))
    ensures GraphSoFar(stations, distance, graph[stations[i].id := row], i + 1)
  {
    assert stations[..i + 1] == stations[..i] + [stations[i]];
    EntriesStep(stations, distance, graph, stations[..i], stations[i], row);
  }

  /** Adding the row of station `st` after the rows of `prefix`. */
  lemma EntriesStep(stations: seq<Station>, distance: (Station, Station) -> real, graph: Graph,
                    prefix: seq<Station>, st: Station, row: map<nat, real>)
    requires graph.Keys == Ids(prefix) && RowsKeyed(stations, graph)
    requires EntriesFrom(stations, distance, graph, prefix)
    requires row.Keys == Ids(stations) - {st.id}
    requires forall b :: b in row ==> row[b] == distance(st, LastWithId(stations, b))
    ensures graph[st.id := row].Keys == Ids(prefix + [st])
    ensures RowsKeyed(stations, graph[st.id := row])
    ensures EntriesFrom(stations, distance, graph[st.id := row], prefix + [st])
  {
    IdsAppend(prefix, st);
    var g' := graph[st.id := row];
    assert RowsKeyed(stations, g');
    forall a, b | a in g' && b in g'[a]
      ensures g'[a][b] == distance(LastWithId(prefix + [st], a), LastWithId(stations, b))
    {
      LastWithIdAppend(prefix, st, a);
      if a != st.id {
        assert g'[a] == graph[a];
      }
    }
  }

  lemma IdsAppend(stations: seq<Station>, s: Station)
    ensures Ids(stations + [s]) == Ids(stations) + {s.id}
  {
    forall id | id in Ids(stations + [s]) ensures id in Ids(stations) + {s.id} {
      var k :| 0 <= k < |stations + [s]| && (stations + [s])[k].id == id;
      if k < |stations| {
        assert stations[k] == (stations + [s])[k];
      }
    }
    assert (stations + [s])[|stations|] == s;
    forall k | 0 <= k < |stations| ensures stations[k].id in Ids(stations + [s]) {
      assert stations[k] == (stations + [s])[k];
    }
  }

  lemma LastWithIdAppendAll(stations: seq<Station>, s: Station)
    ensures Ids(stations + [s]) == Ids(stations) + {s.id}
    ensures forall id :: id in Ids(stations + [s]) ==>
              LastWithId(stations + [s], id) == if s.id == id then s else LastWithId(stations, id)
  {
    forall id | id in Ids(stations + [s])
      ensures LastWithId(stations + [s], id) == if s.id == id then s else LastWithId(stations, id)
    {
      if s.id != id {
        var k :| 0 <= k < |stations + [s]| && (stations + [s])[k].id == id;
        assert k < |stations| && stations[k] == (stations + [s])[k];
      }
      LastWithIdAppend(stations, s, id);
    }
    IdsAppend(stations, s);
  }

  /**
   * With distinct station ids, the entry for a pair is the distance between
   * those two stations; a non-negative distance gives a non-negative graph.
   */
  lemma BuildGraphEntries(stations: seq<Station>, distance: (Station, Station) -> real, graph: Graph)
    requires forall a, b :: 0 <= a < b < |stations| ==> stations[a].id != stations[b].id
    requires graph.Keys == Ids(stations)
    requires forall a :: a in graph ==> graph[a].Keys == Ids(stations) - {a}
    requires forall a, b :: a in graph && b in graph[a] ==>
               graph[a][b] == distance(LastWithId(stations, a), LastWithId(stations, b))
    ensures forall i, j :: 0 <= i < |stations| && 0 <= j < |stations| && i != j ==>
              Edge(graph, stations[i].id, stations[j].id)
              && graph[stations[i].id][stations[j].id] == distance(stations[i], stations[j])
    ensures (forall s, t :: distance(s, t) >= 0.0) ==> NonNegative(graph)
  {
    forall i, j | 0 <= i < |stations| && 0 <= j < |stations| && i != j
      ensures Edge(graph, stations[i].id, stations[j].id)
      ensures graph[stations[i].id][stations[j].id] == distance(stations[i], stations[j])
    {
      LastWithUniqueId(stations, i);
      LastWithUniqueId(stations, j);
      assert stations[i].id != stations[j].id by {
        if i < j {} else {}
      }
    }
    if forall s, t :: distance(s, t) >= 0.0 {
      forall u, v | u in graph && v in graph[u] ensures graph[u][v] >= 0.0 {
        assert graph[u][v] == distance(LastWithId(stations, u), LastWithId(stations, v));
      }
    }
  }
}

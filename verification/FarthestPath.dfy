/** What `my_path` is after: a shortest path between odd nodes that lie as far apart as possible. */
module FarthestPath {
  import opened ArcSets
  import opened Lists
  import opened Adjacency
  import opened Dijkstra

  /** No walk between the ends of `p` is shorter. */
  ghost predicate Shortest(E: set<Arc>, p: seq<Node>) {
    Walk(E, p) && forall q :: WalkTo(E, q, p[0], p[|p|-1]) ==> |p| <= |q|
  }

  /** Some walk from `x` to `y` has at most `n` nodes. */
  ghost predicate Near(E: set<Arc>, x: Node, y: Node, n: nat) {
    exists q :: WalkTo(E, q, x, y) && |q| <= n
  }

  /** A shortest path, used as a trail, between two different odd nodes. */
  ghost predicate OddPath(E: set<Arc>, odd: set<Node>, p: seq<Node>) {
    Trail(p) && TrailArcs(p) <= E && p[0] in odd && p[|p|-1] in odd && p[0] != p[|p|-1] && Shortest(E, p)
  }

  /** `dict_copy` of the component with weight 1 on every edge. */
  function UnitEdges(s: seq<Node>): (r: seq<Edge>)
    ensures |r| == |s| && forall i :: 0 <= i < |s| ==> r[i] == Edge(s[i], 1)
  {
    seq(|s|, i requires 0 <= i < |s| => Edge(s[i], 1))
  }

  function Distances(g: Adj, keys: seq<Node>): Weighted
    requires forall x :: x in keys ==> x in g
  {
    map x | x in keys :: UnitEdges(g[x])
  }

  /** The unit-weight graph of a component, seen from its arcs. */
  ghost predicate UnitGraph(G: Weighted, E: set<Arc>, C: set<Node>) {
    WellWeighted(G) && G.Keys == C && Closed(E, C) &&
    forall x, e: Edge :: x in C ==> (e in G[x] <==> e.weight == 1 && Arc(x, e.to) in E)
  }

  lemma {:induction false} DistancesEdges(g: Adj, keys: seq<Node>)
    requires Proper(g) && (forall x :: x in keys ==> x in g) && Closed(ArcsOf(g), Elems(keys))
    ensures UnitGraph(Distances(g, keys), ArcsOf(g), Elems(keys))
  {
    var G := Distances(g, keys);
    assert G.Keys == Elems(keys);
    forall x, e: Edge | x in Elems(keys) ensures e in G[x] <==> e.weight == 1 && Arc(x, e.to) in ArcsOf(g) {
      if e.weight == 1 && Arc(x, e.to) in ArcsOf(g) {
        var i :| 0 <= i < |g[x]| && g[x][i] == e.to;
        assert G[x][i] == e;
      }
    }
    forall x, e: Edge | x in G && e in G[x] ensures e.to in G {
      assert x in Elems(keys) && Arc(x, e.to) in ArcsOf(g);
      assert e.to in Elems(keys);
    }
  }

  lemma {:induction false} WalkIsRoute(G: Weighted, E: set<Arc>, C: set<Node>, q: seq<Node>) returns (steps: seq<Edge>)
    requires UnitGraph(G, E, C) && Walk(E, q) && q[0] in C
    ensures RouteTo(G, q[0], q[|q|-1], steps) && Cost(steps) == |q| - 1
    decreases |q|
  {
    if |q| == 1 {
      steps := [];
    } else {
      var r := q[1..];
      assert Arc(q[0], q[1]) in E;
      assert Walk(E, r) by {
        forall i | 0 <= i < |r| - 1 ensures Arc(r[i], r[i+1]) in E {
          assert Arc(q[i+1], q[i+2]) in E;
        }
      }
      var rest := WalkIsRoute(G, E, C, r);
      steps := [Edge(q[1], 1)] + rest;
      assert steps[1..] == rest;
    }
  }

  /** Along a path from Dijkstra every hop lowers the distance by one. */
  lemma {:induction false} DescendBy(G: Weighted, E: set<Arc>, C: set<Node>, d: map<Node, Dist>, p: seq<Node>,
                                     s: Node, i: nat)
    requires UnitGraph(G, E, C) && d.Keys == G.Keys && Descends(G, d, p, s) && i < |p|
    ensures p[i] in d && d[p[i]].Fin? && p[0] in d && d[p[0]].Fin? && d[p[i]].n + i == d[p[0]].n
    ensures i > 0 ==> Arc(p[i], p[i-1]) in E
  {
    assert p[i] in p && p[0] in p;
    if i > 0 {
      DescendBy(G, E, C, d, p, s, i - 1);
      assert Hop(G, d, p[i-1+1], p[i-1]);
    }
  }

  lemma {:induction false} DistinctWalkIsTrail(E: set<Arc>, p: seq<Node>)
    requires Simple(E) && Walk(E, p) && Distinct(p)
    ensures Trail(p) && TrailArcs(p) <= E
    decreases |p|
  {
    if |p| > 1 {
      var r := p[1..];
      assert Arc(p[0], p[1]) in E;
      assert Walk(E, r) by {
        forall i | 0 <= i < |r| - 1 ensures Arc(r[i], r[i+1]) in E {
          assert Arc(p[i+1], p[i+2]) in E;
        }
      }
      DistinctWalkIsTrail(E, r);
      TrailArcsSymmetric(r);
      assert p[0] !in r;
    }
  }

  lemma {:induction false} WalkBackwards(E: set<Arc>, q: seq<Node>)
    requires Simple(E) && Walk(E, q)
    ensures WalkTo(E, Reverse(q), q[|q|-1], q[0])
  {
    var r := Reverse(q);
    forall i | 0 <= i < |r| - 1 ensures Arc(r[i], r[i+1]) in E {
      assert Arc(q[|q|-2-i], q[|q|-1-i]) in E;
    }
  }

  /** Dijkstra's path to `v` is a shortest trail, of as many links as its distance. */
  lemma {:induction false} DijkstraPath(G: Weighted, E: set<Arc>, C: set<Node>, d: map<Node, Dist>, p: seq<Node>,
                                        s: Node)
    requires Simple(E) && UnitGraph(G, E, C) && s in C && d.Keys == G.Keys && d[s] == Fin(0) && Descends(G, d, p, s)
    requires forall v, steps :: RouteTo(G, s, v, steps) ==> v in d && d[v].Fin? && d[v].n <= Cost(steps)
    ensures Trail(p) && TrailArcs(p) <= E && Shortest(E, p) && |p| == d[p[0]].n + 1
  {
    forall i | 0 <= i < |p| - 1 ensures Arc(p[i], p[i+1]) in E {
      DescendBy(G, E, C, d, p, s, i + 1);
      assert Arc(p[i+1], p[i]) in E;
    }
    forall i, j | 0 <= i < j < |p| ensures p[i] != p[j] {
      DescendBy(G, E, C, d, p, s, i);
      DescendBy(G, E, C, d, p, s, j);
    }
    DistinctWalkIsTrail(E, p);
    DescendBy(G, E, C, d, p, s, |p| - 1);
    forall q | WalkTo(E, q, p[0], s) ensures |p| <= |q| {
      WalkBackwards(E, q);
      var steps := WalkIsRoute(G, E, C, Reverse(q));
      assert RouteTo(G, s, p[0], steps);
    }
  }

  /** What a run of Dijkstra from `s` delivers. */
  ghost predicate Solved(G: Weighted, s: Node, d: map<Node, Dist>, paths: map<Node, seq<Node>>) {
    d.Keys == G.Keys && s in d && d[s] == Fin(0) &&
    (forall v, steps :: RouteTo(G, s, v, steps) ==> v in d && d[v].Fin? && d[v].n <= Cost(steps)) &&
    (forall v :: v in paths <==> v in G && d[v].Fin?) &&
    forall v :: v in paths ==> Descends(G, d, paths[v], s) && paths[v][0] == v
  }

  /** `paths[y]` is a shortest trail from `y` to `s`, one link for each unit of distance. */
  ghost predicate PathFrom(E: set<Arc>, d: map<Node, Dist>, paths: map<Node, seq<Node>>, s: Node, y: Node) {
    y in d && d[y].Fin? && y in paths && Near(E, s, y, d[y].n + 1) &&
    var p := paths[y];
    Trail(p) && TrailArcs(p) <= E && Shortest(E, p) && p[0] == y && p[|p|-1] == s && |p| == d[y].n + 1
  }

  /** Every member of the component is reached, by a shortest trail as long as its distance. */
  lemma {:induction false} SolvedPath(G: Weighted, E: set<Arc>, S: seq<Node>, d: map<Node, Dist>,
                                      paths: map<Node, seq<Node>>, s: Node, y: Node)
    requires Simple(E) && UnitGraph(G, E, Elems(S)) && Component(E, S) && s in S && y in S && Solved(G, s, d, paths)
    ensures PathFrom(E, d, paths, s, y)
  {
    hide Component, Reachable, UnitGraph, Descends, Trail, TrailArcs, Simple;
    ComponentConnected(E, S, s, y);
    ReachableByWalk(E, s, y);
    var q :| WalkTo(E, q, s, y);
    assert s in Elems(S);
    var steps := WalkIsRoute(G, E, Elems(S), q);
    assert RouteTo(G, s, y, steps);
    TracedPath(G, E, Elems(S), d, paths, s, y);
  }

  /** A traced path is a shortest trail, and backwards a walk as long. */
  lemma {:induction false} TracedPath(G: Weighted, E: set<Arc>, C: set<Node>, d: map<Node, Dist>,
                                      paths: map<Node, seq<Node>>, s: Node, y: Node)
    requires Simple(E) && UnitGraph(G, E, C) && s in C && Solved(G, s, d, paths) && y in paths
    ensures PathFrom(E, d, paths, s, y)
  {
    DijkstraPath(G, E, C, d, paths[y], s);
    WalkBackwards(E, paths[y]);
    assert WalkTo(E, Reverse(paths[y]), s, y);
    hide UnitGraph, Trail, TrailArcs, Simple;
  }

  // ---- the loops of my_path ----

  /** `max(d.items(), key=lambda x: x[1])[0]` over the odd nodes: the index of the first farthest one. */
  method FarthestOf(odd: seq<Node>, d: map<Node, Dist>) returns (k: nat)
    requires odd != [] && forall i :: 0 <= i < |odd| ==> odd[i] in d && d[odd[i]].Fin?
    ensures k < |odd| && forall i :: 0 <= i < |odd| ==> d[odd[i]].n <= d[odd[k]].n
  {
    k := 0;
    for i := 1 to |odd|
      invariant k < |odd| && forall j :: 0 <= j < i ==> d[odd[j]].n <= d[odd[k]].n
    {
      if d[odd[i]].n > d[odd[k]].n {
        k := i;
      }
    }
  }

  /** Dijkstra from `current` over the unit-weight copy of its component. */
  method RunWithin(g: Adj, subgraph: seq<Node>, current: Node) returns (d: map<Node, Dist>, paths: map<Node, seq<Node>>)
    requires Proper(g) && Component(ArcsOf(g), subgraph) &&
             (forall x :: x in subgraph ==> x in g) && current in subgraph
    ensures forall y :: y in subgraph ==> PathFrom(ArcsOf(g), d, paths, current, y)
  {
    ghost var E := ArcsOf(g);
    ProperIsSimple(g);
    DistancesEdges(g, subgraph);
    var G := Distances(g, subgraph);
    assert current in Elems(subgraph);
    d, paths := Run(G, subgraph, current);
    assert Solved(G, current, d, paths);
    forall y | y in subgraph ensures PathFrom(E, d, paths, current, y) {
      SolvedPath(G, E, subgraph, d, paths, current, y);
    }
  }

  /** The shortest path from `current` to the odd node farthest from it. */
  method FarthestFrom(g: Adj, subgraph: seq<Node>, odd: seq<Node>, current: Node) returns (p: seq<Node>)
    requires Proper(g) && Component(ArcsOf(g), subgraph) && (forall x :: x in subgraph ==> x in g)
    requires Distinct(odd) && |odd| >= 2 && current in odd && forall x :: x in odd ==> x in subgraph
    ensures OddPath(ArcsOf(g), Elems(odd), p) && p[|p|-1] == current
    ensures forall y :: y in Elems(odd) ==> Near(ArcsOf(g), current, y, |p|)
  {
    var d, paths := RunWithin(g, subgraph, current);
    forall i | 0 <= i < |odd|
      ensures odd[i] in d && d[odd[i]].Fin? && odd[i] in paths && PathFrom(ArcsOf(g), d, paths, current, odd[i])
    {
      assert odd[i] in odd;
    }
    var k := FarthestOf(odd, d);
    p := paths[odd[k]];
    FarthestIsOdd(ArcsOf(g), odd, d, paths, current, k);
  }

  lemma {:induction false} FarthestIsOdd(E: set<Arc>, odd: seq<Node>, d: map<Node, Dist>, paths: map<Node, seq<Node>>,
                                         s: Node, k: nat)
    requires forall i :: 0 <= i < |odd| ==> odd[i] in d && d[odd[i]].Fin? && odd[i] in paths
    requires forall i :: 0 <= i < |odd| ==> PathFrom(E, d, paths, s, odd[i])
    requires Distinct(odd) && |odd| >= 2 && s in odd && k < |odd|
    requires forall i :: 0 <= i < |odd| ==> d[odd[i]].n <= d[odd[k]].n
    ensures OddPath(E, Elems(odd), paths[odd[k]]) && paths[odd[k]][|paths[odd[k]]|-1] == s
    ensures forall y :: y in Elems(odd) ==> Near(E, s, y, |paths[odd[k]]|)
  {
    assert PathFrom(E, d, paths, s, odd[k]);
    forall y | y in Elems(odd) ensures Near(E, s, y, |paths[odd[k]]|) {
      var i :| 0 <= i < |odd| && odd[i] == y;
      assert PathFrom(E, d, paths, s, odd[i]);
      var q :| WalkTo(E, q, s, y) && |q| <= d[y].n + 1;
    }
    var other := if odd[0] == s then 1 else 0;
    assert PathFrom(E, d, paths, s, odd[other]) && d[odd[other]].n > 0;
    assert WalkTo(E, [s], s, s);
  }

  /** The entries of `path_len`: paths filed under their number of links. */
  ghost predicate Filed(E: set<Arc>, odd: set<Node>, pathLen: map<nat, seq<Node>>) {
    forall n :: n in pathLen ==> |pathLen[n]| == n + 1 && OddPath(E, odd, pathLen[n])
  }

  ghost predicate FiledAt(E: set<Arc>, pathLen: map<nat, seq<Node>>, x: Node, y: Node, n: nat) {
    n in pathLen && Near(E, x, y, n + 1)
  }

  ghost predicate FiledFor(E: set<Arc>, pathLen: map<nat, seq<Node>>, x: Node, y: Node) {
    exists n: nat :: FiledAt(E, pathLen, x, y, n)
  }

  /** `max(path_len.items(), key=lambda x: x[0])[1]`. */
  method Longest(pathLen: map<nat, seq<Node>>) returns (n: nat)
    requires pathLen.Keys != {}
    ensures n in pathLen && forall m :: m in pathLen ==> m <= n
  {
    n :| n in pathLen.Keys;
    var todo := pathLen.Keys - {n};
    while todo != {}
      invariant n in pathLen && todo <= pathLen.Keys && forall m :: m in pathLen && m !in todo ==> m <= n
      decreases todo
    {
      var m :| m in todo;
      todo := todo - {m};
      if m > n {
        n := m;
      }
    }
  }

  ghost predicate Served(E: set<Arc>, odd: set<Node>, pathLen: map<nat, seq<Node>>, done: set<Node>) {
    forall x, y :: x in done && y in odd ==> FiledFor(E, pathLen, x, y)
  }

  /** Filing one more path keeps what the earlier ones settled. */
  lemma {:induction false} FileMore(E: set<Arc>, odd: set<Node>, pathLen: map<nat, seq<Node>>, q: seq<Node>,
                                    done: set<Node>, current: Node)
    requires Filed(E, odd, pathLen) && OddPath(E, odd, q)
    requires Served(E, odd, pathLen, done)
    requires forall y :: y in odd ==> Near(E, current, y, |q|)
    ensures Filed(E, odd, pathLen[|q| - 1 := q])
    ensures Served(E, odd, pathLen[|q| - 1 := q], done + {current})
  {
    var more := pathLen[|q| - 1 := q];
    forall x, y | x in done + {current} && y in odd ensures FiledFor(E, more, x, y) {
      if x in done {
        assert FiledFor(E, pathLen, x, y);
        var n: nat :| FiledAt(E, pathLen, x, y, n);
        assert FiledAt(E, more, x, y, n);
      } else {
        assert FiledAt(E, more, x, y, |q| - 1);
      }
    }
  }

  /** The balanced planner: the longest of the farthest shortest paths from every odd node. */
  method Balanced(g: Adj, subgraph: seq<Node>, odd: seq<Node>) returns (p: seq<Node>)
    requires Proper(g) && Component(ArcsOf(g), subgraph) && (forall x :: x in subgraph ==> x in g)
    requires Distinct(odd) && |odd| >= 2 && forall x :: x in odd ==> x in subgraph
    ensures OddPath(ArcsOf(g), Elems(odd), p)
    ensures forall x, y :: x in Elems(odd) && y in Elems(odd) ==> Near(ArcsOf(g), x, y, |p|)
  {
    ghost var E := ArcsOf(g);
    var pathLen: map<nat, seq<Node>> := map[];
    for i := 0 to |odd|
      invariant Filed(E, Elems(odd), pathLen) && (i > 0 ==> pathLen.Keys != {})
      invariant Served(E, Elems(odd), pathLen, Elems(odd[..i]))
    {
      var q := FarthestFrom(g, subgraph, odd, odd[i]);
      FileMore(E, Elems(odd), pathLen, q, Elems(odd[..i]), odd[i]);
      pathLen := pathLen[|q| - 1 := q];
      assert |q| - 1 in pathLen.Keys;
      PrefixElems(odd, i);
    }
    assert odd[..|odd|] == odd;
    var n := Longest(pathLen);
    p := pathLen[n];
    LongestServes(E, Elems(odd), pathLen, n);
  }

  lemma {:induction false} LongestServes(E: set<Arc>, odd: set<Node>, pathLen: map<nat, seq<Node>>, n: nat)
    requires Served(E, odd, pathLen, odd) && forall m :: m in pathLen ==> m <= n
    ensures forall x, y :: x in odd && y in odd ==> Near(E, x, y, n + 1)
  {
    forall x, y | x in odd && y in odd ensures Near(E, x, y, n + 1) {
      assert FiledFor(E, pathLen, x, y);
      var m: nat :| FiledAt(E, pathLen, x, y, m);
      var q :| WalkTo(E, q, x, y) && |q| <= m + 1;
    }
  }

  /** The unbalanced planner: the same from one odd node chosen at random. */
  method Unbalanced(g: Adj, subgraph: seq<Node>, odd: seq<Node>) returns (p: seq<Node>)
    requires Proper(g) && Component(ArcsOf(g), subgraph) && (forall x :: x in subgraph ==> x in g)
    requires Distinct(odd) && |odd| >= 2 && forall x :: x in odd ==> x in subgraph
    ensures OddPath(ArcsOf(g), Elems(odd), p)
    ensures forall y :: y in Elems(odd) ==> Near(ArcsOf(g), p[|p|-1], y, |p|)
  {
    var k: nat :| k < |odd|;
    p := FarthestFrom(g, subgraph, odd, odd[k]);
  }
}

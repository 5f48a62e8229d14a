/** Single-source shortest paths over weighted adjacency lists, as the planner's `dijkstra` computes them. */
module Dijkstra {
  import opened ArcSets
  import opened Lists

  /** A neighbour and the weight of the edge to it. */
  datatype Edge = Edge(to: Node, weight: nat)

  type Weighted = map<Node, seq<Edge>>

  datatype Dist = Fin(n: nat) | Inf {
    predicate Below(other: Dist) {
      Fin? && (other.Inf? || n < other.n)
    }

    function Plus(w: nat): Dist {
      if Fin? then Fin(n + w) else Inf
    }
  }

  /** Edges stay inside the graph; a weight may be 0. */
  ghost predicate WellWeighted(G: Weighted) {
    forall u, e :: u in G && e in G[u] ==> e.to in G
  }

  // ---- routes: the specification ----

  ghost predicate Route(G: Weighted, s: Node, steps: seq<Edge>)
    decreases |steps|
  {
    s in G && (steps != [] ==> steps[0] in G[s] && Route(G, steps[0].to, steps[1..]))
  }

  ghost function Cost(steps: seq<Edge>): nat {
    if steps == [] then 0 else steps[0].weight + Cost(steps[1..])
  }

  ghost function Target(s: Node, steps: seq<Edge>): Node
    decreases |steps|
  {
    if steps == [] then s else Target(steps[0].to, steps[1..])
  }

  ghost predicate RouteTo(G: Weighted, s: Node, v: Node, steps: seq<Edge>) {
    Route(G, s, steps) && Target(s, steps) == v
  }

  /** No edge improves on `d` any further. */
  ghost predicate Relaxed(G: Weighted, d: map<Node, Dist>, x: Node, e: Edge)
    requires x in d && e.to in d
  {
    !d[x].Plus(e.weight).Below(d[e.to])
  }

  ghost predicate AllRelaxed(G: Weighted, d: map<Node, Dist>)
    requires WellWeighted(G) && d.Keys == G.Keys
  {
    forall x, e :: x in G && e in G[x] ==> Relaxed(G, d, x, e)
  }

  /** `d` bounds every route from below. */
  lemma {:induction false} RelaxedIsLowerBound(G: Weighted, d: map<Node, Dist>, x: Node, steps: seq<Edge>)
    requires WellWeighted(G) && d.Keys == G.Keys && AllRelaxed(G, d)
    requires Route(G, x, steps) && d[x].Fin?
    ensures Target(x, steps) in G && d[Target(x, steps)].Fin?
    ensures d[Target(x, steps)].n <= d[x].n + Cost(steps)
    decreases |steps|
  {
    if steps != [] {
      assert Relaxed(G, d, x, steps[0]);
      RelaxedIsLowerBound(G, d, steps[0].to, steps[1..]);
    }
  }

  /** `p` leads from its first node back to `s`, each hop an edge that accounts for the drop in `d`. */
  ghost predicate Descends(G: Weighted, d: map<Node, Dist>, p: seq<Node>, s: Node)
    requires d.Keys == G.Keys
  {
    |p| > 0 && p[|p|-1] == s && (forall x :: x in p ==> x in d && d[x].Fin?) &&
    forall i :: 0 <= i < |p| - 1 ==> Hop(G, d, p[i+1], p[i])
  }

  ghost predicate Hop(G: Weighted, d: map<Node, Dist>, x: Node, y: Node)
    requires d.Keys == G.Keys && x in d && y in d
  {
    d[x].Fin? && d[y].Fin? && exists e :: e in G[x] && e.to == y && d[y].n == d[x].n + e.weight
  }

  /** A descending path, read backwards, is a route of exactly the length `d` promises. */
  lemma {:induction false} DescendIsRoute(G: Weighted, d: map<Node, Dist>, p: seq<Node>,
                                          s: Node) returns (steps: seq<Edge>)
    requires WellWeighted(G) && d.Keys == G.Keys && s in d && d[s] == Fin(0) && Descends(G, d, p, s)
    ensures RouteTo(G, s, p[0], steps) && Cost(steps) == d[p[0]].n
    decreases |p|
  {
    if |p| == 1 {
      steps := [];
    } else {
      assert Hop(G, d, p[1], p[0]);
      var e :| e in G[p[1]] && e.to == p[0] && d[p[0]].n == d[p[1]].n + e.weight;
      var q := p[1..];
      assert Descends(G, d, q, s) by {
        forall i | 0 <= i < |q| - 1 ensures Hop(G, d, q[i+1], q[i]) {
          assert Hop(G, d, p[i+2], p[i+1]);
        }
      }
      var front := DescendIsRoute(G, d, q, s);
      RouteExtend(G, s, front, e);
      steps := front + [e];
    }
  }

  lemma {:induction false} RouteExtend(G: Weighted, s: Node, steps: seq<Edge>, e: Edge)
    requires WellWeighted(G) && Route(G, s, steps) && Target(s, steps) in G && e in G[Target(s, steps)]
    ensures RouteTo(G, s, e.to, steps + [e]) && Cost(steps + [e]) == Cost(steps) + e.weight
    decreases |steps|
  {
    if steps == [] {
      assert ([] + [e])[1..] == [];
      assert [] + [e] == [e];
    } else {
      RouteExtend(G, steps[0].to, steps[1..], e);
      assert (steps + [e])[1..] == steps[1..] + [e];
    }
  }

  // ---- the algorithm ----

  /** `min(Q, key=d.get)`: the first entry with the least distance. */
  method NearestOf(Q: seq<Node>, d: map<Node, Dist>) returns (k: nat)
    requires Q != [] && forall i :: 0 <= i < |Q| ==> Q[i] in d
    ensures k < |Q| && forall i :: 0 <= i < |Q| ==> !d[Q[i]].Below(d[Q[k]])
  {
    k := 0;
    for i := 1 to |Q|
      invariant k < |Q| && forall j :: 0 <= j < i ==> !d[Q[j]].Below(d[Q[k]])
    {
      if d[Q[i]].Below(d[Q[k]]) {
        k := i;
      }
    }
  }

  /** One relaxation: no distance goes up, none but the target's changes, and afterwards the edge improves on none. */
  method Relax(u: Node, e: Edge, d: map<Node, Dist>, predecessor: map<Node, Option<Node>>)
    returns (d': map<Node, Dist>, predecessor': map<Node, Option<Node>>)
    requires u in d && e.to in d
    ensures d'.Keys == d.Keys && !d'[u].Plus(e.weight).Below(d'[e.to])
    ensures forall x :: x in d ==> !d[x].Below(d'[x]) && (x != e.to ==> d'[x] == d[x])
    ensures d'[e.to] in {d[e.to], d[u].Plus(e.weight)}
    ensures if d' == d then predecessor' == predecessor else predecessor' == predecessor[e.to := Some(u)]
  {
    d', predecessor' := d, predecessor;
    if d[u].Plus(e.weight).Below(d[e.to]) {
      d' := d[e.to := d[u].Plus(e.weight)];
      predecessor' := predecessor[e.to := Some(u)];
    }
  }

  /** Entries outside `Q` are settled: nothing in `Q` lies below them. */
  ghost predicate Settled(G: Weighted, s: Node, Q: seq<Node>, d: map<Node, Dist>) {
    d.Keys == G.Keys && s in d && d[s] == Fin(0) && (forall i :: 0 <= i < |Q| ==> Q[i] in G) && Distinct(Q) &&
    forall x, y :: x in G && x !in Q && y in Q ==> !d[y].Below(d[x])
  }

  /** `u`, just settled, lies between everything settled and everything still queued. */
  ghost predicate Frontier(G: Weighted, Q: seq<Node>, d: map<Node, Dist>, u: Node)
    requires d.Keys == G.Keys && u in d && forall i :: 0 <= i < |Q| ==> Q[i] in G
  {
    (forall x :: x in G && x !in Q ==> !d[u].Below(d[x])) && forall y :: y in Q ==> !d[y].Below(d[u])
  }

  /** Predecessors are settled and account for the distance of their successor. */
  ghost predicate Predecessors(G: Weighted, s: Node, Q: seq<Node>, d: map<Node, Dist>, pred: map<Node, Option<Node>>)
    requires d.Keys == G.Keys
  {
    s in pred && pred[s] == None &&
    (forall v :: v in pred <==> v in G && d[v].Fin?) &&
    forall v :: v in pred && v != s ==>
      pred[v].Some? && pred[v].value in G && pred[v].value !in Q && Hop(G, d, pred[v].value, v)
  }

  /** `rank` numbers the settled nodes in the order in which they left the queue, and a predecessor left it first. */
  ghost predicate Ranked(G: Weighted, s: Node, Q: seq<Node>, pred: map<Node, Option<Node>>, rank: map<Node, nat>,
                         n: nat) {
    (forall v :: v in G && v !in Q ==> v in rank && rank[v] < n) &&
    forall v :: v in pred && v in G && v != s && v !in Q && pred[v].Some? && pred[v].value in rank ==>
      rank[pred[v].value] < rank[v]
  }

  ghost predicate RelaxedOutside(G: Weighted, Q: seq<Node>, d: map<Node, Dist>)
    requires WellWeighted(G) && d.Keys == G.Keys
  {
    forall x, e :: x in G && x !in Q && e in G[x] ==> Relaxed(G, d, x, e)
  }

  method Search(G: Weighted, keys: seq<Node>, s: Node)
    returns (d: map<Node, Dist>, predecessor: map<Node, Option<Node>>, ghost rank: map<Node, nat>)
    requires WellWeighted(G) && s in G && Distinct(keys) && Elems(keys) == G.Keys
    ensures d.Keys == G.Keys && AllRelaxed(G, d) && d[s] == Fin(0)
    ensures Predecessors(G, s, [], d, predecessor) && Ranked(G, s, [], predecessor, rank, |keys|)
  {
    hide Distinct;
    d := FarFrom(keys, s);
    predecessor, rank := map[s := None], map[];
    var Q := keys;
    SearchStart(G, keys, s, d);
    while Q != []
      invariant Settled(G, s, Q, d)
      invariant Predecessors(G, s, Q, d, predecessor) && Ranked(G, s, Q, predecessor, rank, |keys| - |Q|)
      invariant RelaxedOutside(G, Q, d) && |Q| <= |keys|
      decreases |Q|
    {
      var k := NearestOf(Q, d);
      var u := Q[k];
      ghost var n := |keys| - |Q|;
      SettleNext(G, s, Q, k, d, predecessor, rank, n);
      Q, rank := Q[..k] + Q[k+1..], rank[u := n];
      d, predecessor := RelaxAll(G, s, Q, u, d, predecessor, rank, n + 1);
    }
  }

  lemma {:induction false} SearchStart(G: Weighted, keys: seq<Node>, s: Node, d: map<Node, Dist>)
    requires WellWeighted(G) && s in G && Distinct(keys) && Elems(keys) == G.Keys
    requires d.Keys == G.Keys && forall v :: v in d ==> d[v] == if v == s then Fin(0) else Inf
    ensures Settled(G, s, keys, d) && Predecessors(G, s, keys, d, map[s := None]) && RelaxedOutside(G, keys, d)
    ensures Ranked(G, s, keys, map[s := None], map[], 0)
  {
    forall x | x in G ensures x in keys {
      assert x in Elems(keys);
    }
    forall i | 0 <= i < |keys| ensures keys[i] in G {
      assert keys[i] in Elems(keys);
    }
  }

  /** Taking the nearest node out of the queue settles it, after everything settled before. */
  lemma {:induction false} SettleNext(G: Weighted, s: Node, Q: seq<Node>, k: nat, d: map<Node, Dist>,
                                      pred: map<Node, Option<Node>>, rank: map<Node, nat>, n: nat)
    requires WellWeighted(G) && Settled(G, s, Q, d) && Predecessors(G, s, Q, d, pred) && Ranked(G, s, Q, pred, rank, n)
    requires RelaxedOutside(G, Q, d) && k < |Q| && forall i :: 0 <= i < |Q| ==> !d[Q[i]].Below(d[Q[k]])
    ensures var (u, R) := (Q[k], Q[..k] + Q[k+1..]);
            u in G && u !in R && Settled(G, s, R, d) && Frontier(G, R, d, u) && Predecessors(G, s, R, d, pred) &&
            Ranked(G, s, R, pred, rank[u := n], n + 1) &&
            forall x, e :: x in G && x !in R && x != u && e in G[x] ==> Relaxed(G, d, x, e)
  {
    var (u, R) := (Q[k], Q[..k] + Q[k+1..]);
    QueueWithout(Q, k);
    hide Distinct, Hop, Relaxed;
    forall x | x in G && x !in Q ensures !d[u].Below(d[x]) {
      assert u in Q;
    }
    assert forall i :: 0 <= i < |R| ==> R[i] in R && R[i] in Q;
    RankNext(G, s, Q, u, R, d, pred, rank, n);
  }

  lemma {:induction false} RankNext(G: Weighted, s: Node, Q: seq<Node>, u: Node, R: seq<Node>, d: map<Node, Dist>,
                                    pred: map<Node, Option<Node>>, rank: map<Node, nat>, n: nat)
    requires d.Keys == G.Keys && Predecessors(G, s, Q, d, pred) && Ranked(G, s, Q, pred, rank, n)
    requires u in Q && u in G && forall x :: x in R <==> x in Q && x != u
    ensures Ranked(G, s, R, pred, rank[u := n], n + 1)
  {
    hide Hop;
  }

  /** The initial distances: 0 for the source, infinite for all others. */
  method FarFrom(keys: seq<Node>, s: Node) returns (d: map<Node, Dist>)
    ensures d.Keys == Elems(keys) && forall v :: v in d ==> d[v] == if v == s then Fin(0) else Inf
  {
    d := map[];
    for i := 0 to |keys|
      invariant d.Keys == Elems(keys[..i])
      invariant forall v :: v in d ==> d[v] == if v == s then Fin(0) else Inf
    {
      assert keys[..i+1] == keys[..i] + [keys[i]];
      d := d[keys[i] := if keys[i] == s then Fin(0) else Inf];
    }
    assert keys[..|keys|] == keys;
  }

  lemma {:induction false} QueueWithout(Q: seq<Node>, k: nat)
    requires k < |Q| && Distinct(Q)
    ensures Distinct(Q[..k] + Q[k+1..])
    ensures forall x :: x in Q[..k] + Q[k+1..] <==> x in Q && x != Q[k]
  {
  }

  /** Relaxes every edge out of the node just taken from the queue. */
  method RelaxAll(G: Weighted, ghost s: Node, ghost Q: seq<Node>, u: Node, d: map<Node, Dist>,
                  predecessor: map<Node, Option<Node>>,
                  ghost rank: map<Node, nat>, ghost n: nat)
    returns (d': map<Node, Dist>, predecessor': map<Node, Option<Node>>)
    requires WellWeighted(G) && u in G && u !in Q && Ranked(G, s, Q, predecessor, rank, n)
    requires Settled(G, s, Q, d) && Frontier(G, Q, d, u) && Predecessors(G, s, Q, d, predecessor)
    requires forall x, e :: x in G && x !in Q && x != u && e in G[x] ==> Relaxed(G, d, x, e)
    ensures Settled(G, s, Q, d') && Predecessors(G, s, Q, d', predecessor') && RelaxedOutside(G, Q, d')
    ensures Ranked(G, s, Q, predecessor', rank, n)
  {
    hide Distinct, Frontier, Predecessors, Ranked, Relaxed;
    d', predecessor' := d, predecessor;
    for j := 0 to |G[u]|
      invariant Settled(G, s, Q, d') && Frontier(G, Q, d', u)
      invariant d'.Keys == G.Keys && Predecessors(G, s, Q, d', predecessor') && Ranked(G, s, Q, predecessor', rank, n)
      invariant forall x, e :: x in G && x !in Q && x != u && e in G[x] ==> Relaxed(G, d', x, e)
      invariant forall e :: e in G[u][..j] ==> Relaxed(G, d', u, e)
    {
      d', predecessor' := RelaxStep(G, s, Q, u, j, d', predecessor', rank, n);
    }
    assert G[u][..|G[u]|] == G[u];
  }

  /** One pass of the relaxation loop body keeps every invariant of `Search`. */
  method RelaxStep(G: Weighted, ghost s: Node, ghost Q: seq<Node>, u: Node, j: nat, d: map<Node, Dist>,
                   predecessor: map<Node, Option<Node>>, ghost rank: map<Node, nat>, ghost n: nat)
    returns (d': map<Node, Dist>, predecessor': map<Node, Option<Node>>)
    requires WellWeighted(G) && u in G && u !in Q && j < |G[u]|
    requires Settled(G, s, Q, d) && Frontier(G, Q, d, u)
    requires Predecessors(G, s, Q, d, predecessor) && Ranked(G, s, Q, predecessor, rank, n)
    requires forall x, e :: x in G && x !in Q && x != u && e in G[x] ==> Relaxed(G, d, x, e)
    requires forall e :: e in G[u][..j] ==> Relaxed(G, d, u, e)
    ensures Settled(G, s, Q, d') && Frontier(G, Q, d', u)
    ensures Predecessors(G, s, Q, d', predecessor') && Ranked(G, s, Q, predecessor', rank, n)
    ensures forall x, e :: x in G && x !in Q && x != u && e in G[x] ==> Relaxed(G, d', x, e)
    ensures forall e :: e in G[u][..j+1] ==> Relaxed(G, d', u, e)
  {
    hide Distinct, Frontier, Predecessors, Ranked;
    var e := G[u][j];
    d', predecessor' := Relax(u, e, d, predecessor);
    assert G[u][..j+1] == G[u][..j] + [e];
    LowerKeeps(G, s, Q, u, e, d, predecessor, rank, n, d', predecessor');
    StaysRelaxed(G, Q, u, e, d, d');
  }

  /** What `Relax` does to the bookkeeping: a lowered node is still queued, and `u` becomes its predecessor. */
  lemma {:induction false} LowerKeeps(G: Weighted, s: Node, Q: seq<Node>, u: Node, e: Edge, d: map<Node, Dist>,
                                      pred: map<Node, Option<Node>>, rank: map<Node, nat>, n: nat,
                                      d': map<Node, Dist>, pred': map<Node, Option<Node>>)
    requires WellWeighted(G) && u in G && u !in Q && e in G[u] && Settled(G, s, Q, d) && Frontier(G, Q, d, u)
    requires Predecessors(G, s, Q, d, pred) && Ranked(G, s, Q, pred, rank, n) && Relaxing(u, e, d, d')
    requires if d' == d then pred' == pred else pred' == pred[e.to := Some(u)]
    ensures d' != d ==> e.to in Q
    ensures Settled(G, s, Q, d') && Frontier(G, Q, d', u) && Predecessors(G, s, Q, d', pred') &&
            Ranked(G, s, Q, pred', rank, n)
  {
    if d' != d {
      LoweredIsQueued(G, s, Q, u, e, d, d');
      LowerSettles(G, s, Q, u, e, d, d');
      LowerPredecessors(G, s, Q, u, e, d, pred, d', pred');
    }
  }

  /** The effect of `Relax` on the distances. */
  ghost predicate Relaxing(u: Node, e: Edge, d: map<Node, Dist>, d': map<Node, Dist>) {
    u in d && e.to in d && d'.Keys == d.Keys &&
    (forall x :: x in d ==> !d[x].Below(d'[x]) && (x != e.to ==> d'[x] == d[x])) &&
    d'[e.to] in {d[e.to], d[u].Plus(e.weight)}
  }

  lemma {:induction false} LoweredIsQueued(G: Weighted, s: Node, Q: seq<Node>, u: Node, e: Edge, d: map<Node, Dist>,
                                           d': map<Node, Dist>)
    requires WellWeighted(G) && u in G && e in G[u] && Settled(G, s, Q, d) && Frontier(G, Q, d, u) &&
             Relaxing(u, e, d, d') && d' != d
    ensures e.to in Q && d[u].Fin? && d'[e.to] == d[u].Plus(e.weight) && d'[e.to].Below(d[e.to]) && e.to != u
  {
    assert d'[e.to] != d[e.to] by {
      if d'[e.to] == d[e.to] {
        forall x | x in d ensures d'[x] == d[x] {
        }
      }
    }
    assert e.to !in Q ==> !d[u].Below(d[e.to]);
  }

  lemma {:induction false} LowerSettles(G: Weighted, s: Node, Q: seq<Node>, u: Node, e: Edge, d: map<Node, Dist>,
                                        d': map<Node, Dist>)
    requires WellWeighted(G) && u in G && u !in Q && e in G[u] && Settled(G, s, Q, d) && Frontier(G, Q, d, u) &&
             Relaxing(u, e, d, d')
    requires e.to in Q && d[u].Fin? && d'[e.to] == d[u].Plus(e.weight) && d'[e.to].Below(d[e.to])
    ensures Settled(G, s, Q, d') && Frontier(G, Q, d', u)
  {
    hide Distinct;
  }

  lemma {:induction false} LowerPredecessors(G: Weighted, s: Node, Q: seq<Node>, u: Node, e: Edge, d: map<Node, Dist>,
                                             pred: map<Node, Option<Node>>, d': map<Node, Dist>,
                                             pred': map<Node, Option<Node>>)
    requires WellWeighted(G) && u in G && u !in Q && e in G[u] && d.Keys == G.Keys && s in d && d[s] == Fin(0)
    requires Predecessors(G, s, Q, d, pred) && Relaxing(u, e, d, d') && pred' == pred[e.to := Some(u)]
    requires e.to in Q && d[u].Fin? && d'[e.to] == d[u].Plus(e.weight) && d'[e.to].Below(d[e.to]) && e.to != u
    ensures Predecessors(G, s, Q, d', pred')
  {
    assert e.to != s;
    forall v | v in pred' && v != s ensures Hop(G, d', pred'[v].value, v) {
      if v != e.to {
        assert Hop(G, d, pred[v].value, v) && pred[v].value != e.to;
      }
    }
  }

  lemma {:induction false} StaysRelaxed(G: Weighted, Q: seq<Node>, u: Node, e: Edge, d: map<Node, Dist>,
                                        d': map<Node, Dist>)
    requires WellWeighted(G) && d.Keys == G.Keys && u in G && u !in Q && e in G[u] && Relaxing(u, e, d, d') &&
             (d' != d ==> e.to in Q)
    ensures forall x, f :: x in G && x !in Q && f in G[x] && Relaxed(G, d, x, f) ==> Relaxed(G, d', x, f)
  {
    forall x, f | x in G && x !in Q && f in G[x] && Relaxed(G, d, x, f) ensures Relaxed(G, d', x, f) {
      assert d'[x] == d[x] && !d[f.to].Below(d'[f.to]);
    }
  }

  method {:induction false} Run(G: Weighted, keys: seq<Node>, s: Node)
    returns (d: map<Node, Dist>, paths: map<Node, seq<Node>>)
    requires WellWeighted(G) && s in G && Distinct(keys) && Elems(keys) == G.Keys
    ensures d.Keys == G.Keys && d[s] == Fin(0)
    ensures forall v, steps :: RouteTo(G, s, v, steps) ==> v in d && d[v].Fin? && d[v].n <= Cost(steps)
    ensures forall v :: v in paths <==> v in G && d[v].Fin?
    ensures forall v :: v in paths ==> Descends(G, d, paths[v], s) && paths[v][0] == v
  {
    var predecessor;
    ghost var rank;
    d, predecessor, rank := Search(G, keys, s);
    forall v, steps | RouteTo(G, s, v, steps) ensures v in d && d[v].Fin? && d[v].n <= Cost(steps) {
      RelaxedIsLowerBound(G, d, s, steps);
    }
    paths := TraceAll(G, keys, s, d, predecessor, rank);
  }

  /** The loop that traces a path back from every reached node. */
  method TraceAll(ghost G: Weighted, keys: seq<Node>, ghost s: Node, ghost d: map<Node, Dist>,
                  predecessor: map<Node, Option<Node>>, ghost rank: map<Node, nat>)
    returns (paths: map<Node, seq<Node>>)
    requires WellWeighted(G) && d.Keys == G.Keys == Elems(keys)
    requires Predecessors(G, s, [], d, predecessor) && Ranked(G, s, [], predecessor, rank, |keys|)
    ensures forall v :: v in paths <==> v in G && d[v].Fin?
    ensures forall v :: v in paths ==> Descends(G, d, paths[v], s) && paths[v][0] == v
  {
    hide Descends, Ranked, Hop;
    paths := map[];
    for i := 0 to |keys|
      invariant paths.Keys == Elems(keys[..i]) * predecessor.Keys
      invariant forall v :: v in paths ==> |paths[v]| > 0 && Descends(G, d, paths[v], s) && paths[v][0] == v
    {
      PrefixElems(keys, i);
      if keys[i] in predecessor {
        var path := TraceBack(G, s, d, predecessor, rank, |keys|, keys[i]);
        paths := paths[keys[i] := path];
      }
    }
    assert keys[..|keys|] == keys;
  }

  method TraceBack(ghost G: Weighted, ghost s: Node, ghost d: map<Node, Dist>, predecessor: map<Node, Option<Node>>,
                   ghost rank: map<Node, nat>, ghost n: nat, v: Node)
    returns (path: seq<Node>)
    requires Ranked(G, s, [], predecessor, rank, n)
    requires WellWeighted(G) && d.Keys == G.Keys && Predecessors(G, s, [], d, predecessor) && v in predecessor
    ensures |path| > 0 && Descends(G, d, path, s) && path[0] == v
  {
    path := [v];
    var p := predecessor[v];
    var last := v;
    while p.Some?
      invariant |path| > 0 && path[0] == v && path[|path|-1] == last && last in predecessor
      invariant p == predecessor[last]
      invariant forall x :: x in path ==> x in d && d[x].Fin?
      invariant forall i :: 0 <= i < |path| - 1 ==> Hop(G, d, path[i+1], path[i])
      decreases if last in rank then rank[last] else 0
    {
      assert last != s && Hop(G, d, p.value, last);
      path := path + [p.value];
      last := p.value;
      p := predecessor[last];
    }
  }
}

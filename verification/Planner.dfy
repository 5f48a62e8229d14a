/** `find_path`: covering all links of a network by as few trails as possible. */
module Planner {
  import opened ArcSets
  import opened Lists
  import opened Adjacency
  import opened PlannerGraph
  import opened FarthestPath
  import opened Splicing
  import opened PlannerState
  import opened EvenComponents
  import opened FewestTrails
  import opened PlannerLog
  import Euler

  type Matrix = seq<seq<int>>

  // ---- path_iden ----

  datatype Identified = Identified(path: seq<Node>, node: Node, rest: seq<seq<Node>>)

  /** `path_iden`: a queued path that meets the component, taken out of the queue, and a node they share. */
  method PathIden(Queue: seq<seq<Node>>, comp: seq<Node>) returns (r: Option<Identified>)
    ensures r.None? <==> forall i :: 0 <= i < |Queue| ==> !Shares(Queue[i], comp)
    ensures r.Some? ==> r.value.path in Queue && r.value.node in r.value.path && r.value.node in comp &&
                        r.value.rest == RemoveFirst(Queue, r.value.path)
    ensures r.Some? ==> FirstShared(Queue, comp, r.value.path, r.value.node)
  {
    for i := 0 to |comp|
      invariant forall k, x :: 0 <= k < |Queue| && x in comp[..i] ==> x !in Queue[k]
    {
      for j := 0 to |Queue|
        invariant forall k :: 0 <= k < j ==> comp[i] !in Queue[k]
      {
        var n, path := comp[i], Queue[j];
        if n in path {
          assert n in comp && Shares(path, comp);
          FirstFound(Queue, comp, i, j);
          return Some(Identified(path, n, RemoveFirst(Queue, path)));
        }
      }
      assert comp[..i+1] == comp[..i] + [comp[i]];
    }
    assert comp[..|comp|] == comp;
    return None;
  }

  lemma {:induction false} FirstFound(Queue: seq<seq<Node>>, comp: seq<Node>, i: nat, j: nat)
    requires i < |comp| && j < |Queue| && comp[i] in Queue[j]
    requires forall k, x :: 0 <= k < |Queue| && x in comp[..i] ==> x !in Queue[k]
    requires forall k :: 0 <= k < j ==> comp[i] !in Queue[k]
    ensures FirstShared(Queue, comp, Queue[j], comp[i])
  {
    hide IndexOf;
    IndexOfFirst(Queue, j);
    IndexOfFirst(comp, i);
    assert forall y :: y in comp[..IndexOf(comp, comp[i])] ==> y in comp[..i];
  }

  // ---- verification ----

  /** `verification`: takes every link of every queued path out of a copy of the network. */
  method Verification(Queue: seq<seq<Node>>, testG: Adj) returns (g: Adj)
    requires Proper(testG) && Decomposes(Queue, ArcsOf(testG))
    ensures Proper(g) && g.Keys == testG.Keys && ArcsOf(g) == {}
  {
    g := testG;
    for k := 0 to |Queue|
      invariant Proper(g) && g.Keys == testG.Keys && Decomposes(Queue[k..], ArcsOf(g))
    {
      var path := Queue[k];
      assert Queue[k..][0] == path && Queue[k..][1..] == Queue[k+1..];
      FirstOfMany(Queue[k..], ArcsOf(g));
      g := RemoveTrail(g, path);
    }
    assert forall a :: a in ArcsOf(g) <==> a in multiset(ArcsOf(g));
  }

  // ---- building the graph ----

  ghost predicate Cell(G: Matrix, i: int, j: int) {
    0 <= i < |G| && 0 <= j < |G[i]| && G[i][j] != 0
  }

  /** The links a matrix describes: an entry in either direction is enough; node i + 1 is row i. */
  ghost function LinksOf(G: Matrix): set<Arc> {
    (set i, j | 0 <= i < |G| && 0 <= j < |G[i]| && G[i][j] != 0 :: Arc(i + 1, j + 1)) +
    (set i, j | 0 <= i < |G| && 0 <= j < |G[i]| && G[i][j] != 0 :: Arc(j + 1, i + 1))
  }

  lemma {:induction false} LinksByCell(G: Matrix, a: Arc)
    ensures a in LinksOf(G) <==> Cell(G, a.u - 1, a.v - 1) || Cell(G, a.v - 1, a.u - 1)
  {
    if Cell(G, a.u - 1, a.v - 1) {
      var i, j := a.u - 1, a.v - 1;
      assert a == Arc(i + 1, j + 1);
    } else if Cell(G, a.v - 1, a.u - 1) {
      var i, j := a.v - 1, a.u - 1;
      assert a == Arc(j + 1, i + 1);
    }
  }

  /** Rows no longer than the number of nodes, and no self-loop. */
  ghost predicate Network(G: Matrix) {
    (forall i :: 0 <= i < |G| ==> |G[i]| <= |G|) && forall i :: !Cell(G, i, i)
  }

  /** Cells before row `i`, column `j` in reading order. */
  ghost predicate Before(G: Matrix, i: nat, j: nat, x: int, y: int) {
    Cell(G, x, y) && (x < i || (x == i && y < j))
  }

  ghost predicate Built(G: Matrix, i: nat, j: nat, E: set<Arc>) {
    forall a :: a in E <==> Before(G, i, j, a.u - 1, a.v - 1) || Before(G, i, j, a.v - 1, a.u - 1)
  }

  lemma {:induction false} BuiltNext(G: Matrix, i: nat, j: nat, E: set<Arc>)
    requires Built(G, i, j, E) && i < |G| && j < |G[i]|
    ensures Cell(G, i, j) ==> Built(G, i, j + 1, E + Link(i + 1, j + 1))
    ensures !Cell(G, i, j) ==> Built(G, i, j + 1, E)
  {
  }

  lemma {:induction false} BuiltRow(G: Matrix, i: nat, E: set<Arc>)
    requires i < |G| && Built(G, i, |G[i]|, E)
    ensures Built(G, i + 1, 0, E)
  {
  }

  lemma {:induction false} BuiltAll(G: Matrix, E: set<Arc>)
    requires Built(G, |G|, 0, E)
    ensures E == LinksOf(G)
  {
    forall a ensures a in E <==> a in LinksOf(G) {
      LinksByCell(G, a);
    }
  }

  ghost predicate Shaped(g: Graph, n: nat)
    reads g
  {
    g.Valid() && g.Numbered() && |g.keys| == n && g.visited == []
  }

  method AddCell(g: Graph, G: Matrix, i: nat, j: nat)
    requires Network(G) && Shaped(g, |G|) && i < |G| && j < |G[i]| && Built(G, i, j, g.Arcs())
    modifies g`neighbors
    ensures Shaped(g, |G|) && Built(G, i, j + 1, g.Arcs())
  {
    hide Built, Proper, Distinct, Elems;
    BuiltNext(G, i, j, g.Arcs());
    if G[i][j] != 0 {
      CellNodes(g, G, i, j);
      g.AddEdge(i + 1, j + 1);
    }
  }

  lemma {:induction false} CellNodes(g: Graph, G: Matrix, i: nat, j: nat)
    requires Network(G) && Shaped(g, |G|) && i < |G| && j < |G[i]| && G[i][j] != 0
    ensures Cell(G, i, j) && i != j && i + 1 in g.keys && j + 1 in g.keys
  {
    hide Proper, Distinct;
    assert Cell(G, i, j);
    assert g.keys[i] == i + 1 && g.keys[j] == j + 1;
  }

  method BuildGraph(G: Matrix) returns (g: Graph)
    requires Network(G)
    ensures fresh(g) && Shaped(g, |G|) && g.Arcs() == LinksOf(G)
  {
    g := new Graph();
    g.AddNodes(seq(|G|, i => i + 1));
    for i := 0 to |G|
      invariant fresh(g) && Shaped(g, |G|) && Built(G, i, 0, g.Arcs())
    {
      for j := 0 to |G[i]|
        invariant fresh(g) && Shaped(g, |G|) && Built(G, i, j, g.Arcs())
      {
        AddCell(g, G, i, j);
      }
      BuiltRow(G, i, g.Arcs());
    }
    BuiltAll(G, g.Arcs());
  }

  // ---- find_path ----

  /** The graph between two steps of the main loop. */
  ghost predicate Ready(g: Graph)
    reads g
  {
    g.Valid() && g.Numbered() && g.visited == [] && Elems(g.A) == Ends(g.Arcs())
  }

  /** The copied lists of a component describe just its links. */
  lemma {:induction false} ComponentLists(g: Adj, comp: seq<Node>)
    requires Proper(g) && Component(ArcsOf(g), comp)
    ensures forall x :: x in comp ==> x in g
    ensures var h, E, C := Restrict(g, comp), ArcsOf(g), Elems(comp);
            Proper(h) && h.Keys == C && ArcsOf(h) == ArcsWithin(E, C) && Odd(ArcsOf(h), C) == Odd(E, C)
  {
    forall x | x in comp ensures x in g {
      assert x in Elems(comp);
    }
    RestrictArcs(g, comp);
    WithinDegree(ArcsOf(g), Elems(comp));
  }

  lemma {:induction false} NodesPositive(g: Graph, comp: seq<Node>)
    requires g.Valid() && g.Numbered() && forall x :: x in comp ==> x in g.neighbors
    ensures forall x :: x in comp ==> x > 0
  {
    forall x | x in comp ensures x > 0 {
      assert x in Elems(g.keys);
    }
  }

  /** `euler` on the lists of one component without or with two odd nodes: a walk over all its links. */
  method EulerWithin(g: Graph, comp: seq<Node>, start: Option<Node>) returns (p: seq<Node>)
    requires g.Valid() && g.Numbered() && Component(g.Arcs(), comp)
    requires |Odd(g.Arcs(), Elems(comp))| <= 2
    requires start.Some? ==> start.value in comp && Odd(g.Arcs(), Elems(comp)) == {}
    ensures Trail(p) && |p| > 1 && TrailArcs(p) == ArcsWithin(g.Arcs(), Elems(comp)) && p[0] in comp
    ensures start.Some? ==> p[0] == start.value
    ensures Euler.EndsAtOdd(p, Odd(g.Arcs(), Elems(comp)))
  {
    hide Component, Degree, Odd, ArcsOf, ArcsWithin, Proper, Trail, TrailArcs, Simple, Euler.EulerTrail,
         Euler.EndsAtOdd, Euler.Startable;
    ghost var E := g.Arcs();
    ProperIsSimple(g.neighbors);
    ComponentDistinct(E, comp);
    ComponentLists(g.neighbors, comp);
    NodesPositive(g, comp);
    var r := Euler.Run(comp, Restrict(g.neighbors, comp), start);
    p := r.path;
    EulerOfComponent(E, comp, start, r.start, p);
  }

  lemma {:induction false} ComponentDistinct(E: set<Arc>, comp: seq<Node>)
    requires Component(E, comp)
    ensures Distinct(comp) && comp != []
  {
  }

  /** On one component without odd nodes, or from an odd node, what `euler` returns is a walk over all of it. */
  lemma {:induction false} EulerOfComponent(E: set<Arc>, comp: seq<Node>, start: Option<Node>, u: Node, p: seq<Node>)
    requires Simple(E) && Component(E, comp) && u in Elems(comp)
    requires Odd(ArcsWithin(E, Elems(comp)), Elems(comp)) == Odd(E, Elems(comp))
    requires start.Some? ==> u == start.value && Odd(E, Elems(comp)) == {}
    requires var (F, C) := (ArcsWithin(E, Elems(comp)), Elems(comp));
             (Euler.EulerTrail(F, C, u, p) <==> Euler.Startable(F, C, u)) && (start.None? ==> Euler.Startable(F, C, u))
    ensures Trail(p) && |p| > 1 && p[0] == u && u in comp && TrailArcs(p) == ArcsWithin(E, Elems(comp))
    ensures Euler.EndsAtOdd(p, Odd(E, Elems(comp)))
  {
    hide Degree, Simple, Reachable;
    WholeComponent(E, comp, u);
    AllOddWithin(E, comp, u);
    LinkedTrail(E, Elems(comp), p);
  }

  /** Within its own links a component lies within reach of each of its nodes. */
  lemma {:induction false} AllOddWithin(E: set<Arc>, comp: seq<Node>, u: Node)
    requires Simple(E) && Component(E, comp) && u in comp
    ensures Euler.Within(ArcsWithin(E, Elems(comp)), Elems(comp), u) == Elems(comp)
  {
    var F := ArcsWithin(E, Elems(comp));
    forall x | x in Elems(comp) ensures Reachable(F, u, x) {
      assert u in Elems(comp);
      ReachableElsewhere(E, F, Elems(comp), u);
      ComponentConnected(E, comp, u, x);
    }
  }

  /** Within a component everything is reachable from everywhere. */
  lemma {:induction false} WholeComponent(E: set<Arc>, comp: seq<Node>, u: Node)
    requires Simple(E) && Component(E, comp) && u in comp
    ensures ArcsFrom(ArcsWithin(E, Elems(comp)), u) == ArcsWithin(E, Elems(comp))
  {
    var F := ArcsWithin(E, Elems(comp));
    assert u in Elems(comp);
    ReachableElsewhere(E, F, Elems(comp), u);
    forall a | a in F ensures Reachable(F, u, a.u) {
      ComponentConnected(E, comp, u, a.u);
    }
  }

  lemma {:induction false} LinkedTrail(E: set<Arc>, C: set<Node>, p: seq<Node>)
    requires Trail(p) && p[0] in C && p[0] in Ends(E) && TrailArcs(p) == ArcsWithin(E, C)
    ensures |p| > 1
  {
    var a :| a in E && a.u == p[0];
    assert a in TrailArcs(p);
  }

  /** The body of the loop over the components, for a component with odd nodes. */
  method PeelOne(g: Graph, comp: seq<Node>, balanced: bool) returns (path: seq<Node>)
    requires g.Valid() && g.Numbered() && Component(g.Arcs(), comp) && DegreesWithin(g.degree, g.Arcs(), Elems(comp))
    requires Odd(g.Arcs(), Elems(comp)) != {}
    ensures PeelRight(g.Arcs(), comp, balanced, path)
  {
    hide *;
    OddCountEven(g, comp);
    var oddNum := g.F2(comp);
    if oddNum == 2 {
      path := PeelPair(g, comp);
      PairRight(g.Arcs(), comp, balanced, path);
    } else if oddNum > 2 {
      path := PeelLong(g, comp, balanced);
      LongRight(g.Arcs(), comp, balanced, path);
    } else {
      path := [];
      assert false;  // the `break`: no component reached here is without odd nodes
    }
  }

  method PeelPair(g: Graph, comp: seq<Node>) returns (path: seq<Node>)
    requires g.Valid() && g.Numbered() && Component(g.Arcs(), comp)
    requires |Odd(g.Arcs(), Elems(comp))| == 2
    ensures PeelOff(g.Arcs(), comp, path) && TrailArcs(path) == ArcsWithin(g.Arcs(), Elems(comp))
  {
    hide Degree, Simple, ArcsOf, Proper, Component, Trail, TrailArcs;
    path := EulerWithin(g, comp, None);
  }

  lemma {:induction false} OddCountEven(g: Graph, comp: seq<Node>)
    requires g.Valid() && Component(g.Arcs(), comp) && Odd(g.Arcs(), Elems(comp)) != {}
    ensures Distinct(comp) && |Odd(g.Arcs(), Elems(comp))| >= 2 && |Odd(g.Arcs(), Elems(comp))| % 2 == 0
  {
    hide Degree, ArcsOf;
    ProperIsSimple(g.neighbors);
    Handshake(g.Arcs(), Elems(comp));
  }

  method PeelLong(g: Graph, comp: seq<Node>, balanced: bool) returns (path: seq<Node>)
    requires g.Valid() && g.Numbered() && Component(g.Arcs(), comp) && DegreesWithin(g.degree, g.Arcs(), Elems(comp))
    requires |Odd(g.Arcs(), Elems(comp))| >= 2
    ensures PeelOff(g.Arcs(), comp, path) && OddPath(g.Arcs(), Odd(g.Arcs(), Elems(comp)), path)
    ensures FarthestOdd(g.Arcs(), Odd(g.Arcs(), Elems(comp)), balanced, path)
  {
    path := g.MyPath(comp, balanced);
    TrailWithin(g.Arcs(), Elems(comp), path);
  }

  lemma {:induction false} PairRight(E: set<Arc>, comp: seq<Node>, balanced: bool, p: seq<Node>)
    requires PeelOff(E, comp, p) && TrailArcs(p) == ArcsWithin(E, Elems(comp)) && |Odd(E, Elems(comp))| == 2
    ensures PeelRight(E, comp, balanced, p)
  {
  }

  lemma {:induction false} LongRight(E: set<Arc>, comp: seq<Node>, balanced: bool, p: seq<Node>)
    requires PeelOff(E, comp, p) && |Odd(E, Elems(comp))| > 2
    requires OddPath(E, Odd(E, Elems(comp)), p) && FarthestOdd(E, Odd(E, Elems(comp)), balanced, p)
    ensures PeelRight(E, comp, balanced, p)
  {
  }

  /** A component with odd nodes, and degrees measured rightly for it. */
  ghost predicate Pending(E: set<Arc>, degree: seq<nat>, comp: seq<Node>) {
    Component(E, comp) && DegreesWithin(degree, E, Elems(comp)) && Odd(E, Elems(comp)) != {}
  }

  /** Components from `i` on are still to be handled, with the degrees measured before the first of them. */
  ghost predicate AllPending(E: set<Arc>, degree: seq<nat>, subgraph: seq<seq<Node>>, i: nat) {
    forall k :: i <= k < |subgraph| ==> Pending(E, degree, subgraph[k])
  }

  ghost predicate Apart(subgraph: seq<seq<Node>>) {
    forall i, j :: 0 <= i < j < |subgraph| ==> Elems(subgraph[i]) !! Elems(subgraph[j])
  }

  lemma {:induction false} PendingElsewhere(E: set<Arc>, T: set<Arc>, C: set<Node>, degree: seq<nat>, comp: seq<Node>)
    requires T <= ArcsWithin(E, C) && Pending(E, degree, comp) && C !! Elems(comp)
    ensures Pending(E - T, degree, comp)
  {
    hide Component, Odd, Degree;
    ElsewhereUnchanged(E, T, C, comp);
  }

  /** Taking links out of component `i` does not touch the later ones. */
  lemma {:induction false} PendingLater(E: set<Arc>, T: set<Arc>, degree: seq<nat>, subgraph: seq<seq<Node>>, i: nat)
    requires Apart(subgraph) && i < |subgraph| && AllPending(E, degree, subgraph, i)
    requires T <= ArcsWithin(E, Elems(subgraph[i]))
    ensures AllPending(E - T, degree, subgraph, i + 1)
  {
    forall k | i < k < |subgraph| ensures Pending(E - T, degree, subgraph[k]) {
      assert Pending(E, degree, subgraph[k]);
      PendingElsewhere(E, T, Elems(subgraph[i]), degree, subgraph[k]);
    }
  }

  lemma {:induction false} QueuePeeled(Q: seq<seq<Node>>, E: set<Arc>, E0: set<Arc>, c: nat, comp: seq<Node>,
                                       p: seq<Node>)
    requires State(Q, E, E0, c) && Simple(E) && Component(E, comp) && PeelOff(E, comp, p)
    ensures State(Q + [p], E - TrailArcs(p), E0, c)
  {
    QueueTrail(Q, E, E0, c, p);
  }

  lemma {:induction false} FewerArcs(E: set<Arc>, p: seq<Node>)
    requires TrailArcs(p) <= E && |p| > 1
    ensures |E - TrailArcs(p)| < |E|
  {
    assert Arc(p[0], p[1]) in TrailArcs(p);
    CardSubset(E - TrailArcs(p), E - {Arc(p[0], p[1])});
  }

  /** A queued path has a node of the component. */
  ghost predicate Visited(Q: seq<seq<Node>>, comp: seq<Node>) {
    exists y :: InQueue(Q, y) && y in comp
  }

  ghost predicate AllVisited(Q: seq<seq<Node>>, subgraph: seq<seq<Node>>, i: nat) {
    forall k :: 0 <= k < i && k < |subgraph| ==> Visited(Q, subgraph[k])
  }

  lemma {:induction false} VisitNext(Q: seq<seq<Node>>, p: seq<Node>, E: set<Arc>, subgraph: seq<seq<Node>>, i: nat)
    requires AllVisited(Q, subgraph, i) && i < |subgraph| && PeelOff(E, subgraph[i], p)
    ensures AllVisited(Q + [p], subgraph, i + 1)
  {
    AppendKeepsNodes(Q, p);
    assert p[0] in Elems(subgraph[i]) && p[0] in p;
    forall k | 0 <= k < i + 1 && k < |subgraph| ensures Visited(Q + [p], subgraph[k]) {
      if k < i {
        assert Visited(Q, subgraph[k]);
        var y :| InQueue(Q, y) && y in subgraph[k];
        assert InQueue(Q + [p], y);
      } else {
        assert InQueue(Q + [p], p[0]);
      }
    }
  }

  lemma {:induction false} VisitedIsTouched(Q: seq<seq<Node>>, E': set<Arc>, E: set<Arc>, E0: set<Arc>,
                                            subgraph: seq<seq<Node>>)
    requires Simple(E) && Components(E, subgraph) && E' <= E <= E0 && AllVisited(Q, subgraph, |subgraph|)
    ensures Touched(Q, E', E0)
  {
    EndsGrow(E', E);
    ReachableGrows(E, E0);
    forall x | x in Ends(E') ensures TouchedAt(Q, E0, x) {
      MemberIndex(subgraph, x);
      var k :| 0 <= k < |subgraph| && x in subgraph[k];
      assert Visited(Q, subgraph[k]);
      var y :| InQueue(Q, y) && y in subgraph[k];
      ComponentConnected(E, subgraph[k], x, y);
    }
  }

  lemma {:induction false} NoneVisited(Q: seq<seq<Node>>, subgraph: seq<seq<Node>>)
    ensures AllVisited(Q, subgraph, 0)
  {
  }

  lemma {:induction false} PendingAt(E: set<Arc>, degree: seq<nat>, subgraph: seq<seq<Node>>, i: nat)
    requires AllPending(E, degree, subgraph, i) && i < |subgraph|
    ensures Pending(E, degree, subgraph[i])
  {
  }

  /** The loop over the components when every one of them has odd nodes. */
  method PeelAll(g: Graph, Queue: seq<seq<Node>>, subgraph: seq<seq<Node>>, balanced: bool, ghost E0: set<Arc>,
                 ghost c: nat)
    returns (Queue': seq<seq<Node>>, ghost paths: seq<seq<Node>>)
    requires Ready(g) && State(Queue, g.Arcs(), E0, c)
    requires Apart(subgraph) && AllPending(g.Arcs(), g.degree, subgraph, 0)
    modifies g`neighbors, g`A
    ensures Ready(g) && State(Queue', g.Arcs(), E0, c)
    ensures |paths| == |subgraph| && PassRight(old(g.Arcs()), subgraph, paths, balanced) && Queue' == Queue + paths
    ensures g.Arcs() == LeftAfter(old(g.Arcs()), paths, |paths|)
    ensures g.Arcs() <= old(g.Arcs()) && AllVisited(Queue', subgraph, |subgraph|)
    ensures subgraph != [] ==> |g.Arcs()| < |old(g.Arcs())|
  {
    hide Component, Degree, DegreesWithin, State, Odd, ArcsOf, Proper, Trail, TrailArcs, Visited, AllVisited,
         AllPending, Apart, Simple, ArcsWithin, PeelRight, PassRight, LeftAfter;
    Queue', paths := Queue, [];
    ghost var E := g.Arcs();
    PassNone(E, subgraph, balanced);
    NoneVisited(Queue, subgraph);
    for i := 0 to |subgraph|
      invariant Ready(g) && State(Queue', g.Arcs(), E0, c)
      invariant AllPending(g.Arcs(), g.degree, subgraph, i) && AllVisited(Queue', subgraph, i)
      invariant g.Arcs() <= E && |g.Arcs()| <= |E| - i
      invariant |paths| == i && PassRight(E, subgraph, paths, balanced) && Queue' == Queue + paths
      invariant g.Arcs() == LeftAfter(E, paths, i)
    {
      ghost var path;
      Queue', path := PeelNext(g, Queue', subgraph, i, balanced, E0, c);
      PassNext(E, subgraph, paths, balanced, path);
      paths := paths + [path];
    }
  }

  /** The loop body: a trail between odd nodes of component `i` is queued and taken out. */
  method PeelNext(g: Graph, Queue: seq<seq<Node>>, subgraph: seq<seq<Node>>, i: nat, balanced: bool,
                  ghost E0: set<Arc>, ghost c: nat)
    returns (Queue': seq<seq<Node>>, ghost queued: seq<Node>)
    requires Ready(g) && State(Queue, g.Arcs(), E0, c) && i < |subgraph| && Apart(subgraph)
    requires AllPending(g.Arcs(), g.degree, subgraph, i) && AllVisited(Queue, subgraph, i)
    modifies g`neighbors, g`A
    ensures Ready(g) && State(Queue', g.Arcs(), E0, c)
    ensures AllPending(g.Arcs(), g.degree, subgraph, i + 1) && AllVisited(Queue', subgraph, i + 1)
    ensures g.Arcs() <= old(g.Arcs()) && |g.Arcs()| < |old(g.Arcs())|
    ensures PeelRight(old(g.Arcs()), subgraph[i], balanced, queued) && Queue' == Queue + [queued]
    ensures g.Arcs() == old(g.Arcs()) - TrailArcs(queued)
  {
    hide Component, Degree, DegreesWithin, State, Odd, ArcsOf, Proper, Trail, TrailArcs, Visited, AllVisited,
         AllPending, Apart, Simple, ArcsWithin, OddPath, FarthestOdd;
    ghost var E := g.Arcs();
    PendingAt(E, g.degree, subgraph, i);
    var path := PeelOne(g, subgraph[i], balanced);
    ProperIsSimple(g.neighbors);
    QueuePeeled(Queue, E, E0, c, subgraph[i], path);
    PendingLater(E, TrailArcs(path), g.degree, subgraph, i);
    VisitNext(Queue, path, E, subgraph, i);
    Queue', queued := Queue + [path], path;
    WithinSubset(E, Elems(subgraph[i]));
    FewerArcs(E, path);
    g.F3(path);
  }

  // ---- turns of the main loop ----

  /** A component without odd nodes before anything is queued: its Euler circuit becomes the first path. */
  method FirstCircuit(g: Graph, comp: seq<Node>, ghost E0: set<Arc>)
    returns (Queue': seq<seq<Node>>, ghost path: seq<Node>)
    requires Ready(g) && g.Arcs() == E0 && State([], E0, E0, 0)
    requires Component(g.Arcs(), comp) && Odd(g.Arcs(), Elems(comp)) == {}
    modifies g`neighbors, g`A
    ensures Ready(g) && State(Queue', g.Arcs(), E0, 1) && CircuitOnly(Queue', g.Arcs(), E0)
    ensures |g.Arcs()| < |old(g.Arcs())|
    ensures CircuitRight(E0, comp, path) && Queue' == [path] && g.Arcs() == E0 - TrailArcs(path)
  {
    hide Component, Degree, Odd, ArcsOf, Proper, Trail, TrailArcs, Reachable, Closed, ArcsWithin, State, CircuitOnly;
    ProperIsSimple(g.neighbors);
    var tPath := EulerWithin(g, comp, None);
    CircuitPhase(E0, comp, tPath);
    WithinSubset(E0, Elems(comp));
    QueueCircuit([], E0, E0, 0, tPath);
    assert [] + [tPath] == [tPath];
    FewerArcs(E0, tPath);
    Queue', path := [tPath], tPath;
    g.F3(tPath);
  }

  lemma {:induction false} WithinSubset(E: set<Arc>, C: set<Node>)
    ensures ArcsWithin(E, C) <= E
  {
  }

  /** A component meets the queue in the last phase only. */
  lemma {:induction false} SharedIsTouched(Q: seq<seq<Node>>, E: set<Arc>, E0: set<Arc>, c: nat, comp: seq<Node>)
    requires State(Q, E, E0, c) && Phased(Q, E, E0, c) && Component(E, comp) &&
             exists i :: 0 <= i < |Q| && Shares(Q[i], comp)
    ensures Touched(Q, E, E0) && OneEvenAtMost(E0) && c == if HasEven(E0) then 1 else 0
  {
    hide Component, Odd, Trail, OneEvenAtMost, HasEven, Touched;
    if CircuitOnly(Q, E, E0) {
      CircuitApart(Q, E, E0, comp);
    }
  }

  /** A component without odd nodes that meets no queued path is a second even one. */
  lemma {:induction false} ApartIsSecond(Q: seq<seq<Node>>, E: set<Arc>, E0: set<Arc>, c: nat, comp: seq<Node>)
    requires State(Q, E, E0, c) && Phased(Q, E, E0, c) && Q != []
    requires Component(E, comp) && Odd(E, Elems(comp)) == {} && forall i :: 0 <= i < |Q| ==> !Shares(Q[i], comp)
    ensures !OneEvenAtMost(E0)
  {
    hide Component, Odd, Trail, OneEvenAtMost, HasEven, Touched;
    if Touched(Q, E, E0) {
      ComponentMeetsQueue(Q, E, E0, comp);
    } else {
      SecondEven(Q, E, E0, comp);
    }
  }

  lemma {:induction false} SpliceKeepsPhase(Q: seq<seq<Node>>, E: set<Arc>, E0: set<Arc>, p1: seq<Node>,
                                            p2: seq<Node>, E': set<Arc>)
    requires Touched(Q, E, E0) && p1 in Q && p2 != [] && p2[0] in p1 && E' <= E
    ensures Touched(RemoveFirst(Q, p1) + [Splice(p1, p2)], E', E0)
  {
    SpliceKeepsNodes(Q, p1, p2);
    StaysTouched(Q, RemoveFirst(Q, p1) + [Splice(p1, p2)], E, E', E0);
  }

  /** A component without odd nodes while paths are queued: an Euler circuit, spliced into the path it meets.
      `None` stands for the exception at unpacking the missing answer of `path_iden`. */
  method SpliceCircuit(g: Graph, Queue: seq<seq<Node>>, comp: seq<Node>, ghost E0: set<Arc>, ghost c: nat)
    returns (r: Option<seq<seq<Node>>>, ghost path: seq<Node>)
    requires Ready(g) && State(Queue, g.Arcs(), E0, c) && Phased(Queue, g.Arcs(), E0, c) && Queue != []
    requires Component(g.Arcs(), comp) && Odd(g.Arcs(), Elems(comp)) == {}
    modifies g`neighbors, g`A
    ensures r.None? <==> !OneEvenAtMost(E0)
    ensures r.Some? ==> Ready(g) && State(r.value, g.Arcs(), E0, c) && Phased(r.value, g.Arcs(), E0, c) &&
                        |g.Arcs()| < |old(g.Arcs())|
    ensures r.Some? ==> CircuitRight(old(g.Arcs()), comp, path) && SplicedIn(Queue, comp, path, r.value) &&
                        g.Arcs() == old(g.Arcs()) - TrailArcs(path)
  {
    hide Component, Degree, State, Odd, ArcsOf, Proper, Trail, TrailArcs, Reachable, Closed, Touched, CircuitOnly,
         OneEvenAtMost, HasEven, FirstShared;
    ghost var E := g.Arcs();
    ProperIsSimple(g.neighbors);
    var found := PathIden(Queue, comp);
    if found.None? {
      ApartIsSecond(Queue, E, E0, c, comp);
      return None, [];
    }
    SharedIsTouched(Queue, E, E0, c, comp);
    var tPath, start := found.value.path, found.value.node;
    var result := EulerWithin(g, comp, Some(start));
    WithinSubset(E, Elems(comp));
    QueueSplice(Queue, E, E0, c, tPath, result);
    SpliceKeepsPhase(Queue, E, E0, tPath, result, E - TrailArcs(result));
    FewerArcs(E, result);
    g.F3(result);
    var spliced := AddPath(tPath, result);
    r, path := Some(found.value.rest + [spliced]), result;
  }

  /** Once every component has odd nodes, the number of even components of the network is settled. */
  lemma {:induction false} EvenSettled(Q: seq<seq<Node>>, E: set<Arc>, E0: set<Arc>, c: nat, subgraph: seq<seq<Node>>)
    requires State(Q, E, E0, c) && Phased(Q, E, E0, c) && Simple(E0) && Components(E, subgraph)
    requires forall k :: 0 <= k < |subgraph| ==> Odd(E, Elems(subgraph[k])) != {}
    ensures OneEvenAtMost(E0) && c == if HasEven(E0) then 1 else 0
  {
    Remaining(Q, E, E0);
    if Q == [] {
      NoEven(E, subgraph);
      assert forall x :: !EvenAt(E0, x);
    } else if CircuitOnly(Q, E, E0) && c == 1 {
      OnlyEven(Q, E, E0, subgraph);
    }
  }

  lemma {:induction false} NothingQueued(E: set<Arc>, E0: set<Arc>, c: nat)
    requires State([], E, E0, c) && Phased([], E, E0, c)
    ensures E == E0 && c == 0
  {
    Remaining([], E, E0);
  }

  lemma {:induction false} SomeComponent(E: set<Arc>, subgraph: seq<seq<Node>>, x: Node)
    requires Components(E, subgraph) && x in Ends(E)
    ensures subgraph != []
  {
  }

  /** After `degrees` the table is right for every component. */
  lemma {:induction false} AllMeasured(g: Adj, keys: seq<Node>, degree: seq<nat>, subgraph: seq<seq<Node>>)
    requires Proper(g) && Elems(keys) == g.Keys && (forall i :: 0 <= i < |keys| ==> keys[i] == i + 1)
    requires |degree| == |keys| && forall x :: 1 <= x <= |keys| ==> degree[x-1] == Degree(ArcsOf(g), x)
    requires Components(ArcsOf(g), subgraph)
    ensures forall k :: 0 <= k < |subgraph| ==> DegreesWithin(degree, ArcsOf(g), Elems(subgraph[k]))
  {
    forall k, x | 0 <= k < |subgraph| && x in Elems(subgraph[k]) ensures 1 <= x <= |keys| {
      assert Component(ArcsOf(g), subgraph[k]);
      assert x in Ends(ArcsOf(g)) && x in g.Keys && x in Elems(keys);
    }
  }

  /** One turn of the main loop. */
  method Turn(g: Graph, Queue: seq<seq<Node>>, balanced: bool, ghost E0: set<Arc>, ghost c: nat)
    returns (r: Option<seq<seq<Node>>>, ghost c': nat, ghost turn: Turn)
    requires Ready(g) && State(Queue, g.Arcs(), E0, c) && Phased(Queue, g.Arcs(), E0, c) && Simple(E0) && g.A != []
    modifies g
    ensures r.None? ==> !OneEvenAtMost(E0)
    ensures r.Some? ==> Ready(g) && State(r.value, g.Arcs(), E0, c') && Phased(r.value, g.Arcs(), E0, c') &&
                        |g.Arcs()| < |old(g.Arcs())|
    ensures r.Some? ==> TurnRight(old(g.Arcs()), turn, balanced) && QueueNext(Queue, turn, r.value) &&
                        g.Arcs() == LinksNext(old(g.Arcs()), turn)
  {
    hide Component, Degree, Odd, ArcsOf, Proper, State, Touched, CircuitOnly, OneEvenAtMost, HasEven, PassRight,
         SplicedIn, DegreesWithin;
    g.Degrees();
    var subgraph := g.F1();
    AllMeasured(g.neighbors, g.keys, g.degree, subgraph);
    var T := g.Judge(subgraph);
    c' := c;
    ghost var path;
    if T > 0 {
      if |Queue| > 0 {
        r, path := SpliceCircuit(g, Queue, subgraph[T-1], E0, c);
      } else {
        NothingQueued(g.Arcs(), E0, c);
        var Queue';
        Queue', path := FirstCircuit(g, subgraph[T-1], E0);
        r, c' := Some(Queue'), 1;
      }
      turn := Circuit(subgraph, T - 1, path);
    } else {
      var Queue';
      Queue', turn := PeelTurn(g, Queue, subgraph, balanced, E0, c);
      r := Some(Queue');
    }
  }

  method PeelTurn(g: Graph, Queue: seq<seq<Node>>, subgraph: seq<seq<Node>>, balanced: bool, ghost E0: set<Arc>,
                  ghost c: nat)
    returns (Queue': seq<seq<Node>>, ghost turn: Turn)
    requires Ready(g) && State(Queue, g.Arcs(), E0, c) && Phased(Queue, g.Arcs(), E0, c) && Simple(E0) && g.A != []
    requires Components(g.Arcs(), subgraph)
    requires forall k :: 0 <= k < |subgraph| ==> Odd(g.Arcs(), Elems(subgraph[k])) != {}
    requires forall k :: 0 <= k < |subgraph| ==> DegreesWithin(g.degree, g.Arcs(), Elems(subgraph[k]))
    modifies g`neighbors, g`A
    ensures Ready(g) && State(Queue', g.Arcs(), E0, c) && Phased(Queue', g.Arcs(), E0, c)
    ensures |g.Arcs()| < |old(g.Arcs())|
    ensures TurnRight(old(g.Arcs()), turn, balanced) && QueueNext(Queue, turn, Queue')
    ensures g.Arcs() == LinksNext(old(g.Arcs()), turn)
  {
    hide Component, Degree, Odd, ArcsOf, Proper, Touched, CircuitOnly, OneEvenAtMost, HasEven, DegreesWithin, PassRight;
    ghost var E := g.Arcs();
    ProperIsSimple(g.neighbors);
    assert g.A[0] in Elems(g.A);
    SomeComponent(E, subgraph, g.A[0]);
    EvenSettled(Queue, E, E0, c, subgraph);
    Remaining(Queue, E, E0);
    ghost var paths;
    Queue', paths := PeelAll(g, Queue, subgraph, balanced, E0, c);
    turn := Pass(subgraph, paths);
    VisitedIsTouched(Queue', g.Arcs(), E, E0, subgraph);
  }

  // ---- find_path ----

  /** `find_path`. It succeeds exactly when at most one connected component of the network is without odd nodes, as
      for every connected network; it then returns trails that use every link exactly once, and no split of the
      links into trails has fewer. */
  method FindPath(G: Matrix, balanced: bool) returns (r: Option<seq<seq<Node>>>, ghost log: seq<Entry>)
    requires Network(G)
    ensures r.Some? <==> OneEvenAtMost(LinksOf(G))
    ensures r.Some? ==> Decomposes(r.value, LinksOf(G)) && AllLinked(r.value)
    ensures r.Some? ==> 2 * |r.value| == |Odd(LinksOf(G), Ends(LinksOf(G)))| + if HasEven(LinksOf(G)) then 2 else 0
    ensures r.Some? ==> forall Q :: Decomposes(Q, LinksOf(G)) ==> |r.value| <= |Q|
    ensures r.Some? ==> Logged(LinksOf(G), log, balanced, {}, r.value)
  {
    hide Logged, TurnRight, QueueNext, LinksNext, State, Phased, Decomposes, AllLinked, OneEvenAtMost, HasEven, Odd,
         LinksOf, ArcsOf, Proper, Network;
    ghost var E0 := LinksOf(G);
    var g := BuildGraph(G);
    g.NotNullNode();
    var components := g.F1();
    var testG := g.neighbors;
    ProperIsSimple(g.neighbors);
    var Queue: seq<seq<Node>> := [];
    ghost var c := 0;
    log := [];
    LogNothing(E0, balanced);
    StartState(E0);
    while |g.A| > 0
      invariant fresh(g) && Ready(g) && State(Queue, g.Arcs(), E0, c) && Phased(Queue, g.Arcs(), E0, c)
      invariant Logged(E0, log, balanced, g.Arcs(), Queue)
      decreases |g.Arcs()|
    {
      ghost var E := g.Arcs();
      ghost var turn;
      r, c, turn := Turn(g, Queue, balanced, E0, c);
      if r.None? {
        return;
      }
      LogNext(E0, log, balanced, E, Queue, turn, r.value);
      log := log + [Entry(E, Queue, turn)];
      Queue := r.value;
    }
    NothingRemains(Queue, g.Arcs(), E0, c);
    var rest := Verification(Queue, testG);
    r := Some(Queue);
    NoneFewer(E0, Queue);
  }

  lemma {:induction false} NoneFewer(E0: set<Arc>, Queue: seq<seq<Node>>)
    requires Simple(E0) && 2 * |Queue| == |Odd(E0, Ends(E0))| + if HasEven(E0) then 2 else 0
    ensures forall Q :: Decomposes(Q, E0) ==> |Queue| <= |Q|
  {
    forall Q | Decomposes(Q, E0) ensures |Queue| <= |Q| {
      Bound(E0, Q);
    }
  }

  lemma {:induction false} StartState(E0: set<Arc>)
    ensures State([], E0, E0, 0) && Phased([], E0, E0, 0)
  {
  }

  lemma {:induction false} NothingRemains(Q: seq<seq<Node>>, E: set<Arc>, E0: set<Arc>, c: nat)
    requires State(Q, E, E0, c) && Phased(Q, E, E0, c) && Simple(E0) && Ends(E) == {}
    ensures E == {} && Decomposes(Q, E0) && AllLinked(Q) && OneEvenAtMost(E0)
    ensures 2 * |Q| == |Odd(E0, Ends(E0))| + if HasEven(E0) then 2 else 0
  {
    assert forall a :: a in E ==> a.u in Ends(E);
    assert E == {};
    forall x ensures Degree({}, x) == 0 { assert Out({}, x) == {}; }
    assert Odd({}, Ends(E0)) == {};
    EvenSettled(Q, E, E0, c, []);
  }
}

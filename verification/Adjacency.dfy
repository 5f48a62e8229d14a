/** Adjacency lists (a dictionary from nodes to neighbour lists) and the arc sets they stand for. */
module Adjacency {
  import opened ArcSets
  import opened Lists

  type Adj = map<Node, seq<Node>>

  ghost function ArcsOf(g: Adj): set<Arc> {
    set u, v | u in g && v in g[u] :: Arc(u, v)
  }

  /** Every link is listed at both of its ends, once, and joins two different nodes. */
  ghost predicate Proper(g: Adj) {
    (forall u :: u in g ==> Distinct(g[u])) &&
    (forall u, v :: u in g && v in g[u] ==> v in g && u != v && u in g[v])
  }

  lemma {:induction false} ProperIsSimple(g: Adj)
    requires Proper(g)
    ensures Simple(ArcsOf(g))
    ensures forall a :: a in ArcsOf(g) ==> a.u in g && a.v in g
  {
  }

  /** Removes the link between `u` and `v` from both lists, as every planner routine does. */
  function Unlink(g: Adj, u: Node, v: Node): Adj
    requires u in g && v in g && u != v && v in g[u] && u in g[v]
  {
    g[u := RemoveFirst(g[u], v)][v := RemoveFirst(g[v], u)]
  }

  lemma {:induction false} UnlinkArcs(g: Adj, u: Node, v: Node)
    requires Proper(g) && u in g && v in g[u]
    ensures Proper(Unlink(g, u, v))
    ensures Unlink(g, u, v).Keys == g.Keys
    ensures ArcsOf(Unlink(g, u, v)) == ArcsOf(g) - Link(u, v)
  {
    RemoveFirstElems(g[u], v);
    RemoveFirstElems(g[v], u);
    var h := Unlink(g, u, v);
    forall x, y ensures x in h && y in h[x] <==> x in g && y in g[x] && Arc(x, y) !in Link(u, v) {
    }
    forall a ensures a in ArcsOf(h) <==> a in ArcsOf(g) - Link(u, v) {
    }
  }

  /** Taking the first link of a trail out leaves the rest of the trail. */
  lemma {:induction false} UnlinkFirst(g: Adj, p: seq<Node>)
    requires Proper(g) && Trail(p) && TrailArcs(p) <= ArcsOf(g) && |p| > 1
    ensures p[0] in g && p[1] in g[p[0]] && p[1] in g && p[0] in g[p[1]] && p[0] != p[1]
    ensures Proper(Unlink(g, p[0], p[1])) && Unlink(g, p[0], p[1]).Keys == g.Keys
    ensures Trail(p[1..]) && TrailArcs(p[1..]) <= ArcsOf(Unlink(g, p[0], p[1]))
    ensures ArcsOf(Unlink(g, p[0], p[1])) - TrailArcs(p[1..]) == ArcsOf(g) - TrailArcs(p)
  {
    assert Arc(p[0], p[1]) in ArcsOf(g);
    UnlinkArcs(g, p[0], p[1]);
    LinkApart(p[0], p[1], p[1..]);
  }

  lemma {:induction false} NoArcs(p: seq<Node>)
    requires Trail(p)
    ensures |p| > 0 && TrailArcs(p[|p|-1..]) == {}
  {
  }

  /** Takes the links of a trail out, one `remove` at each end of every link. */
  method RemoveTrail(g: Adj, path: seq<Node>) returns (h: Adj)
    requires Proper(g) && Trail(path) && TrailArcs(path) <= ArcsOf(g)
    ensures Proper(h) && h.Keys == g.Keys && ArcsOf(h) == ArcsOf(g) - TrailArcs(path)
  {
    hide Proper, ArcsOf, Trail, TrailArcs, RemoveFirst;
    assert path[0..] == path;
    NoArcs(path);
    h := g;
    for i := 0 to |path| - 1
      invariant Proper(h) && h.Keys == g.Keys && Trail(path[i..]) && TrailArcs(path[i..]) <= ArcsOf(h)
      invariant ArcsOf(h) - TrailArcs(path[i..]) == ArcsOf(g) - TrailArcs(path)
    {
      var u, v := path[i], path[i+1];
      UnlinkFirst(h, path[i..]);
      assert path[i..][0] == u && path[i..][1] == v && path[i..][1..] == path[i+1..];
      h := h[u := RemoveFirst(h[u], v)];
      h := h[v := RemoveFirst(h[v], u)];
    }
  }

  lemma {:induction false} OutOfList(E: set<Arc>, x: Node, s: seq<Node>)
    requires Distinct(s) && forall a :: a in Out(E, x) <==> a.u == x && a.v in s
    ensures Degree(E, x) == |s|
    decreases |s|
  {
    if s == [] {
      assert Out(E, x) == {};
    } else {
      var F := E - {Arc(x, s[0])};
      assert Out(F, x) == Out(E, x) - {Arc(x, s[0])};
      forall a ensures a in Out(F, x) <==> a.u == x && a.v in s[1..] {
        if a.u == x && a.v in s[1..] {
          assert a.v in s && a in Out(E, x);
        }
      }
      OutOfList(F, x, s[1..]);
      assert Arc(x, s[0]) in Out(E, x);
    }
  }

  /** The length of a node's list is its degree. */
  lemma {:induction false} ListLengthIsDegree(g: Adj, x: Node)
    requires Proper(g) && x in g
    ensures |g[x]| == Degree(ArcsOf(g), x)
  {
    OutOfList(ArcsOf(g), x, g[x]);
  }

  /** `dict_copy`: the entries of `g` for the listed nodes. */
  function Restrict(g: Adj, keys: seq<Node>): Adj
    requires forall x :: x in keys ==> x in g
  {
    map x | x in keys :: g[x]
  }

  ghost function ArcsWithin(E: set<Arc>, C: set<Node>): set<Arc> {
    set a | a in E && a.u in C
  }

  lemma {:induction false} RestrictArcs(g: Adj, keys: seq<Node>)
    requires Proper(g) && (forall x :: x in keys ==> x in g) && Closed(ArcsOf(g), Elems(keys))
    ensures Proper(Restrict(g, keys))
    ensures Restrict(g, keys).Keys == Elems(keys)
    ensures ArcsOf(Restrict(g, keys)) == ArcsWithin(ArcsOf(g), Elems(keys))
  {
    var h := Restrict(g, keys);
    forall u, v | u in h && v in h[u] ensures v in h && u != v && u in h[v] {
      assert Arc(u, v) in ArcsOf(g);
    }
  }

  lemma {:induction false} WithinDegree(E: set<Arc>, C: set<Node>)
    ensures forall x :: x in C ==> Degree(ArcsWithin(E, C), x) == Degree(E, x)
    ensures Odd(ArcsWithin(E, C), C) == Odd(E, C)
    ensures Simple(E) && Closed(E, C) ==> Simple(ArcsWithin(E, C))
  {
    forall x | x in C ensures Degree(ArcsWithin(E, C), x) == Degree(E, x) {
      assert Out(ArcsWithin(E, C), x) == Out(E, x);
    }
  }

  /** A connected component: its members are the nodes reachable from its first one. */
  ghost predicate Component(E: set<Arc>, S: seq<Node>) {
    |S| > 0 && Distinct(S) && Closed(E, Elems(S)) && Elems(S) <= Ends(E) &&
    forall x :: x in S ==> Reachable(E, S[0], x)
  }

  lemma {:induction false} ComponentConnected(E: set<Arc>, S: seq<Node>, x: Node, y: Node)
    requires Simple(E) && Component(E, S) && x in S && y in S
    ensures Reachable(E, x, y)
  {
    ReachableBack(E, S[0], x);
    assert Reachable(E, S[0], y);
  }

  /** All nodes of a list of components. */
  ghost function Members(subgraph: seq<seq<Node>>): set<Node> {
    if subgraph == [] then {} else Members(subgraph[..|subgraph|-1]) + Elems(subgraph[|subgraph|-1])
  }

  lemma {:induction false} MemberIndex(subgraph: seq<seq<Node>>, x: Node)
    ensures x in Members(subgraph) <==> exists i :: 0 <= i < |subgraph| && x in subgraph[i]
  {
    if subgraph != [] {
      var front := subgraph[..|subgraph|-1];
      MemberIndex(front, x);
      if x in Members(front) {
        var i :| 0 <= i < |front| && x in front[i];
        assert x in subgraph[i];
      }
      if i :| 0 <= i < |subgraph| && x in subgraph[i] {
        if i < |front| {
          assert x in front[i];
        }
      }
    }
  }

  /** The components cover the linked nodes and do not overlap. */
  ghost predicate Components(E: set<Arc>, subgraph: seq<seq<Node>>) {
    (forall i :: 0 <= i < |subgraph| ==> Component(E, subgraph[i])) &&
    (forall i, j :: 0 <= i < j < |subgraph| ==> Elems(subgraph[i]) !! Elems(subgraph[j])) &&
    Members(subgraph) == Ends(E)
  }
}

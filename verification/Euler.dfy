/** Euler walks by a recursive Hierholzer that removes links from the very lists it iterates over. */
module Euler {
  import opened ArcSets
  import opened Lists
  import opened Adjacency

  ghost predicate AllEven(E: set<Arc>, C: set<Node>) {
    forall x :: x in C ==> Degree(E, x) % 2 == 0
  }

  /** The odd nodes in `C` are exactly `u` and `t`, or there are none and `u == t`. */
  ghost predicate OddEnds(E: set<Arc>, C: set<Node>, u: Node, t: Node) {
    u in C && t in C && forall x :: x in C ==> (Degree(E, x) % 2 == 1 <==> u != t && (x == u || x == t))
  }

  /** `tail`, read backwards, is a trail from `u` to `t`; its links are those that `E` has and `F` lacks. */
  ghost predicate PeeledTrail(E: set<Arc>, F: set<Arc>, tail: seq<Node>, u: Node, t: Node) {
    var w := Reverse(tail);
    Trail(w) && w[0] == u && w[|w|-1] == t && TrailArcs(w) <= E && F == E - TrailArcs(w)
  }

  ghost predicate Bare(F: set<Arc>, s: seq<Node>) {
    forall x :: x in s ==> Degree(F, x) == 0
  }

  /** A peeled trail none of whose nodes has a link left, with no odd node left in `C`. */
  ghost predicate Peeled(E: set<Arc>, F: set<Arc>, C: set<Node>, tail: seq<Node>, u: Node, t: Node) {
    PeeledTrail(E, F, tail, u, t) && AllEven(F, C) && Bare(F, tail)
  }

  lemma {:induction false} NothingLeft(E: set<Arc>, C: set<Node>, u: Node, t: Node)
    requires OddEnds(E, C, u, t) && Degree(E, u) == 0
    ensures Peeled(E, E, C, [u], u, t)
  {
    assert Reverse([u]) == [u];
    assert E - TrailArcs([u]) == E;
  }

  lemma {:induction false} LinkParity(E: set<Arc>, C: set<Node>, u: Node, n: Node, t: Node)
    requires Simple(E) && Closed(E, C) && OddEnds(E, C, u, t) && Arc(u, n) in E
    ensures OddEnds(E - Link(u, n), C, n, t)
  {
    hide Degree;
    assert n in C;
    RemoveLinkDegree(E, u, n, u);
    RemoveLinkDegree(E, u, n, n);
    forall x | x in C ensures Degree(E - Link(u, n), x) % 2 == 1 <==> n != t && (x == n || x == t) {
      RemoveLinkDegree(E, u, n, x);
    }
  }

  lemma {:induction false} ClosedShrinks(E: set<Arc>, F: set<Arc>, C: set<Node>)
    requires F <= E && Closed(E, C)
    ensures Closed(F, C)
  {
  }

  lemma {:induction false} BareShrinks(F: set<Arc>, G: set<Arc>, s: seq<Node>)
    requires G <= F && Bare(F, s)
    ensures Bare(G, s)
  {
    forall x | x in s ensures Degree(G, x) == 0 {
      assert Out(G, x) <= Out(F, x) == {};
    }
  }

  /** After the first link (u, n) and the recursion from `n`: prepend `u`. */
  lemma {:induction false} PrependNode(E: set<Arc>, F: set<Arc>, tail: seq<Node>, u: Node, n: Node, t: Node)
    requires Simple(E) && Arc(u, n) in E && PeeledTrail(E - Link(u, n), F, tail, n, t)
    ensures PeeledTrail(E, F, tail + [u], u, t)
  {
    ReverseAppend(tail, [u]);
    var w, link := Reverse(tail), Link(u, n);
    assert Reverse([u]) == [u] && Reverse(tail + [u]) == [u] + w;
    assert ([u] + w)[1..] == w && TrailArcs([u] + w) == link + TrailArcs(w);
    assert Arc(u, n) in link && Arc(u, n) !in TrailArcs(w);
    assert link <= E && E - link - TrailArcs(w) == E - (link + TrailArcs(w));
  }

  /** After the second link (u, n) and the recursion from `n`, which ends at `u` again. */
  lemma {:induction false} SpliceCircuit(E: set<Arc>, C: set<Node>, F: set<Arc>, first: seq<Node>, G: set<Arc>,
                                         second: seq<Node>,
                                         u: Node, n: Node, t: Node)
    requires Simple(E) && Simple(F) && PeeledTrail(E, F, first + [u], u, t) && Bare(F, first)
    requires Arc(u, n) in F && Peeled(F - Link(u, n), G, C, second, n, u)
    ensures Peeled(E, G, C, first + second + [u], u, t)
  {
    PrependNode(F, G, second, u, n, u);
    var v, w := Reverse(second + [u]), Reverse(first + [u]);
    TrailJoin(v, w);
    TrailArcsJoin(v, w);
    ReverseAppend(first, [u]);
    ReverseAppend(second, [u]);
    ReverseAppend(first + second, [u]);
    ReverseAppend(first, second);
    assert Reverse([u]) == [u];
    assert v == [u] + Reverse(second) && w == [u] + Reverse(first);
    assert w[1..] == Reverse(first);
    assert Reverse(first + second + [u]) == v + w[1..];
    BareShrinks(F, G, first);
    assert Reverse(second)[|second|-1] == second[0] == u;
  }

  lemma {:induction false} Regroup(p: seq<Node>, a: seq<Node>, b: seq<Node>, x: Node)
    ensures (p + a) + b == p + (a + b)
    ensures (p + (a + b)) + [x] == p + (a + b + [x])
  {
  }

  class Hierholzer {
    var g: Adj
    var path: seq<Node>

    constructor (g: Adj)
      ensures this.g == g && path == []
    {
      this.g := g;
      path := [];
    }

    /** `g[node].remove(n)` and `g[n].remove(node)`. */
    method TakeLink(node: Node, n: Node)
      requires Proper(g) && node in g && n in g[node]
      modifies this`g
      ensures Proper(g) && g.Keys == old(g.Keys) && n in g
      ensures ArcsOf(g) == old(ArcsOf(g)) - Link(node, n) && Arc(node, n) in old(ArcsOf(g))
      ensures |ArcsOf(g)| < |old(ArcsOf(g))|
    {
      ghost var E := ArcsOf(g);
      assert Arc(node, n) in E;
      UnlinkArcs(g, node, n);
      g := g[node := RemoveFirst(g[node], n)];
      g := g[n := RemoveFirst(g[n], node)];
      CardSubset(ArcsOf(g), E - {Arc(node, n)});
    }

    /** What holds before position `i` of the loop is read, if parity allows: nothing is done yet, or the recursion
        along the first link is back and has left an even, non-empty list. */
    ghost predicate AtPosition(i: nat, E: set<Arc>, C: set<Node>, first: seq<Node>, node: Node, t: Node)
      reads this`g
      requires node in g
    {
      |g[node]| > i && Closed(E, C) && node in C &&
      if i == 0 then
        ArcsOf(g) == E && first == [] && OddEnds(E, C, node, t)
      else
        i == 1 && AllEven(ArcsOf(g), C) && PeeledTrail(E, ArcsOf(g), first + [node], node, t) && Bare(ArcsOf(g), first)
    }

    /** The closure `hierholzer`; `tail` is what it appends to the path. The loop is Python's list iteration:
        position `i` of the list as it is by then. It works for any node; when parity allows (`fair`), the odd nodes
        within reach being `node` and `t` or none, what it appends is a trail that leaves nothing behind. */
    method Visit(node: Node, ghost fair: bool, ghost C: set<Node>, ghost t: Node) returns (ghost tail: seq<Node>)
      requires Proper(g) && node in g && (fair ==> Closed(ArcsOf(g), C) && OddEnds(ArcsOf(g), C, node, t))
      modifies this
      ensures Proper(g) && g.Keys == old(g.Keys) && path == old(path) + tail && ArcsOf(g) <= old(ArcsOf(g))
      ensures fair ==> Peeled(old(ArcsOf(g)), ArcsOf(g), C, tail, node, t)
      decreases |ArcsOf(g)|, 2
    {
      hide *;
      ghost var E := ArcsOf(g);
      ProperIsSimple(g);
      ListLengthIsDegree(g, node);
      if |g[node]| == 0 {
        if fair {
          NothingLeft(E, C, node, t);
        }
        path, tail := path + [node], [node];
        return;
      }
      if fair {
        PositionStart(C, node, t);
      }
      tail := [];
      var i := 0;
      while i < |g[node]|
        invariant Proper(g) && g.Keys == old(g.Keys) && path == old(path) + tail && ArcsOf(g) <= E
        invariant fair ==> AtPosition(i, E, C, tail, node, t) && |g[node]| > i
        decreases |ArcsOf(g)|
      {
        CardSubset(ArcsOf(g), E);
        ghost var added := Advance(i, fair, E, C, tail, node, t);
        Regroup(old(path), tail, added, node);
        tail := tail + added;
        if |g[node]| == 0 {
          path, tail := path + [node], tail + [node];
          return;
        }
        i := i + 1;
      }
      assert !fair;  // where parity allows the loop never runs out, which would leave `node` out of the path
    }

    /** The loop body up to its test: follow the link at position `i`. */
    method Advance(i: nat, ghost fair: bool, ghost E: set<Arc>, ghost C: set<Node>, ghost first: seq<Node>,
                   node: Node, ghost t: Node)
      returns (ghost added: seq<Node>)
      requires Proper(g) && Simple(E) && node in g && i < |g[node]| && ArcsOf(g) <= E
      requires fair ==> AtPosition(i, E, C, first, node, t)
      modifies this
      ensures Proper(g) && g.Keys == old(g.Keys) && path == old(path) + added
      ensures ArcsOf(g) <= old(ArcsOf(g)) && |ArcsOf(g)| < |old(ArcsOf(g))|
      ensures fair && |g[node]| == 0 ==> Peeled(E, ArcsOf(g), C, first + added + [node], node, t)
      ensures fair && |g[node]| > 0 ==> i == 0 && AtPosition(1, E, C, first + added, node, t) && |g[node]| > 1
      decreases |ArcsOf(g)|, 1
    {
      hide Proper, Simple, Closed, Degree, Peeled, Bare, AllEven, OddEnds;
      ghost var E1 := ArcsOf(g);
      ghost var end := if i == 0 then t else node;
      ProperIsSimple(g);
      if fair {
        PositionParity(i, E, C, first, node, t);
      }
      var n := g[node][i];
      TakeLink(node, n);
      if fair {
        LinkParity(E1, C, node, n, end);
        ClosedShrinks(E1, ArcsOf(g), C);
      }
      ghost var F := ArcsOf(g);
      added := Visit(n, fair, C, end);
      CardSubset(ArcsOf(g), F);
      if fair {
        Returned(i, E, C, E1, first, added, node, n, t);
      }
    }

    lemma {:induction false} PositionStart(C: set<Node>, node: Node, t: Node)
      requires node in g && |g[node]| > 0 && Closed(ArcsOf(g), C) && OddEnds(ArcsOf(g), C, node, t)
      ensures AtPosition(0, ArcsOf(g), C, [], node, t)
    {
    }

    lemma {:induction false} PositionParity(i: nat, E: set<Arc>, C: set<Node>, first: seq<Node>, node: Node, t: Node)
      requires node in g && AtPosition(i, E, C, first, node, t) && ArcsOf(g) <= E
      ensures Closed(ArcsOf(g), C) && OddEnds(ArcsOf(g), C, node, if i == 0 then t else node)
    {
      hide Degree;
      ClosedShrinks(E, ArcsOf(g), C);
    }

    /** Back from a recursion: along the first link one more may follow, along the second nothing is left. */
    lemma {:induction false} Returned(i: nat, E: set<Arc>, C: set<Node>, E1: set<Arc>, first: seq<Node>,
                                      added: seq<Node>,
                                      node: Node, n: Node, t: Node)
      requires Proper(g) && Simple(E) && Simple(E1) && node in g && Closed(E, C) && node in C && Arc(node, n) in E1
      requires if i == 0 then E1 == E && first == []
               else i == 1 && PeeledTrail(E, E1, first + [node], node, t) && Bare(E1, first)
      requires Peeled(E1 - Link(node, n), ArcsOf(g), C, added, n, if i == 0 then t else node)
      ensures |g[node]| == 0 ==> Peeled(E, ArcsOf(g), C, first + added + [node], node, t)
      ensures |g[node]| > 0 ==> i == 0 && AtPosition(1, E, C, first + added, node, t)
    {
      hide Proper, Simple, Closed, Degree;
      if i == 0 {
        PrependNode(E, ArcsOf(g), added, node, n, t);
        assert first + added == added;
        FirstReturn(E, C, added, node, t);
      } else {
        SpliceCircuit(E, C, E1, first, ArcsOf(g), added, node, n, t);
        BareNode(first + added + [node], node);
      }
    }

    lemma {:induction false} BareNode(tail: seq<Node>, node: Node)
      requires node in g && Proper(g) && Bare(ArcsOf(g), tail) && node in tail
      ensures |g[node]| == 0
    {
      ListLengthIsDegree(g, node);
    }

    /** Back from the first recursion, the list of `node` is either empty, and everything within reach is used, or
        holds at least two entries: index 1 of the changed list is there exactly when links are left. */
    lemma {:induction false} FirstReturn(E: set<Arc>, C: set<Node>, first: seq<Node>, node: Node, t: Node)
      requires node in g && Proper(g) && Closed(E, C) && node in C && AllEven(ArcsOf(g), C) && Bare(ArcsOf(g), first)
      requires PeeledTrail(E, ArcsOf(g), first + [node], node, t)
      ensures |g[node]| > 1 <==> Degree(ArcsOf(g), node) > 0
      ensures |g[node]| == 0 ==> Peeled(E, ArcsOf(g), C, first + [node], node, t)
      ensures |g[node]| > 0 ==> AtPosition(1, E, C, first, node, t)
    {
      ListLengthIsDegree(g, node);
    }
  }

  // ---- euler ----

  /** The string 'Not Eulerian Graph', or the start and the path. */
  datatype EulerResult = NotEulerian | EulerWalk(start: Node, path: seq<Node>)

  method OddDegreeNodes(keys: seq<Node>, g: Adj) returns (odd: seq<Node>)
    requires Proper(g) && Distinct(keys) && Elems(keys) == g.Keys
    ensures Distinct(odd) && Elems(odd) == Odd(ArcsOf(g), g.Keys)
  {
    odd := [];
    for i := 0 to |keys|
      invariant Distinct(odd) && forall x :: x in odd <==> x in keys[..i] && Degree(ArcsOf(g), x) % 2 == 1
    {
      assert keys[i] in Elems(keys);
      ListLengthIsDegree(g, keys[i]);
      assert keys[..i+1] == keys[..i] + [keys[i]] && keys[i] !in keys[..i];
      if |g[keys[i]]| % 2 != 0 {
        odd := odd + [keys[i]];
      }
    }
    assert keys[..|keys|] == keys;
    forall x ensures x in Elems(odd) <==> x in Odd(ArcsOf(g), g.Keys) {
      assert x in keys <==> x in Elems(keys);
    }
  }

  /** A trail that leaves all its nodes bare has used up the whole component of its start. */
  lemma {:induction false} BareTrailIsComponent(E: set<Arc>, p: seq<Node>)
    requires Simple(E) && Trail(p) && TrailArcs(p) <= E && Bare(E - TrailArcs(p), p)
    ensures TrailArcs(p) == ArcsFrom(E, p[0])
  {
    TrailIsWalk(p);
    TrailArcsSymmetric(p);
    var S := Elems(p);
    forall a | a in E && a.u in S ensures a in TrailArcs(p) && a.v in S {
      assert a in E - TrailArcs(p) ==> a in Out(E - TrailArcs(p), a.u);
    }
    forall x | x in p ensures Reachable(E, p[0], x) {
      forall T: set<Node> | p[0] in T && Closed(E, T) ensures x in T {
        WalkStaysInClosed(E, p, T);
      }
    }
    assert Closed(E, S);
    forall a | a in ArcsFrom(E, p[0]) ensures a in TrailArcs(p) {
      assert p[0] in S;
    }
  }

  /** The nodes within reach of `u`, among `keys`, and the odd ones of them. */
  ghost function Within(E: set<Arc>, keys: set<Node>, u: Node): set<Node> {
    set x | x in keys && Reachable(E, u, x)
  }

  ghost function OddWithin(E: set<Arc>, keys: set<Node>, u: Node): set<Node> {
    Odd(E, Within(E, keys, u))
  }

  lemma {:induction false} WithinClosed(E: set<Arc>, keys: set<Node>, u: Node)
    requires Closed(E, keys)
    ensures Closed(E, Within(E, keys, u))
  {
    forall a | a in E && a.u in Within(E, keys, u) ensures a.v in Within(E, keys, u) {
      forall S: set<Node> | u in S && Closed(E, S) ensures a.v in S {
      }
    }
  }

  /** A start from which an Euler walk can be had: an odd node, or one with no odd node within reach. */
  ghost predicate Startable(E: set<Arc>, keys: set<Node>, u: Node) {
    OddWithin(E, keys, u) == {} || u in OddWithin(E, keys, u)
  }

  /** A circuit when no node is odd, otherwise a walk between the two odd nodes. */
  ghost predicate EndsAtOdd(p: seq<Node>, odd: set<Node>)
    requires |p| > 0
  {
    if odd == {} then p[|p|-1] == p[0] else p[|p|-1] != p[0] && odd == {p[0], p[|p|-1]}
  }

  /** A trail from `u` over everything within its reach, with the ends that parity asks for. */
  ghost predicate EulerTrail(E: set<Arc>, keys: set<Node>, u: Node, p: seq<Node>) {
    Trail(p) && p[0] == u && TrailArcs(p) == ArcsFrom(E, u) && EndsAtOdd(p, OddWithin(E, keys, u))
  }

  lemma {:induction false} OddPair(E: set<Arc>, keys: set<Node>, u: Node) returns (t: Node)
    requires Simple(E) && Closed(E, keys) && u in keys && |Odd(E, keys)| <= 2 && Startable(E, keys, u)
    ensures OddEnds(E, Within(E, keys, u), u, t) && Closed(E, Within(E, keys, u))
    ensures if OddWithin(E, keys, u) == {} then t == u else t != u && OddWithin(E, keys, u) == {u, t}
  {
    var C := Within(E, keys, u);
    WithinClosed(E, keys, u);
    Handshake(E, C);
    assert Odd(E, C) <= Odd(E, keys);
    CardSubset(Odd(E, C), Odd(E, keys));
    t := u;
    assert u in C by {
      assert Reachable(E, u, u);
    }
    hide Reachable, Degree;
    if u in Odd(E, C) {
      t := OtherOfTwo(Odd(E, C), u);
    }
    forall x | x in C ensures Degree(E, x) % 2 == 1 <==> u != t && (x == u || x == t) {
      assert x in Odd(E, C) <==> Degree(E, x) % 2 == 1;
    }
  }

  lemma {:induction false} OtherOfTwo(A: set<Node>, u: Node) returns (t: Node)
    requires |A| <= 2 && |A| % 2 == 0 && u in A
    ensures t != u && A == {u, t}
  {
    CardWithout(A, u);
    assert (forall x :: x in A ==> x == u) ==> A == {u};
    t :| t in A && t != u;
    CardWithoutTwo(A, u, t);
    assert A - {u, t} == {};
  }

  /** From any other start there is no such walk: a trail over everything has an odd node at each end. */
  lemma {:induction false} NoOtherStart(E: set<Arc>, keys: set<Node>, u: Node, p: seq<Node>)
    requires Simple(E) && u in keys && EulerTrail(E, keys, u, p)
    ensures Startable(E, keys, u)
  {
  }

  /** `euler`: refused exactly with more than two odd nodes. Otherwise the walk uses every link within reach of its
      start exactly once, if and only if the start is odd or no odd node is within its reach. */
  method Run(keys: seq<Node>, G: Adj, start: Option<Node>) returns (r: EulerResult)
    requires Proper(G) && Distinct(keys) && Elems(keys) == G.Keys && keys != []
    requires start.Some? && start.value != 0 ==> start.value in G
    ensures r.NotEulerian? <==> |Odd(ArcsOf(G), G.Keys)| > 2
    ensures r.EulerWalk? ==> r.start in G && (start.Some? && start.value != 0 ==> r.start == start.value)
    ensures r.EulerWalk? ==> (EulerTrail(ArcsOf(G), G.Keys, r.start, r.path) <==> Startable(ArcsOf(G), G.Keys, r.start))
    ensures r.EulerWalk? && (start.None? || start.value == 0) ==> Startable(ArcsOf(G), G.Keys, r.start)
  {
    ghost var E := ArcsOf(G);
    ProperIsSimple(G);
    var odn := OddDegreeNodes(keys, G);
    DistinctCard(odn);
    KeysClosed(G);
    Handshake(E, G.Keys);
    if |odn| > 2 || |odn| == 1 {
      return NotEulerian;
    }
    var u := PickStart(keys, odn, start);
    StartInGraph(keys, odn, E, G.Keys, u);
    ghost var fair, t := Startable(E, G.Keys, u), u;
    if fair {
      t := OddPair(E, G.Keys, u);
    }
    var path := WalkFrom(G, u, fair, t);
    r := EulerWalk(u, path);
    if EulerTrail(E, G.Keys, u, path) {
      NoOtherStart(E, G.Keys, u, path);
    }
  }

  lemma {:induction false} KeysClosed(G: Adj)
    requires Proper(G)
    ensures Closed(ArcsOf(G), G.Keys)
  {
  }

  lemma {:induction false} StartInGraph(keys: seq<Node>, odn: seq<Node>, E: set<Arc>, nodes: set<Node>, u: Node)
    requires keys != [] && Elems(keys) == nodes && Elems(odn) == Odd(E, nodes) && (|odn| == 0 || |odn| == 2)
    requires u in nodes || u == if |odn| == 2 then odn[0] else keys[0]
    ensures u in nodes
    ensures u == (if |odn| == 2 then odn[0] else keys[0]) ==> Startable(E, nodes, u)
  {
    assert keys[0] in Elems(keys);
    if |odn| == 2 {
      assert odn[0] in Elems(odn);
      assert Reachable(E, u, u);
    } else {
      assert Odd(E, Within(E, nodes, u)) <= Odd(E, nodes);
    }
  }

  method PickStart(keys: seq<Node>, odn: seq<Node>, start: Option<Node>) returns (u: Node)
    requires keys != []
    ensures u == if start.Some? && start.value != 0 then start.value else if |odn| == 2 then odn[0] else keys[0]
  {
    if start.Some? && start.value != 0 {
      u := start.value;
    } else if |odn| == 2 {
      u := odn[0];
    } else {
      u := keys[0];
    }
  }

  /** Hierholzer from `u`, on a copy of the lists, and the final `path.reverse()`. */
  method WalkFrom(G: Adj, u: Node, ghost fair: bool, ghost t: Node) returns (path: seq<Node>)
    requires Proper(G) && u in G && Closed(ArcsOf(G), Within(ArcsOf(G), G.Keys, u))
    requires fair ==> OddEnds(ArcsOf(G), Within(ArcsOf(G), G.Keys, u), u, t)
    ensures fair ==> Trail(path) && path[0] == u && path[|path|-1] == t && TrailArcs(path) == ArcsFrom(ArcsOf(G), u)
  {
    ProperIsSimple(G);
    var h := new Hierholzer(G);
    ghost var tail := h.Visit(u, fair, Within(ArcsOf(G), G.Keys, u), t);
    assert [] + tail == tail;
    path := Reverse(h.path);
    if fair {
      forall x | x in path ensures x in tail { }
      BareTrailIsComponent(ArcsOf(G), path);
    }
  }
}

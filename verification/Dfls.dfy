/** The depth-first planner that `find_path` competes with: `DFLSPathPlan`. */
module Dfls {
  import opened ArcSets
  import opened Lists
  import opened Planner
  import opened EvenComponents

  /** A square, symmetric 0/1 matrix with zero diagonal. */
  ghost predicate Topology(L: Matrix) {
    (forall i :: 0 <= i < |L| ==> |L[i]| == |L|) &&
    (forall i, j :: 0 <= i < |L| && 0 <= j < |L| ==> L[i][j] == 0 || L[i][j] == 1) &&
    (forall i, j :: 0 <= i < |L| && 0 <= j < |L| ==> L[i][j] == L[j][i]) &&
    forall i :: 0 <= i < |L| ==> L[i][i] == 0
  }

  /** The links still marked 1; node x of the arcs is row x - 1. */
  ghost function Unused(L: Matrix): set<Arc>
    requires Topology(L)
  {
    set i, j | 0 <= i < |L| && 0 <= j < |L| && L[i][j] == 1 :: Arc(i + 1, j + 1)
  }

  lemma {:induction false} UnusedIsLinks(L: Matrix)
    requires Topology(L)
    ensures Unused(L) == LinksOf(L) && Simple(Unused(L)) && Network(L)
  {
    forall a ensures a in Unused(L) <==> a in LinksOf(L) {
      LinksByCell(L, a);
      if Cell(L, a.u - 1, a.v - 1) {
        var i, j := a.u - 1, a.v - 1;
        assert L[i][j] == 1 && a == Arc(i + 1, j + 1);
      }
    }
  }

  /** `linkState[v][j] = 0; linkState[j][v] = 0`. */
  function Clear(L: Matrix, v: nat, j: nat): Matrix
    requires v < |L| && j < |L| && v < |L[j]| && j < |L[v]| && v != j
  {
    L[v := L[v][j := 0]][j := L[j][v := 0]]
  }

  lemma {:induction false} ClearTopology(L: Matrix, M: Matrix, v: nat, j: nat)
    requires Topology(L) && |M| == |L| && forall x :: 0 <= x < |L| ==> |M[x]| == |L|
    requires forall x, y :: 0 <= x < |L| && 0 <= y < |L| ==>
               M[x][y] == if (x == v && y == j) || (x == j && y == v) then 0 else L[x][y]
    ensures Topology(M)
  {
    forall x, y | 0 <= x < |L| && 0 <= y < |L| ensures M[x][y] == M[y][x] {
      assert L[x][y] == L[y][x];
    }
  }

  lemma {:induction false} ClearUnused(L: Matrix, v: nat, j: nat)
    requires Topology(L) && v < |L| && j < |L| && L[v][j] == 1
    ensures v < |L[j]| && j < |L[v]| && v != j && |Clear(L, v, j)| == |L|
    ensures Topology(Clear(L, v, j)) && Link(v + 1, j + 1) <= Unused(L)
    ensures Unused(Clear(L, v, j)) == Unused(L) - Link(v + 1, j + 1)
  {
    var M := Clear(L, v, j);
    assert L[j][v] == 1;
    var y, x := v, j;
    assert Arc(x + 1, y + 1) in Unused(L);
    forall x, y | 0 <= x < |L| && 0 <= y < |L|
      ensures M[x][y] == if (x == v && y == j) || (x == j && y == v) then 0 else L[x][y]
    {
    }
    ClearTopology(L, M, v, j);
    forall a ensures a in Unused(M) <==> a in Unused(L) && a !in Link(v + 1, j + 1) {
      if a in Unused(L) && a !in Link(v + 1, j + 1) {
        var x, y := a.u - 1, a.v - 1;
        assert M[x][y] == 1;
      }
    }
  }

  /** The trails and the unused links, together with a link just taken that no trail carries yet. */
  ghost predicate Books(trails: seq<seq<Node>>, pending: seq<Node>, E: set<Arc>, E0: set<Arc>) {
    AllTrails(trails) && Total(trails) + multiset(TrailArcs(pending)) + multiset(E) == multiset(E0)
  }

  lemma {:induction false} BooksApart(trails: seq<seq<Node>>, E: set<Arc>, E0: set<Arc>)
    requires Books(trails, [], E, E0)
    ensures E <= E0
    ensures forall i, a :: 0 <= i < |trails| && a in TrailArcs(trails[i]) ==> a !in E
  {
    forall a | a in E ensures a in E0 {
      assert multiset(E0)[a] > 0;
    }
    forall i, a | 0 <= i < |trails| && a in TrailArcs(trails[i]) ensures a !in E {
      TotalMember(trails, a);
      assert multiset(E0)[a] <= 1;
    }
  }

  ghost predicate EndsAt(trails: seq<seq<Node>>, u: Node) {
    trails != [] && trails[|trails|-1] != [] && trails[|trails|-1][|trails[|trails|-1]|-1] == u
  }

  /** The pending nodes become a path of their own. */
  lemma {:induction false} BooksOpen(trails: seq<seq<Node>>, pending: seq<Node>, E: set<Arc>, E0: set<Arc>)
    requires Books(trails, pending, E, E0) && Trail(pending)
    ensures Books(trails + [pending], [], E, E0) && EndsAt(trails + [pending], pending[|pending|-1])
  {
    TotalAppend(trails, pending);
  }

  /** A taken link waits for the path it will open. */
  lemma {:induction false} BooksTake(trails: seq<seq<Node>>, E: set<Arc>, E0: set<Arc>, u: Node, w: Node)
    requires Books(trails, [], E, E0) && Link(u, w) <= E && u != w
    ensures Books(trails, [u, w], E - Link(u, w), E0) && Trail([u, w])
  {
    assert TrailArcs([u, w]) == Link(u, w) + TrailArcs([u, w][1..]);
    assert multiset(E) == multiset(E - Link(u, w)) + multiset(Link(u, w));
  }

  function ExtendLast(trails: seq<seq<Node>>, w: Node): seq<seq<Node>>
    requires trails != []
  {
    trails[..|trails|-1] + [trails[|trails|-1] + [w]]
  }

  /** A taken link lengthens the path that ends where it starts. */
  lemma {:induction false} BooksExtend(trails: seq<seq<Node>>, E: set<Arc>, E0: set<Arc>, u: Node, w: Node)
    requires Books(trails, [], E, E0) && Link(u, w) <= E && u != w && EndsAt(trails, u)
    ensures Books(ExtendLast(trails, w), [], E - Link(u, w), E0) && EndsAt(ExtendLast(trails, w), w)
  {
    hide TrailArcs, Total;
    var front, p := trails[..|trails|-1], trails[|trails|-1];
    BooksApart(trails, E, E0);
    BooksTake(trails, E, E0, u, w);
    ExtendTrail(p, u, w);
    assert trails == front + [p];
    TotalAppend(front, p);
    TotalAppend(front, p + [w]);
    forall i | 0 <= i < |front| ensures Trail(front[i]) {
      assert Trail(trails[i]);
    }
  }

  lemma {:induction false} ExtendTrail(p: seq<Node>, u: Node, w: Node)
    requires Trail(p) && p[|p|-1] == u && u != w && Link(u, w) !! TrailArcs(p)
    ensures Trail(p + [w]) && TrailArcs(p + [w]) == TrailArcs(p) + Link(u, w)
    ensures multiset(TrailArcs(p + [w])) == multiset(TrailArcs(p)) + multiset(TrailArcs([u, w]))
  {
    assert [u, w][1..] == [w] && TrailArcs([u, w]) == Link(u, w) + TrailArcs([w]);
    TrailJoin(p, [u, w]);
    TrailArcsJoin(p, [u, w]);
  }

  /** The links that left between `E` and `F` are reachable from `v`, and their ends have no link left; while
      `open`, `v` itself may still have some. */
  ghost predicate Spent(E: set<Arc>, F: set<Arc>, E0: set<Arc>, v: Node, open: bool) {
    F <= E <= E0 &&
    forall a :: a in E && a !in F ==> Reachable(E0, v, a.u) && (Out(F, a.u) == {} || (open && a.u == v))
  }

  lemma {:induction false} SpentStep(E: set<Arc>, E1: set<Arc>, F: set<Arc>, E0: set<Arc>, v: Node, j: Node)
    requires Spent(E, E1, E0, v, true) && Link(v, j) <= E1
    requires Spent(E1 - Link(v, j), F, E0, j, false) && Out(F, j) == {}
    ensures Spent(E, F, E0, v, true)
  {
    assert Arc(v, j) in E0;
    forall a | a in E && a !in F ensures Reachable(E0, v, a.u) && (Out(F, a.u) == {} || a.u == v) {
      if a in Link(v, j) {
      } else if a in E1 {
        assert Reachable(E0, j, a.u);
      } else {
        assert Out(F, a.u) <= Out(E1, a.u);
      }
    }
  }

  lemma {:induction false} SpentStart(E: set<Arc>, E0: set<Arc>, v: Node)
    requires E <= E0
    ensures Spent(E, E, E0, v, true)
  {
  }

  lemma {:induction false} SpentClose(E: set<Arc>, F: set<Arc>, E0: set<Arc>, v: Node)
    requires Spent(E, F, E0, v, true) && Out(F, v) == {}
    ensures Spent(E, F, E0, v, false)
  {
  }

  lemma {:induction false} SpentShrinks(E: set<Arc>, F: set<Arc>, E0: set<Arc>, v: Node, open: bool)
    requires Spent(E, F, E0, v, open)
    ensures |F| <= |E| && F <= E
  {
    CardSubset(F, E);
  }

  lemma {:induction false} UnusedRange(L: Matrix)
    requires Topology(L)
    ensures forall a :: a in Unused(L) ==> 1 <= a.u <= |L| && 1 <= a.v <= |L|
  {
  }

  lemma {:induction false} NoneLeftAt(L: Matrix, v: nat)
    requires Topology(L) && forall a :: a in Unused(L) && a.u == v + 1 ==> a.v > |L|
    ensures Out(Unused(L), v + 1) == {}
  {
    assert forall a :: a in Unused(L) ==> a.v <= |L|;
  }

  // ---- the order of the walk ----

  /** The least node with an unused link to `v`. */
  ghost function LeastNext(U: set<Arc>, v: Node): (w: Node)
    requires Out(U, v) != {}
    ensures Arc(v, w) in U && forall y :: Arc(v, y) in U ==> w <= y
  {
    LeastExists(U, v);
    var w :| Arc(v, w) in U && forall y :: Arc(v, y) in U ==> w <= y;
    w
  }

  lemma {:induction false} LeastExists(U: set<Arc>, v: Node)
    requires Out(U, v) != {}
    ensures exists w :: Arc(v, w) in U && forall y :: Arc(v, y) in U ==> w <= y
    decreases |U|
  {
    var a :| a in Out(U, v);
    assert Arc(v, a.v) in U;
    if Out(U - {a}, v) == {} {
      forall y | Arc(v, y) in U ensures a.v <= y {
        assert Arc(v, y) != a ==> Arc(v, y) in Out(U - {a}, v);
      }
    } else {
      LeastExists(U - {a}, v);
      var w :| Arc(v, w) in U - {a} && forall y :: Arc(v, y) in U - {a} ==> w <= y;
      var m := if a.v <= w then a.v else w;
      forall y | Arc(v, y) in U ensures m <= y {
        assert Arc(v, y) != a ==> Arc(v, y) in U - {a};
      }
    }
  }

  /** How many paths a walk opens from here: it always takes the unused link to the least node; without one it goes back
      along `stack`, and the next link it takes then opens a path (`back`). */
  ghost function Opened(U: set<Arc>, stack: seq<Node>, back: bool): nat
    requires Simple(U)
    decreases |U|, |stack|
  {
    if stack == [] then 0 else
    var v := stack[|stack|-1];
    if Out(U, v) == {} then Opened(U, stack[..|stack|-1], true) else
    var w := LeastNext(U, v);
    WithoutLink(U, v, w);
    (if back then 1 else 0) + Opened(U - Link(v, w), stack + [w], false)
  }

  lemma {:induction false} WithoutLink(U: set<Arc>, v: Node, w: Node)
    requires Simple(U) && Arc(v, w) in U
    ensures Simple(U - Link(v, w)) && |U - Link(v, w)| < |U|
  {
    CardSubset(U - Link(v, w), U - {Arc(v, w)});
  }

  lemma {:induction false} OpenedTaken(U: set<Arc>, stack: seq<Node>, v: Node, w: Node, back: bool)
    requires Simple(U) && Arc(v, w) in U && forall y :: Arc(v, y) in U ==> w <= y
    ensures Simple(U - Link(v, w))
    ensures Opened(U, stack + [v], back) == (if back then 1 else 0) + Opened(U - Link(v, w), stack + [v] + [w], false)
  {
    WithoutLink(U, v, w);
    assert Arc(v, w) in Out(U, v);
    assert LeastNext(U, v) == w;
  }

  lemma {:induction false} OpenedBack(U: set<Arc>, stack: seq<Node>, v: Node, back: bool)
    requires Simple(U) && Out(U, v) == {}
    ensures Opened(U, stack + [v], back) == Opened(U, stack, true)
  {
    assert (stack + [v])[..|stack|] == stack;
  }

  class DflsState {
    var linkState: Matrix
    var pathCount: nat
    ghost var trails: seq<seq<Node>>  // the paths counted so far, as the links were walked
    ghost var deadEnds: nat           // calls that found no unused link

    constructor (topoMatrix: Matrix)
      ensures linkState == topoMatrix && pathCount == 0 && trails == [] && deadEnds == 0
    {
      linkState, pathCount, trails, deadEnds := topoMatrix, 0, [], 0;
    }

    ghost predicate Valid(E0: set<Arc>, pending: seq<Node>)
      reads this
    {
      Topology(linkState) && Simple(E0) && pathCount == |trails| && Books(trails, pending, Unused(linkState), E0)
    }

    /** Clears the link between `v` and `j`; a path that ends at `v` grows by it. */
    method Take(v: nat, j: nat, isNewPath: bool, ghost E0: set<Arc>)
      requires Valid(E0, []) && v < |linkState| && j < |linkState| && linkState[v][j] == 1
      requires !isNewPath ==> EndsAt(trails, v + 1)
      modifies this`linkState, this`trails
      ensures Valid(E0, if isNewPath then [v + 1, j + 1] else []) && |linkState| == old(|linkState|)
      ensures Link(v + 1, j + 1) <= old(Unused(linkState))
      ensures Unused(linkState) == old(Unused(linkState)) - Link(v + 1, j + 1)
      ensures |Unused(linkState)| < |old(Unused(linkState))|
      ensures isNewPath ==> Trail([v + 1, j + 1])
      ensures !isNewPath ==> EndsAt(trails, j + 1)
    {
      hide Topology, Books, Trail, TrailArcs, Total, AllTrails, Simple, Unused, Clear;
      ghost var E := Unused(linkState);
      ClearUnused(linkState, v, j);
      BooksTake(trails, E, E0, v + 1, j + 1);
      if !isNewPath {
        BooksExtend(trails, E, E0, v + 1, j + 1);
        trails := ExtendLast(trails, j + 1);
      }
      linkState := Clear(linkState, v, j);
      CardSubset(Unused(linkState), E - {Arc(v + 1, j + 1)});
    }

    /** The closure `DFLS`. With `isNewPath` a path is counted that starts with the nodes `pending`; otherwise
        the last counted path ends at `v`. */
    method Run(v: nat, isNewPath: bool, ghost pending: seq<Node>, ghost E0: set<Arc>, ghost stack: seq<Node>)
      returns (isNewPath': bool)
      requires Valid(E0, if isNewPath then pending else []) && (linkState != [] ==> v < |linkState|)
      requires isNewPath ==> Trail(pending) && pending[|pending|-1] == v + 1
      requires !isNewPath ==> EndsAt(trails, v + 1)
      modifies this
      ensures isNewPath' && Valid(E0, []) && |linkState| == old(|linkState|)
      ensures Spent(old(Unused(linkState)), Unused(linkState), E0, v + 1, false)
      ensures Out(Unused(linkState), v + 1) == {}
      ensures deadEnds - old(deadEnds) == pathCount - old(pathCount) + (if isNewPath then 0 else 1)
      ensures Simple(old(Unused(linkState))) && Simple(Unused(linkState))
      ensures pathCount + Opened(Unused(linkState), stack, true) ==
              old(pathCount) + (if isNewPath then 1 else 0) + Opened(old(Unused(linkState)), stack + [v + 1], false)
      decreases |Unused(linkState)|, 1
    {
      hide Topology, Books, Trail, TrailArcs, Total, AllTrails, Simple, Spent, EndsAt, Unused, Out, Reachable, Opened;
      ghost var E := Unused(linkState);
      UnusedSimple(linkState);
      isNewPath' := isNewPath;
      if isNewPath {
        pathCount := pathCount + 1;
        isNewPath' := false;
        BooksOpen(trails, pending, E, E0);
        trails := trails + [pending];
      }
      BooksApart(trails, E, E0);
      SpentStart(E, E0, v + 1);
      UnusedRange(linkState);
      ghost var counted := pathCount;
      for j := 0 to |linkState|
        invariant Valid(E0, []) && |linkState| == old(|linkState|) && Spent(E, Unused(linkState), E0, v + 1, true)
        invariant !isNewPath' ==> EndsAt(trails, v + 1) && pathCount == counted && deadEnds == old(deadEnds)
        invariant isNewPath' ==> deadEnds - old(deadEnds) == pathCount - counted + 1
        invariant forall a :: a in Unused(linkState) && a.u == v + 1 ==> a.v > j
        invariant Simple(Unused(linkState)) && pathCount + Opened(Unused(linkState), stack + [v + 1], isNewPath') ==
                                              counted + Opened(E, stack + [v + 1], false)
      {
        RowSize(linkState, v, j);
        if linkState[v][j] == 1 {
          SpentShrinks(E, Unused(linkState), E0, v + 1, true);
          isNewPath' := Follow(v, j, isNewPath', E, E0, stack);
        }
      }
      NoneLeftAt(linkState, v);
      OpenedBack(Unused(linkState), stack, v + 1, isNewPath');
      SpentClose(E, Unused(linkState), E0, v + 1);
      if !isNewPath' {
        deadEnds := deadEnds + 1;
      }
      isNewPath' := true;
    }

    /** The loop body for an unused link: clear it and recurse to its other end. */
    method Follow(v: nat, j: nat, isNewPath: bool, ghost E: set<Arc>, ghost E0: set<Arc>, ghost stack: seq<Node>)
      returns (isNewPath': bool)
      requires Valid(E0, []) && v < |linkState| && j < |linkState|
      requires |linkState[v]| == |linkState| && linkState[v][j] == 1
      requires Spent(E, Unused(linkState), E0, v + 1, true) && (!isNewPath ==> EndsAt(trails, v + 1))
      requires forall a :: a in Unused(linkState) && a.u == v + 1 ==> a.v > j
      modifies this
      ensures isNewPath' && Valid(E0, []) && |linkState| == old(|linkState|)
      ensures Spent(E, Unused(linkState), E0, v + 1, true)
      ensures Unused(linkState) <= old(Unused(linkState)) && Arc(v + 1, j + 1) !in Unused(linkState)
      ensures deadEnds - old(deadEnds) == pathCount - old(pathCount) + (if isNewPath then 0 else 1)
      ensures Simple(old(Unused(linkState))) && Simple(Unused(linkState))
      ensures pathCount + Opened(Unused(linkState), stack + [v + 1], true) ==
              old(pathCount) + Opened(old(Unused(linkState)), stack + [v + 1], isNewPath)
      decreases |Unused(linkState)|, 0
    {
      hide Topology, Books, Trail, TrailArcs, Total, AllTrails, Simple, Spent, EndsAt, Unused, Out, Reachable, Opened;
      ghost var E1 := Unused(linkState);
      UnusedSimple(linkState);
      RowSize(linkState, v, j);
      OpenedTaken(E1, stack, v + 1, j + 1, isNewPath);
      Take(v, j, isNewPath, E0);
      isNewPath' := Run(j, isNewPath, [v + 1, j + 1], E0, stack + [v + 1]);
      SpentShrinks(E1 - Link(v + 1, j + 1), Unused(linkState), E0, j + 1, false);
      SpentStep(E, E1, Unused(linkState), E0, v + 1, j + 1);
    }

    lemma {:induction false} UnusedSimple(L: Matrix)
      requires Topology(L)
      ensures Simple(Unused(L))
    {
      UnusedIsLinks(L);
    }

    lemma {:induction false} RowSize(L: Matrix, v: nat, j: nat)
      requires Topology(L) && v < |L| && j < |L|
      ensures |L[v]| == |L| && (L[v][j] == 1 <==> Arc(v + 1, j + 1) in Unused(L))
    {
      var x, y := v, j;
      assert L[v][j] == 1 ==> Arc(x + 1, y + 1) in Unused(L);
    }
  }

  /** What is left at the end are the links out of reach from `v`, and the trails carry all the others. */
  lemma {:induction false} AllSpent(E: set<Arc>, F: set<Arc>, v: Node, trails: seq<seq<Node>>)
    requires Simple(E) && Simple(F) && Spent(E, F, E, v, false) && Out(F, v) == {} && Books(trails, [], F, E)
    ensures Decomposes(trails, ArcsFrom(E, v))
  {
    var S := {v} + Ends(E - F);
    forall a | a in E && a.u in S ensures a !in F && a.v in S {
      SpentAt(E, F, v, a);
    }
    assert Closed(E, S);
    forall a ensures a in E - F <==> a in ArcsFrom(E, v) {
      if a in ArcsFrom(E, v) {
        assert a.u in S;
      }
    }
    assert multiset(E) == multiset(E - F) + multiset(F);
    assert E - F == ArcsFrom(E, v);
    var none: seq<Node> := [];
    assert TrailArcs(none) == {};
    assert Total(trails) + multiset(F) == multiset(E - F) + multiset(F);
    Cancel(Total(trails), multiset(E - F), multiset(F));
  }

  lemma {:induction false} Cancel<T>(a: multiset<T>, b: multiset<T>, c: multiset<T>)
    requires a + c == b + c
    ensures a == b
  {
    assert a == (a + c) - c;
    assert b == (b + c) - c;
  }

  lemma {:induction false} SpentAt(E: set<Arc>, F: set<Arc>, v: Node, a: Arc)
    requires Simple(E) && Simple(F) && Spent(E, F, E, v, false) && Out(F, v) == {}
    requires a in E && (a.u == v || a.u in Ends(E - F))
    ensures a !in F && a.v in Ends(E - F)
  {
    assert Out(F, a.u) == {};
    assert a in F ==> a in Out(F, a.u);
    assert Arc(a.v, a.u) in E - F;
  }

  /** `DFLSPathPlan`: the number of trails, opened one dead end after another, that carry every link within reach
      of the first node exactly once. */
  method DFLSPathPlan(topoMatrix: Matrix) returns (pathCount: nat, ghost trails: seq<seq<Node>>, ghost deadEnds: nat)
    requires Topology(topoMatrix)
    ensures exists Q :: Decomposes(Q, ArcsFrom(LinksOf(topoMatrix), 1)) && |Q| == pathCount
    ensures pathCount == |trails| == deadEnds && Decomposes(trails, ArcsFrom(LinksOf(topoMatrix), 1))
    ensures Simple(LinksOf(topoMatrix)) && pathCount == 1 + Opened(LinksOf(topoMatrix), [1], false)
  {
    ghost var E := Unused(topoMatrix);
    UnusedIsLinks(topoMatrix);
    var state := new DflsState(topoMatrix);
    assert multiset(TrailArcs([1])) == multiset{};
    var last := state.Run(0, true, [1], E, []);
    assert [] + [1] == [1];
    UnusedIsLinks(state.linkState);
    AllSpent(E, Unused(state.linkState), 1, state.trails);
    pathCount, trails, deadEnds := state.pathCount, state.trails, state.deadEnds;
  }

  /** On a connected network `find_path` never needs more paths than `DFLSPathPlan` counts. */
  method Compete(topoMatrix: Matrix, balanced: bool) returns (euler: Option<seq<seq<Node>>>, dfls: nat)
    requires Topology(topoMatrix)
    requires Connected(LinksOf(topoMatrix)) && 1 in Ends(LinksOf(topoMatrix))
    ensures euler.Some? && |euler.value| <= dfls
  {
    hide *;
    UnusedIsLinks(topoMatrix);
    AllWithinReach(LinksOf(topoMatrix), 1);
    ConnectedIsOneEven(LinksOf(topoMatrix));
    ghost var log, trails, deadEnds;
    euler, log := FindPath(topoMatrix, balanced);
    dfls, trails, deadEnds := DFLSPathPlan(topoMatrix);
  }

  lemma {:induction false} AllWithinReach(E: set<Arc>, x: Node)
    requires Connected(E) && x in Ends(E)
    ensures ArcsFrom(E, x) == E
  {
    forall a | a in E ensures Reachable(E, x, a.u) {
      assert a.u in Ends(E);
    }
  }
}

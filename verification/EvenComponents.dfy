/** Components without odd nodes: how many a network has decides whether `find_path` succeeds. */
module EvenComponents {
  import opened ArcSets
  import opened Lists
  import opened Adjacency
  import opened Splicing
  import opened PlannerState

  /** `x` has links, and no node reachable from it is odd. */
  ghost predicate EvenAt(E: set<Arc>, x: Node) {
    x in Ends(E) && forall y :: Reachable(E, x, y) ==> Degree(E, y) % 2 == 0
  }

  ghost predicate HasEven(E: set<Arc>) {
    exists x :: EvenAt(E, x)
  }

  /** At most one component has links but no odd node. */
  ghost predicate OneEvenAtMost(E: set<Arc>) {
    forall x, y :: EvenAt(E, x) && EvenAt(E, y) ==> Reachable(E, x, y)
  }

  /** A connected network has at most one even component, and has one just when it has links but no odd node. */
  lemma {:induction false} ConnectedIsOneEven(E: set<Arc>)
    requires Simple(E) && Connected(E)
    ensures OneEvenAtMost(E)
    ensures HasEven(E) <==> E != {} && Odd(E, Ends(E)) == {}
  {
    assert forall a :: a in E ==> a.u in Ends(E);
    if x :| EvenAt(E, x) {
      forall y | y in Ends(E) ensures y !in Odd(E, Ends(E)) {
        assert Reachable(E, x, y);
      }
    }
    if E != {} && Odd(E, Ends(E)) == {} {
      var a :| a in E;
      LinkedIsClosed(E);
      forall y | Reachable(E, a.u, y) ensures Degree(E, y) % 2 == 0 {
        assert y in Ends(E) && y !in Odd(E, Ends(E));
      }
      assert EvenAt(E, a.u);
    }
  }

  lemma {:induction false} LinkedIsClosed(E: set<Arc>)
    requires Simple(E)
    ensures Closed(E, Ends(E))
  {
    forall a | a in E && a.u in Ends(E) ensures a.v in Ends(E) {
      assert Arc(a.v, a.u) in E;
    }
  }

  lemma {:induction false} EvenComponent(E: set<Arc>, comp: seq<Node>, x: Node)
    requires Component(E, comp) && Odd(E, Elems(comp)) == {} && x in comp
    ensures EvenAt(E, x)
  {
    assert x in Elems(comp);
    forall y | Reachable(E, x, y) ensures Degree(E, y) % 2 == 0 {
      assert y in Elems(comp) && y !in Odd(E, Elems(comp));
    }
  }

  lemma {:induction false} OddComponent(E: set<Arc>, comp: seq<Node>, x: Node)
    requires Simple(E) && Component(E, comp) && Odd(E, Elems(comp)) != {} && x in comp
    ensures !EvenAt(E, x)
  {
    var z :| z in Odd(E, Elems(comp));
    ComponentConnected(E, comp, x, z);
  }

  /** When every component has odd nodes there is no even one. */
  lemma {:induction false} NoEven(E: set<Arc>, subgraph: seq<seq<Node>>)
    requires Simple(E) && Components(E, subgraph)
    requires forall k :: 0 <= k < |subgraph| ==> Odd(E, Elems(subgraph[k])) != {}
    ensures !HasEven(E)
  {
    forall x | x in Ends(E) ensures !EvenAt(E, x) {
      MemberIndex(subgraph, x);
      var k :| 0 <= k < |subgraph| && x in subgraph[k];
      OddComponent(E, subgraph[k], x);
    }
  }

  /** The queue holds a single circuit that has used up its component. */
  ghost predicate CircuitOnly(Q: seq<seq<Node>>, E: set<Arc>, E0: set<Arc>) {
    |Q| == 1 && Q[0] != [] && EvenAt(E0, Q[0][0]) && forall x :: x in Ends(E) ==> !Reachable(E0, Q[0][0], x)
  }

  /** Where the main loop stands: nothing queued yet; one circuit queued and its component gone; or a path queued
      in every component that still has links. */
  ghost predicate Phased(Q: seq<seq<Node>>, E: set<Arc>, E0: set<Arc>, c: nat) {
    (Q == [] && c == 0) ||
    (CircuitOnly(Q, E, E0) && c == 1) ||
    (Touched(Q, E, E0) && OneEvenAtMost(E0) && c == if HasEven(E0) then 1 else 0)
  }

  /** The first turn, on an even component. */
  lemma {:induction false} CircuitPhase(E0: set<Arc>, comp: seq<Node>, p: seq<Node>)
    requires Simple(E0) && Component(E0, comp) && Odd(E0, Elems(comp)) == {}
    requires |p| > 1 && p[0] in comp && TrailArcs(p) == ArcsWithin(E0, Elems(comp))
    ensures CircuitOnly([p], E0 - TrailArcs(p), E0)
  {
    EvenComponent(E0, comp, p[0]);
    assert p[0] in Elems(comp);
    forall x | x in Ends(E0 - TrailArcs(p)) ensures !Reachable(E0, p[0], x) {
      var a :| a in E0 - TrailArcs(p) && a.u == x;
      assert x !in Elems(comp);
    }
  }

  lemma {:induction false} TrailReach(E0: set<Arc>, p: seq<Node>, x: Node)
    requires Trail(p) && TrailArcs(p) <= E0 && x in p
    ensures Reachable(E0, p[0], x)
  {
    TrailIsWalk(p);
    forall S: set<Node> | p[0] in S && Closed(E0, S) ensures x in S {
      WalkStaysInClosed(E0, p, S);
    }
  }

  /** In that phase no component of the remaining links meets the circuit. */
  lemma {:induction false} CircuitApart(Q: seq<seq<Node>>, E: set<Arc>, E0: set<Arc>, comp: seq<Node>)
    requires CircuitOnly(Q, E, E0) && AllTrails(Q) && Total(Q) + multiset(E) == multiset(E0) && Component(E, comp)
    ensures forall i :: 0 <= i < |Q| ==> !Shares(Q[i], comp)
    ensures Component(E0, comp) && Odd(E0, Elems(comp)) == Odd(E, Elems(comp))
  {
    hide Component, Reachable, Odd, Trail;
    Remaining(Q, E, E0);
    QueuedArcs(Q, E0, 0);
    assert Trail(Q[0]);
    forall x | x in Q[0] ensures x !in comp {
      TrailReach(E0, Q[0], x);
      MemberLinked(E, comp, x);
    }
    assert !Shares(Q[0], comp);
    UntouchedKeeps(Q, E, E0, comp);
    UntouchedComponent(E, E0, comp);
  }

  lemma {:induction false} MemberLinked(E: set<Arc>, comp: seq<Node>, x: Node)
    requires Component(E, comp)
    ensures x in comp ==> x in Ends(E)
  {
    assert x in comp ==> x in Elems(comp);
  }

  lemma {:induction false} QueuedArcs(Q: seq<seq<Node>>, E0: set<Arc>, i: nat)
    requires i < |Q| && forall a :: a in Total(Q) ==> a in E0
    ensures TrailArcs(Q[i]) <= E0
  {
    forall a | a in TrailArcs(Q[i]) ensures a in E0 {
      TotalMember(Q, a);
    }
  }

  /** A second even component: `find_path` fails, and rightly reports that the network has two. */
  lemma {:induction false} SecondEven(Q: seq<seq<Node>>, E: set<Arc>, E0: set<Arc>, comp: seq<Node>)
    requires CircuitOnly(Q, E, E0) && AllTrails(Q) && Total(Q) + multiset(E) == multiset(E0)
    requires Component(E, comp) && Odd(E, Elems(comp)) == {}
    ensures !OneEvenAtMost(E0)
  {
    CircuitApart(Q, E, E0, comp);
    EvenComponent(E0, comp, comp[0]);
    MemberLinked(E, comp, comp[0]);
  }

  /** All other components have odd nodes: the circuit's component is the only even one. */
  lemma {:induction false} OnlyEven(Q: seq<seq<Node>>, E: set<Arc>, E0: set<Arc>, subgraph: seq<seq<Node>>)
    requires Simple(E0) && CircuitOnly(Q, E, E0) && AllTrails(Q) && Total(Q) + multiset(E) == multiset(E0)
    requires Components(E, subgraph) && forall k :: 0 <= k < |subgraph| ==> Odd(E, Elems(subgraph[k])) != {}
    ensures OneEvenAtMost(E0) && HasEven(E0)
  {
    forall x, y | EvenAt(E0, x) && EvenAt(E0, y) ensures Reachable(E0, x, y) {
      EvenIsQueued(Q, E, E0, subgraph, x);
      EvenIsQueued(Q, E, E0, subgraph, y);
      ReachableBack(E0, Q[0][0], x);
      ReachableTrans(E0, x, Q[0][0], y);
    }
  }

  lemma {:induction false} ReachableTrans(E: set<Arc>, x: Node, y: Node, z: Node)
    requires Reachable(E, x, y) && Reachable(E, y, z)
    ensures Reachable(E, x, z)
  {
  }

  lemma {:induction false} EvenIsQueued(Q: seq<seq<Node>>, E: set<Arc>, E0: set<Arc>, subgraph: seq<seq<Node>>, x: Node)
    requires Simple(E0) && CircuitOnly(Q, E, E0) && AllTrails(Q) && Total(Q) + multiset(E) == multiset(E0)
    requires Components(E, subgraph) && forall k :: 0 <= k < |subgraph| ==> Odd(E, Elems(subgraph[k])) != {}
    requires EvenAt(E0, x)
    ensures Reachable(E0, Q[0][0], x)
  {
    hide Component, Reachable, Odd, Trail, Simple;
    Remaining(Q, E, E0);
    if x in Ends(E) {
      MemberIndex(subgraph, x);
      var k :| 0 <= k < |subgraph| && x in subgraph[k];
      CircuitApart(Q, E, E0, subgraph[k]);
      OddComponent(E0, subgraph[k], x);
    } else {
      var a :| a in E0 && a.u == x;
      TotalMember(Q, a);
      TrailArcsSymmetric(Q[0]);
      QueuedArcs(Q, E0, 0);
      TrailReach(E0, Q[0], x);
    }
  }
}

/** The invariant of `find_path`: what the queued paths and the remaining links amount to. */
module PlannerState {
  import opened ArcSets
  import opened Lists
  import opened Adjacency
  import opened Splicing

  ghost predicate AllLinked(Q: seq<seq<Node>>) {
    forall i :: 0 <= i < |Q| ==> |Q[i]| > 1
  }

  /** The queued trails and the remaining links `E` partition the links `E0` of the network, and every queued
      path but `c` circuits accounts for two odd nodes. */
  ghost predicate State(Q: seq<seq<Node>>, E: set<Arc>, E0: set<Arc>, c: nat) {
    AllTrails(Q) && AllLinked(Q) && Total(Q) + multiset(E) == multiset(E0) &&
    2 * |Q| + |Odd(E, Ends(E0))| == |Odd(E0, Ends(E0))| + 2 * c
  }

  lemma {:induction false} Remaining(Q: seq<seq<Node>>, E: set<Arc>, E0: set<Arc>)
    requires Total(Q) + multiset(E) == multiset(E0)
    ensures E <= E0
    ensures Q == [] ==> E == E0
    ensures forall a :: a in E0 <==> a in E || a in Total(Q)
    ensures forall a :: a in E ==> a !in Total(Q)
  {
    forall a ensures a in E0 <==> a in E || a in Total(Q) {
      assert a in E0 <==> a in multiset(E0);
    }
    forall a | a in E ensures a !in Total(Q) {
      assert multiset(E0)[a] == 1;
    }
  }

  lemma {:induction false} EndsGrow(E: set<Arc>, F: set<Arc>)
    requires E <= F
    ensures Ends(E) <= Ends(F)
  {
  }

  lemma {:induction false} MoveArcs(E: set<Arc>, T: set<Arc>)
    requires T <= E
    ensures multiset(E) == multiset(E - T) + multiset(T)
  {
  }

  /** Queueing a trail between two odd nodes. */
  lemma {:induction false} QueueTrail(Q: seq<seq<Node>>, E: set<Arc>, E0: set<Arc>, c: nat, p: seq<Node>)
    requires State(Q, E, E0, c) && Simple(E)
    requires Trail(p) && |p| > 1 && TrailArcs(p) <= E && p[0] != p[|p|-1]
    requires p[0] in Odd(E, Ends(E)) && p[|p|-1] in Odd(E, Ends(E))
    ensures State(Q + [p], E - TrailArcs(p), E0, c)
  {
    hide Degree, TrailArcs, Total, Trail;
    Remaining(Q, E, E0);
    EndsGrow(E, E0);
    OddAfterTrail(E, p, Ends(E0));
    TotalAppend(Q, p);
    MoveArcs(E, TrailArcs(p));
  }

  /** Queueing a circuit. */
  lemma {:induction false} QueueCircuit(Q: seq<seq<Node>>, E: set<Arc>, E0: set<Arc>, c: nat, p: seq<Node>)
    requires State(Q, E, E0, c) && Simple(E)
    requires Trail(p) && |p| > 1 && TrailArcs(p) <= E && p[0] == p[|p|-1]
    ensures State(Q + [p], E - TrailArcs(p), E0, c + 1)
  {
    OddAfterTrail(E, p, Ends(E0));
    TotalAppend(Q, p);
    MoveArcs(E, TrailArcs(p));
  }

  /** Splicing a circuit into a queued path that meets it. */
  lemma {:induction false} QueueSplice(Q: seq<seq<Node>>, E: set<Arc>, E0: set<Arc>, c: nat, p1: seq<Node>,
                                       p2: seq<Node>)
    requires State(Q, E, E0, c) && Simple(E) && p1 in Q
    requires Trail(p2) && TrailArcs(p2) <= E && p2[0] in p1 && p2[|p2|-1] == p2[0]
    ensures State(RemoveFirst(Q, p1) + [Splice(p1, p2)], E - TrailArcs(p2), E0, c)
  {
    Remaining(Q, E, E0);
    ArcsApart(Q, E, p1, p2);
    SpliceTrail(p1, p2);
    SpliceQueue(Q, p1, p2);
    MoveArcs(E, TrailArcs(p2));
    OddAfterTrail(E, p2, Ends(E0));
  }

  lemma {:induction false} ArcsApart(Q: seq<seq<Node>>, E: set<Arc>, p1: seq<Node>, p2: seq<Node>)
    requires p1 in Q && TrailArcs(p2) <= E && forall a :: a in E ==> a !in Total(Q)
    ensures TrailArcs(p1) !! TrailArcs(p2)
  {
    forall a | a in TrailArcs(p1) ensures a !in TrailArcs(p2) {
      assert a in TrailArcs(Q[IndexOf(Q, p1)]);
      TotalMember(Q, a);
    }
  }

  lemma {:induction false} SpliceQueue(Q: seq<seq<Node>>, p1: seq<Node>, p2: seq<Node>)
    requires AllTrails(Q) && AllLinked(Q) && p1 in Q && p2 != [] && p2[0] in p1
    requires Trail(Splice(p1, p2)) && TrailArcs(Splice(p1, p2)) == TrailArcs(p1) + TrailArcs(p2)
    requires TrailArcs(p1) !! TrailArcs(p2)
    ensures var Q' := RemoveFirst(Q, p1) + [Splice(p1, p2)];
            |Q'| == |Q| && AllTrails(Q') && AllLinked(Q') && Total(Q') == Total(Q) + multiset(TrailArcs(p2))
  {
    var i, p, R := IndexOf(Q, p1), Splice(p1, p2), RemoveFirst(Q, p1);
    assert |Q[i]| > 1 && |p| >= |p1|;
    WithoutOne(Q, i);
    WithOneMore(R, p);
    TotalRemove(Q, i);
    TotalAppend(R, p);
    MoveArcs(TrailArcs(p), TrailArcs(p2));
    assert TrailArcs(p) - TrailArcs(p2) == TrailArcs(p1);
  }

  lemma {:induction false} WithoutOne(Q: seq<seq<Node>>, i: nat)
    requires AllTrails(Q) && AllLinked(Q) && i < |Q|
    ensures AllTrails(Q[..i] + Q[i+1..]) && AllLinked(Q[..i] + Q[i+1..])
  {
    var R := Q[..i] + Q[i+1..];
    forall k | 0 <= k < |R| ensures Trail(R[k]) && |R[k]| > 1 {
      assert R[k] == if k < i then Q[k] else Q[k+1];
    }
  }

  lemma {:induction false} WithOneMore(Q: seq<seq<Node>>, p: seq<Node>)
    requires AllTrails(Q) && AllLinked(Q) && Trail(p) && |p| > 1
    ensures AllTrails(Q + [p]) && AllLinked(Q + [p])
  {
  }

  // ---- which nodes the queue has reached ----

  ghost predicate InQueue(Q: seq<seq<Node>>, y: Node) {
    exists i :: 0 <= i < |Q| && y in Q[i]
  }

  ghost predicate TouchedAt(Q: seq<seq<Node>>, E0: set<Arc>, x: Node) {
    exists y :: InQueue(Q, y) && Reachable(E0, x, y)
  }

  /** Every node with links left belongs to a component of the network that has a queued path. */
  ghost predicate Touched(Q: seq<seq<Node>>, E: set<Arc>, E0: set<Arc>) {
    forall x :: x in Ends(E) ==> TouchedAt(Q, E0, x)
  }

  lemma {:induction false} StaysTouched(Q: seq<seq<Node>>, Q': seq<seq<Node>>, E: set<Arc>, E': set<Arc>, E0: set<Arc>)
    requires Touched(Q, E, E0) && E' <= E && forall y :: InQueue(Q, y) ==> InQueue(Q', y)
    ensures Touched(Q', E', E0)
  {
    EndsGrow(E', E);
    forall x | x in Ends(E') ensures TouchedAt(Q', E0, x) {
      assert TouchedAt(Q, E0, x);
      var y :| InQueue(Q, y) && Reachable(E0, x, y);
      assert InQueue(Q', y);
    }
  }

  lemma {:induction false} AppendKeepsNodes(Q: seq<seq<Node>>, p: seq<Node>)
    ensures forall y :: InQueue(Q, y) ==> InQueue(Q + [p], y)
    ensures forall y :: y in p ==> InQueue(Q + [p], y)
  {
    var R := Q + [p];
    forall y | InQueue(Q, y) ensures InQueue(R, y) {
      var i :| 0 <= i < |Q| && y in Q[i];
      assert y in R[i];
    }
    assert R[|Q|] == p;
  }

  lemma {:induction false} SpliceKeepsNodes(Q: seq<seq<Node>>, p1: seq<Node>, p2: seq<Node>)
    requires p1 in Q && p2 != [] && p2[0] in p1
    ensures forall y :: InQueue(Q, y) ==> InQueue(RemoveFirst(Q, p1) + [Splice(p1, p2)], y)
  {
    var k, R, p := IndexOf(Q, p1), RemoveFirst(Q, p1) + [Splice(p1, p2)], Splice(p1, p2);
    assert R[|R|-1] == p;
    forall y | InQueue(Q, y) ensures InQueue(R, y) {
      var i :| 0 <= i < |Q| && y in Q[i];
      if i < k {
        assert R[i] == Q[i];
      } else if i > k {
        assert R[i-1] == Q[i];
      } else {
        SpliceHas(p1, p2, y);
        assert y in R[|R|-1];
      }
    }
  }

  lemma {:induction false} SpliceHas(p1: seq<Node>, p2: seq<Node>, y: Node)
    requires p2 != [] && p2[0] in p1 && y in p1
    ensures y in Splice(p1, p2)
  {
    var j := IndexOf(p1, p2[0]);
    assert p1 == p1[..j+1] + p1[j+1..];
  }

  /** Links at the nodes of a component that meets no queued path are all still there. */
  lemma {:induction false} UntouchedKeeps(Q: seq<seq<Node>>, E: set<Arc>, E0: set<Arc>, comp: seq<Node>)
    requires forall a :: a in E0 <==> a in E || a in Total(Q)
    requires forall i :: 0 <= i < |Q| ==> !Shares(Q[i], comp)
    ensures forall a :: a in E0 && a.u in Elems(comp) ==> a in E
  {
    forall a | a in E0 && a.u in Elems(comp) ensures a in E {
      if a !in E {
        TotalMember(Q, a);
        var i :| 0 <= i < |Q| && a in TrailArcs(Q[i]);
        TrailArcsSymmetric(Q[i]);
        assert false;
      }
    }
  }

  /** ... so it is a component of the whole network, with the degrees it had there. */
  lemma {:induction false} UntouchedComponent(E: set<Arc>, E0: set<Arc>, comp: seq<Node>)
    requires E <= E0 && Component(E, comp) && forall a :: a in E0 && a.u in Elems(comp) ==> a in E
    ensures Component(E0, comp) && Odd(E0, Elems(comp)) == Odd(E, Elems(comp))
  {
    EndsGrow(E, E0);
    DegreesElsewhere(E0, E, Elems(comp));
    ReachableGrows(E, E0);
  }

  lemma {:induction false} ReachableGrows(E: set<Arc>, E0: set<Arc>)
    requires E <= E0
    ensures forall x, y :: Reachable(E, x, y) ==> Reachable(E0, x, y)
  {
    forall x, y, S: set<Node> | Reachable(E, x, y) && x in S && Closed(E0, S) ensures y in S {
      assert Closed(E, S);
    }
  }

  /** A component of the remaining links meets a queued path once the queue has touched its part of the network. */
  lemma {:induction false} ComponentMeetsQueue(Q: seq<seq<Node>>, E: set<Arc>, E0: set<Arc>, comp: seq<Node>)
    requires Total(Q) + multiset(E) == multiset(E0) && Touched(Q, E, E0) && Component(E, comp)
    ensures exists i :: 0 <= i < |Q| && Shares(Q[i], comp)
  {
    Remaining(Q, E, E0);
    if forall i :: 0 <= i < |Q| ==> !Shares(Q[i], comp) {
      UntouchedKeeps(Q, E, E0, comp);
      MeetsAnyway(Q, E, E0, comp);
    }
  }

  lemma {:induction false} MeetsAnyway(Q: seq<seq<Node>>, E: set<Arc>, E0: set<Arc>, comp: seq<Node>)
    requires Touched(Q, E, E0) && Component(E, comp)
    requires forall a :: a in E0 && a.u in Elems(comp) ==> a in E
    ensures exists i :: 0 <= i < |Q| && Shares(Q[i], comp)
  {
    StaysInside(E, E0, comp);
    hide Component, Closed, Reachable, Ends, Elems;
    assert TouchedAt(Q, E0, comp[0]);
    var y :| InQueue(Q, y) && Reachable(E0, comp[0], y);
    assert y in comp;
    var i :| 0 <= i < |Q| && y in Q[i];
    assert Shares(Q[i], comp);
  }

  lemma {:induction false} StaysInside(E: set<Arc>, E0: set<Arc>, comp: seq<Node>)
    requires Component(E, comp) && forall a :: a in E0 && a.u in Elems(comp) ==> a in E
    ensures comp != [] && comp[0] in Ends(E)
    ensures forall y :: Reachable(E0, comp[0], y) ==> y in comp
  {
    assert comp[0] in Elems(comp) && comp[0] in Ends(E);
    assert Closed(E0, Elems(comp));
    forall y | Reachable(E0, comp[0], y) ensures y in comp {
      assert y in Elems(comp);
    }
  }

  /** A trail that starts in a closed set stays there. */
  lemma {:induction false} TrailWithin(E: set<Arc>, C: set<Node>, p: seq<Node>)
    requires Trail(p) && TrailArcs(p) <= E && p[0] in C && Closed(E, C)
    ensures TrailArcs(p) <= ArcsWithin(E, C)
  {
    TrailIsWalk(p);
    TrailArcsSymmetric(p);
    WalkStaysInClosed(E, p, C);
  }

  /** Removing links inside one closed set leaves a component outside it as it was. */
  lemma {:induction false} ElsewhereUnchanged(E: set<Arc>, T: set<Arc>, C: set<Node>, comp: seq<Node>)
    requires T <= ArcsWithin(E, C) && Component(E, comp) && C !! Elems(comp)
    ensures Component(E - T, comp)
    ensures forall x :: x in comp ==> Degree(E - T, x) == Degree(E, x)
    ensures Odd(E - T, Elems(comp)) == Odd(E, Elems(comp))
  {
    var F, D := E - T, Elems(comp);
    forall a | a in E && a.u in D ensures a in F { }
    DegreesElsewhere(E, F, D);
    ComponentElsewhere(E, F, comp);
  }

  lemma {:induction false} ComponentElsewhere(E: set<Arc>, F: set<Arc>, comp: seq<Node>)
    requires Component(E, comp) && F <= E && forall a :: a in E && a.u in Elems(comp) ==> a in F
    ensures Component(F, comp)
  {
    LinkedElsewhere(E, F, Elems(comp));
    ReachableWithin(E, F, comp);
  }

  lemma {:induction false} ReachableWithin(E: set<Arc>, F: set<Arc>, comp: seq<Node>)
    requires Component(E, comp) && forall a :: a in E && a.u in Elems(comp) ==> a in F
    ensures forall x :: x in comp ==> Reachable(F, comp[0], x)
  {
    assert comp[0] in Elems(comp);
    ReachableElsewhere(E, F, Elems(comp), comp[0]);
  }

  lemma {:induction false} DegreesElsewhere(E: set<Arc>, F: set<Arc>, D: set<Node>)
    requires F <= E && forall a :: a in E && a.u in D ==> a in F
    ensures forall x :: x in D ==> Degree(F, x) == Degree(E, x)
    ensures Odd(F, D) == Odd(E, D)
  {
    forall x | x in D ensures Degree(F, x) == Degree(E, x) {
      assert Out(F, x) == Out(E, x);
    }
  }

  lemma {:induction false} LinkedElsewhere(E: set<Arc>, F: set<Arc>, D: set<Node>)
    requires D <= Ends(E) && forall a :: a in E && a.u in D ==> a in F
    ensures D <= Ends(F)
  {
    forall x | x in D ensures x in Ends(F) {
      var a :| a in E && a.u == x;
      assert a in F;
    }
  }

  lemma {:induction false} ReachableElsewhere(E: set<Arc>, F: set<Arc>, D: set<Node>, x: Node)
    requires Closed(E, D) && x in D && forall a :: a in E && a.u in D ==> a in F
    ensures forall y :: Reachable(E, x, y) ==> Reachable(F, x, y)
  {
    forall y, S: set<Node> | Reachable(E, x, y) && x in S && Closed(F, S) ensures y in S {
      assert Closed(E, S * D);
    }
  }
}

/** The lower bound on the number of trails that carry all links of a graph. */
module FewestTrails {
  import opened ArcSets
  import opened Lists
  import opened EvenComponents

  /** How many of the trails start in `D`. */
  ghost function CountIn(Q: seq<seq<Node>>, D: set<Node>): nat
    requires AllTrails(Q)
  {
    if Q == [] then 0 else
      assert Trail(Q[0]) && forall i :: 0 <= i < |Q[1..]| ==> Q[1..][i] == Q[i+1];
      (if Q[0][0] in D then 1 else 0) + CountIn(Q[1..], D)
  }

  lemma {:induction false} CountMiss(Q: seq<seq<Node>>, D: set<Node>, i: nat)
    requires AllTrails(Q) && i < |Q| && Q[i] != [] && Q[i][0] !in D
    ensures CountIn(Q, D) < |Q|
    decreases |Q|
  {
    CountAtMost(Q[1..], D);
    if i > 0 {
      CountMiss(Q[1..], D, i - 1);
    }
  }

  lemma {:induction false} CountAtMost(Q: seq<seq<Node>>, D: set<Node>)
    requires AllTrails(Q)
    ensures CountIn(Q, D) <= |Q|
    decreases |Q|
  {
    if Q != [] {
      CountAtMost(Q[1..], D);
    }
  }

  /** A trail that starts outside a closed set never enters it. */
  lemma {:induction false} StaysOutside(E: set<Arc>, p: seq<Node>, D: set<Node>)
    requires Simple(E) && Closed(E, D) && Trail(p) && TrailArcs(p) <= E && p[0] !in D
    ensures forall x :: x in p ==> x !in D
  {
    TrailIsWalk(p);
    var S := Ends(E) + Elems(p) - D;
    forall a | a in E && a.u in S ensures a.v in S {
      assert Arc(a.v, a.u) in E;
    }
    assert Closed(E, S);
    WalkStaysInClosed(E, p, S);
  }

  /** m trails that start in a closed set account for at most 2m of its odd nodes. */
  lemma {:induction false} CountedOdd(Q: seq<seq<Node>>, E: set<Arc>, D: set<Node>)
    requires Simple(E) && Decomposes(Q, E) && Closed(E, D)
    ensures |Odd(E, D)| <= 2 * CountIn(Q, D)
    decreases |Q|
  {
    if Q == [] {
      assert forall a :: a in E <==> a in multiset(E);
      assert E == {};
      forall x ensures Degree(E, x) == 0 { assert Out(E, x) == {}; }
      assert Odd(E, D) == {};
    } else {
      var p := Q[0];
      FirstOfMany(Q, E);
      OddAfterTrail(E, p, D);
      CountedOdd(Q[1..], E - TrailArcs(p), D);
      if p[0] !in D {
        OddOutside(E, p, D);
      }
    }
  }

  lemma {:induction false} FirstOfMany(Q: seq<seq<Node>>, E: set<Arc>)
    requires Q != [] && Decomposes(Q, E)
    ensures Trail(Q[0]) && TrailArcs(Q[0]) <= E && Decomposes(Q[1..], E - TrailArcs(Q[0]))
  {
    forall a | a in TrailArcs(Q[0]) ensures a in E {
      assert multiset(E)[a] > 0;
    }
    assert multiset(E - TrailArcs(Q[0])) == multiset(E) - multiset(TrailArcs(Q[0]));
    forall i | 0 <= i < |Q[1..]| ensures Trail(Q[1..][i]) {
      assert Trail(Q[i+1]);
    }
  }

  lemma {:induction false} OddOutside(E: set<Arc>, p: seq<Node>, D: set<Node>)
    requires Simple(E) && Closed(E, D) && Trail(p) && TrailArcs(p) <= E && p[0] !in D
    ensures Odd(E - TrailArcs(p), D) == Odd(E, D)
  {
    StaysOutside(E, p, D);
    forall x | x in D ensures Degree(E - TrailArcs(p), x) % 2 == Degree(E, x) % 2 {
      TrailParity(E, p, x);
      assert p[|p|-1] in p;
    }
  }

  /** No split of the links into trails can do with fewer: two odd nodes to a trail, and one trail more when some
      component has none. */
  lemma {:induction false} Bound(E: set<Arc>, Q: seq<seq<Node>>)
    requires Simple(E) && Decomposes(Q, E)
    ensures 2 * |Q| >= |Odd(E, Ends(E))| + if HasEven(E) then 2 else 0
  {
    OddNodesBoundTrails(Q, E, Ends(E));
    if x :| EvenAt(E, x) {
      var C := set y | y in Ends(E) && Reachable(E, x, y);
      var D := Ends(E) - C;
      EvenSplit(E, x, C, D);
      CountedOdd(Q, E, D);
      var i := TrailAt(E, Q, x);
      if Q[i][0] in D {
        StaysInClosed(E, Q[i], D, x);
      }
      CountMiss(Q, D, i);
    }
  }

  lemma {:induction false} StaysInClosed(E: set<Arc>, p: seq<Node>, D: set<Node>, x: Node)
    requires Trail(p) && TrailArcs(p) <= E && Closed(E, D) && p[0] in D && x in p
    ensures x in D
  {
    TrailIsWalk(p);
    WalkStaysInClosed(E, p, D);
  }

  lemma {:induction false} EvenSplit(E: set<Arc>, x: Node, C: set<Node>, D: set<Node>)
    requires Simple(E) && EvenAt(E, x) && D == Ends(E) - C && C == set y | y in Ends(E) && Reachable(E, x, y)
    ensures Closed(E, D) && x !in D && Odd(E, D) == Odd(E, Ends(E))
  {
    forall a | a in E && a.u in D ensures a.v in D {
      assert Arc(a.v, a.u) in E;
    }
  }

  lemma {:induction false} TrailAt(E: set<Arc>, Q: seq<seq<Node>>, x: Node) returns (i: nat)
    requires Decomposes(Q, E) && x in Ends(E)
    ensures i < |Q| && x in Q[i] && TrailArcs(Q[i]) <= E
  {
    var a :| a in E && a.u == x;
    assert a in multiset(E);
    TotalMember(Q, a);
    i :| 0 <= i < |Q| && a in TrailArcs(Q[i]);
    TrailArcsSymmetric(Q[i]);
    forall b | b in TrailArcs(Q[i]) ensures b in E {
      TotalMember(Q, b);
      assert b in multiset(E);
    }
  }
}

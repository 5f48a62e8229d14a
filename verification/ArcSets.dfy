/** Undirected simple graphs as symmetric sets of arcs: degrees, odd nodes, closed and connected
    node sets, trails, and the parity facts behind every path-planning result. */
module ArcSets {
  import opened Lists

  type Node = int

  datatype Arc = Arc(u: Node, v: Node)

  /** The two arcs of the link between `u` and `v`. */
  function Link(u: Node, v: Node): set<Arc> {
    {Arc(u, v), Arc(v, u)}
  }

  /** Symmetric and free of self-loops. */
  ghost predicate Simple(E: set<Arc>) {
    forall a :: a in E ==> a.u != a.v && Arc(a.v, a.u) in E
  }

  function Out(E: set<Arc>, x: Node): set<Arc> {
    set a | a in E && a.u == x
  }

  function Degree(E: set<Arc>, x: Node): nat {
    |Out(E, x)|
  }

  /** The members of `C` with odd degree in `E`. */
  function Odd(E: set<Arc>, C: set<Node>): set<Node> {
    set x | x in C && Degree(E, x) % 2 == 1
  }

  /** The nodes that have at least one link. */
  function Ends(E: set<Arc>): set<Node> {
    set a | a in E :: a.u
  }

  /** No link leaves `C`. */
  ghost predicate Closed(E: set<Arc>, C: set<Node>) {
    forall a :: a in E && a.u in C ==> a.v in C
  }

  /** `y` lies in every closed set that holds `x`; `ReachableByWalk` reads this as a walk. */
  ghost predicate Reachable(E: set<Arc>, x: Node, y: Node) {
    forall S: set<Node> {:trigger Closed(E, S)} :: x in S && Closed(E, S) ==> y in S
  }

  /** All nodes that have a link are mutually reachable. */
  ghost predicate Connected(E: set<Arc>) {
    forall x, y :: x in Ends(E) && y in Ends(E) ==> Reachable(E, x, y)
  }

  /** The arcs of the component of `u`. */
  ghost function ArcsFrom(E: set<Arc>, u: Node): set<Arc> {
    set a | a in E && Reachable(E, u, a.u)
  }

  // ---- walks ----

  ghost predicate Walk(E: set<Arc>, p: seq<Node>) {
    |p| > 0 && forall i :: 0 <= i < |p| - 1 ==> Arc(p[i], p[i+1]) in E
  }

  lemma {:induction false} WalkStaysInClosed(E: set<Arc>, p: seq<Node>, S: set<Node>)
    requires Walk(E, p) && Closed(E, S) && p[0] in S
    ensures forall x :: x in p ==> x in S
    decreases |p|
  {
    if |p| > 1 {
      var q := p[..|p|-1];
      assert forall i :: 0 <= i < |q| - 1 ==> Arc(q[i], q[i+1]) == Arc(p[i], p[i+1]);
      WalkStaysInClosed(E, q, S);
      assert q[|q|-1] in q && Arc(p[|p|-2], p[|p|-1]) in E;
      assert p == q + [p[|p|-1]];
    }
  }

  ghost predicate WalkTo(E: set<Arc>, p: seq<Node>, x: Node, y: Node) {
    Walk(E, p) && p[0] == x && p[|p|-1] == y
  }

  ghost predicate HasWalk(E: set<Arc>, x: Node, y: Node) {
    exists p :: WalkTo(E, p, x, y)
  }

  /** Reachability by closed sets is reachability by walks. */
  lemma {:induction false} ReachableByWalk(E: set<Arc>, x: Node, y: Node)
    ensures Reachable(E, x, y) <==> HasWalk(E, x, y)
  {
    if p :| WalkTo(E, p, x, y) {
      forall S: set<Node> | x in S && Closed(E, S) ensures y in S {
        WalkStaysInClosed(E, p, S);
      }
    }
    if Reachable(E, x, y) {
      var S := set z | z in Ends(E) + (set a | a in E :: a.v) + {x} && HasWalk(E, x, z);
      assert WalkTo(E, [x], x, x);
      forall a | a in E && a.u in S ensures a.v in S {
        var p :| WalkTo(E, p, x, a.u);
        assert WalkTo(E, p + [a.v], x, a.v);
      }
      assert Closed(E, S);
    }
  }

  /** Reachability in an undirected graph is symmetric. */
  lemma {:induction false} ReachableBack(E: set<Arc>, x: Node, y: Node)
    requires Simple(E) && Reachable(E, x, y)
    ensures Reachable(E, y, x)
  {
    forall S: set<Node> | y in S && Closed(E, S) ensures x in S {
      if x !in S {
        var T := Ends(E) + {x} - S;
        forall a | a in E && a.u in T ensures a.v in T {
          assert Arc(a.v, a.u) in E;
        }
        assert Closed(E, T);
      }
    }
  }

  // ---- trails ----

  /** The arcs, both ways, of the links between consecutive entries of `p`. */
  function TrailArcs(p: seq<Node>): set<Arc> {
    if |p| < 2 then {} else Link(p[0], p[1]) + TrailArcs(p[1..])
  }

  /** A non-empty walk that never uses a link twice. */
  ghost predicate Trail(p: seq<Node>) {
    |p| > 0 && (|p| > 1 ==> p[0] != p[1] && Arc(p[0], p[1]) !in TrailArcs(p[1..]) && Trail(p[1..]))
  }

  lemma {:induction false} TrailArcsSymmetric(p: seq<Node>)
    ensures forall a :: a in TrailArcs(p) ==> Arc(a.v, a.u) in TrailArcs(p) && a.u in p && a.v in p
  {
    if |p| >= 2 {
      TrailArcsSymmetric(p[1..]);
    }
  }

  lemma {:induction false} TrailIsWalk(p: seq<Node>)
    requires Trail(p)
    ensures Walk(TrailArcs(p), p) && Simple(TrailArcs(p))
  {
    TrailArcsSymmetric(p);
    if |p| > 1 {
      TrailIsWalk(p[1..]);
      forall i | 0 <= i < |p| - 1 ensures Arc(p[i], p[i+1]) in TrailArcs(p) {
        if i > 0 {
          assert Arc(p[1..][i-1], p[1..][i]) in TrailArcs(p[1..]);
        }
      }
    }
  }

  lemma {:induction false} LinkApart(u: Node, v: Node, p: seq<Node>)
    requires Arc(u, v) !in TrailArcs(p)
    ensures Link(u, v) !! TrailArcs(p)
  {
    TrailArcsSymmetric(p);
  }

  /** Joining two walks at a shared node. */
  lemma {:induction false} TrailArcsJoin(p: seq<Node>, q: seq<Node>)
    requires |p| > 0 && |q| > 0 && p[|p|-1] == q[0]
    ensures TrailArcs(p + q[1..]) == TrailArcs(p) + TrailArcs(q)
    decreases |p|
  {
    if |p| == 1 {
      assert p + q[1..] == q;
    } else {
      TrailArcsJoin(p[1..], q);
      assert (p + q[1..])[1..] == p[1..] + q[1..];
    }
  }

  lemma {:induction false} TrailJoin(p: seq<Node>, q: seq<Node>)
    requires Trail(p) && Trail(q) && p[|p|-1] == q[0] && TrailArcs(p) !! TrailArcs(q)
    ensures Trail(p + q[1..])
    decreases |p|
  {
    if |p| == 1 {
      assert p + q[1..] == q;
    } else {
      TrailJoin(p[1..], q);
      TrailArcsJoin(p[1..], q);
      assert (p + q[1..])[1..] == p[1..] + q[1..];
    }
  }

  /** Cutting a trail at one of its nodes gives two trails without a common link. */
  lemma {:induction false} TrailCut(p: seq<Node>, j: nat)
    requires Trail(p) && j < |p|
    ensures Trail(p[..j+1]) && Trail(p[j..])
    ensures TrailArcs(p) == TrailArcs(p[..j+1]) + TrailArcs(p[j..])
    ensures TrailArcs(p[..j+1]) !! TrailArcs(p[j..])
  {
    if j == 0 {
      assert p[0..] == p && |p[..1]| == 1;
    } else {
      TrailCut(p[1..], j - 1);
      assert p[..j+1][1..] == p[1..][..j] && p[1..][j-1..] == p[j..];
      assert TrailArcs(p[..j+1]) == Link(p[0], p[1]) + TrailArcs(p[1..][..j]);
      LinkApart(p[0], p[1], p[1..]);
    }
  }

  // ---- degree parity ----

  lemma {:induction false} RemoveLinkDegree(E: set<Arc>, u: Node, v: Node, x: Node)
    requires Simple(E) && Arc(u, v) in E
    ensures Simple(E - Link(u, v))
    ensures Degree(E - Link(u, v), x) == if x == u || x == v then Degree(E, x) - 1 else Degree(E, x)
  {
    var F := E - Link(u, v);
    if x == u {
      assert Out(F, x) == Out(E, x) - {Arc(u, v)};
    } else if x == v {
      assert Out(F, x) == Out(E, x) - {Arc(v, u)};
    } else {
      assert Out(F, x) == Out(E, x);
    }
  }

  /** Taking a trail away flips the parity of its two ends, and of nothing when they coincide. */
  lemma {:induction false} TrailParity(E: set<Arc>, p: seq<Node>, x: Node)
    requires Simple(E) && Trail(p) && TrailArcs(p) <= E
    ensures Simple(E - TrailArcs(p))
    ensures Degree(E - TrailArcs(p), x) % 2 != Degree(E, x) % 2
       <==> p[0] != p[|p|-1] && (x == p[0] || x == p[|p|-1])
    decreases |p|
  {
    if |p| == 1 {
      assert E - TrailArcs(p) == E;
    } else {
      var F := E - Link(p[0], p[1]);
      RemoveLinkDegree(E, p[0], p[1], x);
      TrailArcsSymmetric(p[1..]);
      assert TrailArcs(p[1..]) <= F;
      TrailParity(F, p[1..], x);
      assert F - TrailArcs(p[1..]) == E - TrailArcs(p);
    }
  }

  /** What removing a trail does to the set of odd nodes. */
  lemma {:induction false} OddAfterTrail(E: set<Arc>, p: seq<Node>, C: set<Node>)
    requires Simple(E) && Trail(p) && TrailArcs(p) <= E
    ensures Simple(E - TrailArcs(p))
    ensures p[0] == p[|p|-1] ==> Odd(E - TrailArcs(p), C) == Odd(E, C)
    ensures p[0] != p[|p|-1] && p[0] in Odd(E, C) && p[|p|-1] in Odd(E, C)
       ==> Odd(E - TrailArcs(p), C) == Odd(E, C) - {p[0], p[|p|-1]} &&
           |Odd(E - TrailArcs(p), C)| == |Odd(E, C)| - 2
    ensures |Odd(E, C)| <= |Odd(E - TrailArcs(p), C)| + 2
  {
    hide Degree, TrailArcs, Simple, Odd;
    var F := E - TrailArcs(p);
    TrailParity(E, p, p[0]);
    forall x ensures Flipped(E, F, x) <==> p[0] != p[|p|-1] && (x == p[0] || x == p[|p|-1]) {
      TrailParity(E, p, x);
    }
    OddAfterFlips(E, F, C, p[0], p[|p|-1]);
  }

  ghost predicate Flipped(E: set<Arc>, F: set<Arc>, x: Node) {
    Degree(F, x) % 2 != Degree(E, x) % 2
  }

  /** When the parity of two nodes is flipped, or none as they coincide. */
  lemma {:induction false} OddAfterFlips(E: set<Arc>, F: set<Arc>, C: set<Node>, u: Node, v: Node)
    requires forall x :: Flipped(E, F, x) <==> u != v && (x == u || x == v)
    ensures u == v ==> Odd(F, C) == Odd(E, C)
    ensures u != v && u in Odd(E, C) && v in Odd(E, C) ==>
            Odd(F, C) == Odd(E, C) - {u, v} && |Odd(F, C)| == |Odd(E, C)| - 2
    ensures |Odd(E, C)| <= |Odd(F, C)| + 2
  {
    hide Degree;
    OddFlip(E, F, C, u);
    OddFlip(E, F, C, v);
    forall x ensures !Flipped(E, F, x) ==> (x in Odd(F, C) <==> x in Odd(E, C)) {
      OddFlip(E, F, C, x);
    }
    hide Odd, Flipped;
    if u == v {
      assert Odd(F, C) == Odd(E, C);
    } else {
      assert Odd(F, C) - {u, v} == Odd(E, C) - {u, v};
      TwoOut(Odd(E, C), Odd(F, C), u, v);
    }
  }

  lemma {:induction false} OddFlip(E: set<Arc>, F: set<Arc>, C: set<Node>, x: Node)
    ensures Flipped(E, F, x) && x in Odd(E, C) ==> x !in Odd(F, C)
    ensures !Flipped(E, F, x) ==> (x in Odd(F, C) <==> x in Odd(E, C))
  {
    hide Degree;
  }

  lemma {:induction false} TwoOut(A: set<Node>, B: set<Node>, u: Node, v: Node)
    requires u != v && A - {u, v} == B - {u, v} && (u in A ==> u !in B) && (v in A ==> v !in B)
    ensures u in A && v in A ==> B == A - {u, v} && |B| == |A| - 2
    ensures |A| <= |B| + 2
  {
    CardWithoutTwo(A, u, v);
    CardWithoutTwo(B, u, v);
    assert u in A && v in A ==> B - {u, v} == B;
  }

  /** Taking one link between two members out flips both. */
  lemma {:induction false} LinkFlips(E: set<Arc>, C: set<Node>, u: Node, v: Node)
    requires Simple(E) && Arc(u, v) in E && u in C && v in C
    ensures |Odd(E, C)| % 2 == |Odd(E - Link(u, v), C)| % 2
  {
    hide Degree, Odd;
    assert u != v;
    hide Simple;
    var F := E - Link(u, v);
    RemoveLinkDegree(E, u, v, u);
    RemoveLinkDegree(E, u, v, v);
    forall x ensures x !in {u, v} ==> (x in Odd(F, C) <==> x in Odd(E, C)) {
      RemoveLinkDegree(E, u, v, x);
      OddFlip(E, F, C, x);
    }
    OddIn(E, C, u);
    OddIn(F, C, u);
    OddIn(E, C, v);
    OddIn(F, C, v);
    assert Odd(E, C) - {u, v} == Odd(F, C) - {u, v};
    Toggle(Odd(E, C), Odd(F, C), u, v);
  }

  lemma {:induction false} OddIn(E: set<Arc>, C: set<Node>, x: Node)
    ensures x in Odd(E, C) <==> x in C && Degree(E, x) % 2 == 1
  {
  }

  /** Handshake: a closed set holds an even number of odd nodes. */
  lemma {:induction false} Handshake(E: set<Arc>, C: set<Node>)
    requires Simple(E) && Closed(E, C)
    ensures |Odd(E, C)| % 2 == 0
    decreases |E|
  {
    hide Odd;
    if a :| a in E && a.u in C {
      RemoveLinkDegree(E, a.u, a.v, a.u);
      hide Degree;
      LinkFlips(E, C, a.u, a.v);
      assert |E - Link(a.u, a.v)| < |E|;
      Handshake(E - Link(a.u, a.v), C);
    } else {
      NoneOdd(E, C);
    }
  }

  lemma {:induction false} NoneOdd(E: set<Arc>, C: set<Node>)
    requires forall a :: a in E ==> a.u !in C
    ensures Odd(E, C) == {}
  {
    forall x | x in C ensures Degree(E, x) == 0 {
      assert Out(E, x) == {};
    }
  }

  lemma {:induction false} Toggle(A: set<Node>, B: set<Node>, u: Node, v: Node)
    requires u != v && (u in A <==> u !in B) && (v in A <==> v !in B)
    requires A - {u, v} == B - {u, v}
    ensures |A| % 2 == |B| % 2
  {
    CardWithoutTwo(A, u, v);
    CardWithoutTwo(B, u, v);
  }

  lemma {:induction false} CardWithoutTwo(A: set<Node>, u: Node, v: Node)
    requires u != v
    ensures |A| == |A - {u, v}| + (if u in A then 1 else 0) + (if v in A then 1 else 0)
  {
    CardWithout(A, u);
    CardWithout(A - {u}, v);
    assert A - {u} - {v} == A - {u, v};
  }

  lemma {:induction false} CardWithout<T>(A: set<T>, u: T)
    ensures |A| == |A - {u}| + if u in A then 1 else 0
  {
    if u !in A {
      assert A - {u} == A;
    }
  }

  // ---- families of trails ----

  /** How often the trails of `Q` use each arc. */
  function Total(Q: seq<seq<Node>>): multiset<Arc> {
    if Q == [] then multiset{} else multiset(TrailArcs(Q[0])) + Total(Q[1..])
  }

  ghost predicate AllTrails(Q: seq<seq<Node>>) {
    forall i :: 0 <= i < |Q| ==> Trail(Q[i])
  }

  /** The trails of `Q` use every link of `E` exactly once and no other link. */
  ghost predicate Decomposes(Q: seq<seq<Node>>, E: set<Arc>) {
    AllTrails(Q) && Total(Q) == multiset(E)
  }

  lemma {:induction false} TotalAppend(Q: seq<seq<Node>>, p: seq<Node>)
    ensures Total(Q + [p]) == Total(Q) + multiset(TrailArcs(p))
  {
    if Q != [] {
      TotalAppend(Q[1..], p);
      assert (Q + [p])[1..] == Q[1..] + [p];
    } else {
      assert (Q + [p])[1..] == [];
    }
  }

  lemma {:induction false} TotalRemove(Q: seq<seq<Node>>, i: nat)
    requires i < |Q|
    ensures Total(Q) == Total(Q[..i] + Q[i+1..]) + multiset(TrailArcs(Q[i]))
  {
    if i > 0 {
      TotalRemove(Q[1..], i - 1);
      assert (Q[..i] + Q[i+1..])[1..] == Q[1..][..i-1] + Q[1..][i..];
    } else {
      assert Q[..0] + Q[1..] == Q[1..];
    }
  }

  lemma {:induction false} TotalMember(Q: seq<seq<Node>>, a: Arc)
    ensures a in Total(Q) <==> exists i :: 0 <= i < |Q| && a in TrailArcs(Q[i])
  {
    if Q != [] {
      TotalMember(Q[1..], a);
      if a in Total(Q[1..]) {
        var i :| 0 <= i < |Q[1..]| && a in TrailArcs(Q[1..][i]);
        assert a in TrailArcs(Q[i+1]);
      }
      forall i | 0 < i < |Q| && a in TrailArcs(Q[i]) ensures a in Total(Q[1..]) {
        assert a in TrailArcs(Q[1..][i-1]);
      }
    }
  }

  /** Lower bound: m trails can only carry the odd nodes of a graph when 2m reaches their number. */
  lemma {:induction false} OddNodesBoundTrails(Q: seq<seq<Node>>, E: set<Arc>, C: set<Node>)
    requires Simple(E) && Decomposes(Q, E)
    ensures |Odd(E, C)| <= 2 * |Q|
    decreases |Q|
  {
    if Q == [] {
      assert forall a :: a in E <==> a in multiset(E);
      assert E == {};
      forall x ensures Degree(E, x) == 0 { assert Out(E, x) == {}; }
      assert Odd(E, C) == {};
    } else {
      var T := TrailArcs(Q[0]);
      assert T <= E by {
        forall a | a in T ensures a in E { assert multiset(E)[a] > 0; }
      }
      assert multiset(E - T) == multiset(E) - multiset(T);
      OddAfterTrail(E, Q[0], C);
      OddNodesBoundTrails(Q[1..], E - T, C);
    }
  }
}

/** The random networks of the planning experiments: `createRandomTopo` draws the links and then joins the parts. */
module RandomTopo {
  import opened ArcSets
  import opened Lists
  import opened Planner
  import opened Dfls
  import opened EvenComponents

  /** The links that are drawn; `random(i, j)` is the coin thrown for the rows i < j, and row i is node i + 1. */
  ghost function Drawn(random: (nat, nat) -> bool, n: nat): set<Arc> {
    DrawnBefore(random, n, n, 0)
  }

  /** Those of the rows before `i`, and in row `i` before column `j`. */
  ghost function DrawnBefore(random: (nat, nat) -> bool, n: nat, i: nat, j: nat): set<Arc> {
    set u: nat, v: nat | u < n && v < n && Thrown(random, i, j, u, v) :: Arc(u + 1, v + 1)
  }

  ghost predicate Thrown(random: (nat, nat) -> bool, i: nat, j: nat, u: nat, v: nat) {
    var (x, y) := if u < v then (u, v) else (v, u);
    x < y && (x < i || (x == i && y < j)) && random(x, y)
  }

  lemma {:induction false} DrawnIs(random: (nat, nat) -> bool, n: nat, i: nat, j: nat, a: Arc)
    ensures a in DrawnBefore(random, n, i, j) <==>
            1 <= a.u <= n && 1 <= a.v <= n && Thrown(random, i, j, a.u - 1, a.v - 1)
  {
    hide Thrown;
    if a in DrawnBefore(random, n, i, j) {
      var u: nat, v: nat :| u < n && v < n && Thrown(random, i, j, u, v) && a == Arc(u + 1, v + 1);
      assert a.u - 1 == u && a.v - 1 == v;
    }
    if 1 <= a.u <= n && 1 <= a.v <= n && Thrown(random, i, j, a.u - 1, a.v - 1) {
      var u: nat, v: nat := a.u - 1, a.v - 1;
      assert Thrown(random, i, j, u, v) && a == Arc(u + 1, v + 1);
    }
  }

  lemma {:induction false} DrawnNext(random: (nat, nat) -> bool, n: nat, i: nat, j: nat)
    requires i < j < n
    ensures DrawnBefore(random, n, i, j + 1) ==
            if random(i, j) then DrawnBefore(random, n, i, j) + Link(i + 1, j + 1)
            else DrawnBefore(random, n, i, j) - Link(i + 1, j + 1)
  {
    hide DrawnBefore, Link;
    var (now, next, link) := (DrawnBefore(random, n, i, j), DrawnBefore(random, n, i, j + 1), Link(i + 1, j + 1));
    forall a ensures a in next <==> if a in link then random(i, j) else a in now {
      DrawnCell(random, n, i, j, a);
    }
    if random(i, j) {
      assert next == now + link;
    } else {
      assert next == now - link;
    }
  }

  lemma {:induction false} DrawnCell(random: (nat, nat) -> bool, n: nat, i: nat, j: nat, a: Arc)
    requires i < j < n
    ensures a in DrawnBefore(random, n, i, j + 1) <==>
            if a in Link(i + 1, j + 1) then random(i, j) else a in DrawnBefore(random, n, i, j)
  {
    hide DrawnBefore;
    DrawnIs(random, n, i, j, a);
    DrawnIs(random, n, i, j + 1, a);
  }

  lemma {:induction false} DrawnRow(random: (nat, nat) -> bool, n: nat, i: nat)
    requires i < n
    ensures DrawnBefore(random, n, i, n) == DrawnBefore(random, n, i + 1, 0)
    ensures DrawnBefore(random, n, i, i + 1) == DrawnBefore(random, n, i, 0)
  {
    hide DrawnBefore;
    forall a ensures a in DrawnBefore(random, n, i, n) <==> a in DrawnBefore(random, n, i + 1, 0)
             ensures a in DrawnBefore(random, n, i, i + 1) <==> a in DrawnBefore(random, n, i, 0)
    {
      DrawnIs(random, n, i, n, a);
      DrawnIs(random, n, i + 1, 0, a);
      DrawnIs(random, n, i, i + 1, a);
      DrawnIs(random, n, i, 0, a);
    }
  }

  /** `topoMatrix[i][j] = link; topoMatrix[j][i] = link`. */
  function Put(L: Matrix, i: nat, j: nat, link: int): Matrix
    requires i < |L| && j < |L| && i != j && j < |L[i]| && i < |L[j]|
  {
    L[i := L[i][j := link]][j := L[j][i := link]]
  }

  lemma {:induction false} PutCells(L: Matrix, i: nat, j: nat, link: int)
    requires Topology(L) && i < |L| && j < |L| && i != j && link in {0, 1}
    ensures var M := Put(L, i, j, link);
            |M| == |L| && (forall x :: 0 <= x < |L| ==> |M[x]| == |L|) &&
            forall x, y :: 0 <= x < |L| && 0 <= y < |L| ==>
              M[x][y] == if (x == i && y == j) || (x == j && y == i) then link else L[x][y]
  {
  }

  lemma {:induction false} PutTopology(L: Matrix, i: nat, j: nat, link: int)
    requires Topology(L) && i < |L| && j < |L| && i != j && link in {0, 1}
    ensures Topology(Put(L, i, j, link))
  {
    PutCells(L, i, j, link);
    var M := Put(L, i, j, link);
    hide Put;
    forall x, y | 0 <= x < |L| && 0 <= y < |L| ensures M[x][y] == M[y][x] {
      assert L[x][y] == L[y][x];
    }
  }

  lemma {:induction false} UnusedCell(L: Matrix, a: Arc)
    requires Topology(L)
    ensures a in Unused(L) <==> 1 <= a.u <= |L| && 1 <= a.v <= |L| && L[a.u-1][a.v-1] == 1
  {
    if 1 <= a.u <= |L| && 1 <= a.v <= |L| && L[a.u-1][a.v-1] == 1 {
      var (i, j) := (a.u - 1, a.v - 1);
      assert a == Arc(i + 1, j + 1);
    }
  }

  lemma {:induction false} PutUnused(L: Matrix, i: nat, j: nat, link: int)
    requires Topology(L) && i < |L| && j < |L| && i != j && link in {0, 1}
    ensures Topology(Put(L, i, j, link))
    ensures Unused(Put(L, i, j, link)) == if link == 1 then Unused(L) + Link(i + 1, j + 1)
            else Unused(L) - Link(i + 1, j + 1)
  {
    PutTopology(L, i, j, link);
    PutCells(L, i, j, link);
    hide Topology, Put, Unused;
    forall a ensures a in Unused(Put(L, i, j, link)) <==>
                     if a in Link(i + 1, j + 1) then link == 1 else a in Unused(L)
    {
      UnusedCell(L, a);
      UnusedCell(Put(L, i, j, link), a);
    }
  }

  // ---- searching ----

  /** The nodes of the visited rows. */
  ghost function Seen(visited: seq<int>): set<Node> {
    set i | 0 <= i < |visited| && visited[i] == 1 :: i + 1
  }

  /** Every neighbour of `x` is in `s`. */
  ghost predicate Covered(E: set<Arc>, x: Node, s: set<Node>) {
    forall y :: Arc(x, y) in E ==> y in s
  }

  /** What a call at `x` achieves when the visited nodes grow from `before` to `after`. */
  ghost predicate Explored(E: set<Arc>, x: Node, before: set<Node>, after: set<Node>) {
    before <= after && x in after &&
    forall y :: y in after && y !in before ==> Reachable(E, x, y) && Covered(E, y, after)
  }

  /** The same in the middle of the loop. */
  ghost predicate Exploring(E: set<Arc>, x: Node, before: set<Node>, now: set<Node>) {
    before + {x} <= now && forall y :: y in now && y !in before ==> Reachable(E, x, y) && (y == x || Covered(E, y, now))
  }

  lemma {:induction false} ReachNext(E: set<Arc>, x: Node, y: Node, z: Node)
    requires Reachable(E, x, y) && Reachable(E, y, z)
    ensures Reachable(E, x, z)
  {
    forall S: set<Node> | x in S && Closed(E, S) ensures z in S {
      assert y in S;
    }
  }

  lemma {:induction false} ReachArc(E: set<Arc>, x: Node, y: Node)
    requires Arc(x, y) in E
    ensures Reachable(E, x, y)
  {
  }

  lemma {:induction false} ReachSelf(E: set<Arc>, x: Node)
    ensures Reachable(E, x, x)
  {
  }

  lemma {:induction false} ExploreStep(E: set<Arc>, x: Node, n: Node, before: set<Node>, mid: set<Node>,
                                       after: set<Node>)
    requires Arc(x, n) in E && Exploring(E, x, before, mid) && Explored(E, n, mid, after)
    ensures Exploring(E, x, before, after)
  {
    hide Reachable;
    ReachArc(E, x, n);
    forall y | y in after && y !in before ensures Reachable(E, x, y) && (y == x || Covered(E, y, after)) {
      if y !in mid {
        ReachNext(E, x, n, y);
      }
    }
  }

  /** Closed, and within reach of the first nodes of the parts found so far. */
  ghost predicate Parts(E: set<Arc>, seen: set<Node>, firsts: seq<nat>) {
    Closed(E, seen) && forall x :: x in seen ==> exists k :: 0 <= k < |firsts| && Reachable(E, firsts[k] + 1, x)
  }

  /** The first nodes in rising order, none within reach of an earlier one. */
  ghost predicate Firsts(E: set<Arc>, firsts: seq<nat>, n: nat) {
    (forall k :: 0 <= k < |firsts| ==> firsts[k] < n) &&
    forall k, m :: 0 <= k < m < |firsts| ==> Apart(E, firsts[k], firsts[m])
  }

  ghost predicate Apart(E: set<Arc>, i: nat, j: nat) {
    i < j && !Reachable(E, i + 1, j + 1)
  }

  lemma {:induction false} PartsNext(E: set<Arc>, seen: set<Node>, after: set<Node>, firsts: seq<nat>, i: nat)
    requires Parts(E, seen, firsts) && Explored(E, i + 1, seen, after)
    ensures Parts(E, after, firsts + [i])
  {
    hide Reachable;
    var all := firsts + [i];
    forall a | a in E && a.u in after ensures a.v in after {
      assert a.u !in seen ==> Covered(E, a.u, after);
      assert a == Arc(a.u, a.v);
    }
    forall x | x in after ensures exists k :: 0 <= k < |all| && Reachable(E, all[k] + 1, x) {
      if x in seen {
        var k :| 0 <= k < |firsts| && Reachable(E, firsts[k] + 1, x);
        assert all[k] == firsts[k];
      } else {
        assert all[|firsts|] == i;
      }
    }
  }

  lemma {:induction false} NoParts(E: set<Arc>, n: nat)
    ensures Parts(E, {}, []) && Firsts(E, [], n)
  {
  }

  lemma {:induction false} SeenIs(visited: seq<int>, i: nat)
    requires i < |visited|
    ensures i + 1 in Seen(visited) <==> visited[i] == 1
  {
  }

  lemma {:induction false} FirstsNext(E: set<Arc>, seen: set<Node>, firsts: seq<nat>, i: nat, n: nat)
    requires Firsts(E, firsts, n) && i < n && Parts(E, seen, firsts) && i + 1 !in seen
    requires forall k :: 0 <= k < |firsts| ==> firsts[k] < i && firsts[k] + 1 in seen
    ensures Firsts(E, firsts + [i], n)
  {
    hide Apart, Parts;
    var all := firsts + [i];
    forall k, m | 0 <= k < m < |all| ensures Apart(E, all[k], all[m]) {
      if m < |firsts| {
        assert Apart(E, firsts[k], firsts[m]);
      } else {
        PartApart(E, seen, firsts, firsts[k], i);
      }
    }
  }

  lemma {:induction false} PartApart(E: set<Arc>, seen: set<Node>, firsts: seq<nat>, k: nat, i: nat)
    requires Parts(E, seen, firsts) && k < i && k + 1 in seen && i + 1 !in seen
    ensures Apart(E, k, i)
  {
    hide Reachable, Closed;
    NotReached(E, seen, k + 1, i + 1);
  }

  lemma {:induction false} NotReached(E: set<Arc>, S: set<Node>, x: Node, y: Node)
    requires Closed(E, S) && x in S && y !in S
    ensures !Reachable(E, x, y)
  {
  }

  // ---- joining the parts ----

  /** `firsts` holds the first node of every part of `E`, and `F` has the links from each of them to the next one
      more. */
  ghost predicate JoinedBy(E: set<Arc>, F: set<Arc>, firsts: seq<nat>, n: nat) {
    Firsts(E, firsts, n) && F == E + if firsts == [] then {} else Chain(firsts, |firsts| - 1)
  }

  /** The links from each first node to the next one, up to number `k`. */
  ghost function Chain(firsts: seq<nat>, k: nat): set<Arc>
    requires k < |firsts| || k == 0
  {
    if k == 0 then {} else Chain(firsts, k - 1) + Link(firsts[k-1] + 1, firsts[k] + 1)
  }

  lemma {:induction false} ReachMore(E: set<Arc>, F: set<Arc>, x: Node, y: Node)
    requires E <= F && Reachable(E, x, y)
    ensures Reachable(F, x, y)
  {
    forall S: set<Node> | x in S && Closed(F, S) ensures y in S {
      assert Closed(E, S);
    }
  }

  lemma {:induction false} ChainReaches(E: set<Arc>, firsts: seq<nat>, m: nat, k: nat)
    requires m <= k < |firsts|
    ensures Reachable(E + Chain(firsts, k), firsts[0] + 1, firsts[m] + 1)
    decreases k
  {
    hide Reachable;
    if k == 0 {
      ReachSelf(E + Chain(firsts, 0), firsts[0] + 1);
    } else {
      var F := E + Chain(firsts, k);
      ChainReaches(E, firsts, if m < k then m else k - 1, k - 1);
      ReachMore(E + Chain(firsts, k - 1), F, firsts[0] + 1, firsts[if m < k then m else k - 1] + 1);
      if m == k {
        ReachArc(F, firsts[k-1] + 1, firsts[k] + 1);
        ReachNext(F, firsts[0] + 1, firsts[k-1] + 1, firsts[k] + 1);
      }
    }
  }

  /** A link of the chain joins two nodes that the drawn links keep apart. */
  lemma {:induction false} ChainJoins(E: set<Arc>, firsts: seq<nat>, k: nat, n: nat, a: Arc)
    requires Simple(E) && Firsts(E, firsts, n) && (k < |firsts| || k == 0) && a in Chain(firsts, k)
    ensures !Reachable(E, a.u, a.v)
  {
    if a in Link(firsts[k-1] + 1, firsts[k] + 1) {
      if Reachable(E, firsts[k] + 1, firsts[k-1] + 1) {
        ReachableBack(E, firsts[k] + 1, firsts[k-1] + 1);
      }
    } else {
      ChainJoins(E, firsts, k - 1, n, a);
    }
  }

  /** The nodes from 1 to n. */
  ghost predicate UpTo(seen: set<Node>, n: nat) {
    forall y :: 1 <= y <= n ==> y in seen
  }

  /** Every node is within reach of `x`. */
  ghost predicate Spans(E: set<Arc>, x: Node, n: nat) {
    forall y :: 1 <= y <= n ==> Reachable(E, x, y)
  }

  lemma {:induction false} JoinedSpans(E: set<Arc>, firsts: seq<nat>, seen: set<Node>, n: nat)
    requires Parts(E, seen, firsts) && |firsts| > 0 && UpTo(seen, n)
    ensures Spans(E + Chain(firsts, |firsts| - 1), firsts[0] + 1, n)
  {
    hide Reachable;
    var (F, x) := (E + Chain(firsts, |firsts| - 1), firsts[0] + 1);
    forall y | 1 <= y <= n ensures Reachable(F, x, y) {
      assert y in seen;
      var k :| 0 <= k < |firsts| && Reachable(E, firsts[k] + 1, y);
      ReachMore(E, F, firsts[k] + 1, y);
      ChainReaches(E, firsts, k, |firsts| - 1);
      ReachNext(F, x, firsts[k] + 1, y);
    }
  }

  /** All nodes from 1 to n are connected with each other. */
  ghost predicate Whole(E: set<Arc>, n: nat) {
    forall x, y :: 1 <= x <= n && 1 <= y <= n ==> Reachable(E, x, y)
  }

  lemma {:induction false} SpansIsWhole(E: set<Arc>, x: Node, n: nat)
    requires Simple(E) && Spans(E, x, n) && 1 <= x <= n
    ensures Whole(E, n)
  {
    hide Reachable;
    forall y, z | 1 <= y <= n && 1 <= z <= n ensures Reachable(E, y, z) {
      ReachableBack(E, x, y);
      ReachNext(E, y, x, z);
    }
  }

  /** In a whole network of several nodes every node has a link, and the network is connected. */
  lemma {:induction false} WholeIsConnected(L: Matrix)
    requires Topology(L) && Whole(Unused(L), |L|)
    ensures Connected(LinksOf(L)) && (|L| > 1 ==> forall x :: 1 <= x <= |L| ==> x in Ends(LinksOf(L)))
  {
    UnusedIsLinks(L);
    var E := Unused(L);
    forall x | x in Ends(E) ensures 1 <= x <= |L| {
      var a :| a in E && a.u == x;
      UnusedCell(L, a);
    }
    hide Reachable, Unused, Topology;
    if |L| > 1 {
      forall x | 1 <= x <= |L| ensures x in Ends(E) {
        LinkedIfReached(E, if x == 1 then 2 else 1, x);
      }
    }
  }

  lemma {:induction false} LinkedIfReached(E: set<Arc>, x: Node, y: Node)
    requires Simple(E) && Reachable(E, x, y) && x != y
    ensures y in Ends(E)
  {
    if y !in Ends(E) {
      var S := Ends(E) + {x};
      forall a | a in E ensures a.v in S {
        assert Arc(a.v, a.u) in E;
      }
      assert Closed(E, S);
    }
  }

  // ---- counting the odd nodes ----

  function RowSum(row: seq<int>, k: nat): int
    requires k <= |row|
  {
    if k == 0 then 0 else RowSum(row, k - 1) + row[k-1]
  }

  predicate Wide(L: Matrix, n: nat) {
    n <= |L| && forall i :: 0 <= i < n ==> n <= |L[i]|
  }

  /** The nodes of the first `k` rows with an odd sum. */
  function OddRows(L: Matrix, n: nat, k: nat): set<Node>
    requires Wide(L, n) && k <= n
  {
    set i | 0 <= i < k && RowSum(L[i], n) % 2 == 1 :: i + 1
  }

  /** `calOddNum`. */
  method CalOddNum(topoMatrix: Matrix, sNum: nat) returns (count: nat)
    requires Wide(topoMatrix, sNum)
    ensures count == |OddRows(topoMatrix, sNum, sNum)|
  {
    count := 0;
    assert OddRows(topoMatrix, sNum, 0) == {};
    for i := 0 to sNum
      invariant count == |OddRows(topoMatrix, sNum, i)|
    {
      var degreeSum := 0;
      for j := 0 to sNum
        invariant degreeSum == RowSum(topoMatrix[i], j)
      {
        degreeSum := degreeSum + topoMatrix[i][j];
      }
      OddRowsNext(topoMatrix, sNum, i);
      if degreeSum % 2 == 1 {
        count := count + 1;
      }
    }
  }

  lemma {:induction false} OddRowsNext(L: Matrix, n: nat, i: nat)
    requires Wide(L, n) && i < n
    ensures |OddRows(L, n, i + 1)| == |OddRows(L, n, i)| + if RowSum(L[i], n) % 2 == 1 then 1 else 0
  {
    hide RowSum;
    var (now, next) := (OddRows(L, n, i), OddRows(L, n, i + 1));
    assert i + 1 !in now;
    assert i + 1 in next <==> RowSum(L[i], n) % 2 == 1;
    assert next == if RowSum(L[i], n) % 2 == 1 then now + {i + 1} else now;
  }

  /** The links of node `x` to the first `k` nodes. */
  ghost function OutTo(E: set<Arc>, x: Node, k: nat): set<Arc> {
    set a | a in E && a.u == x && a.v <= k
  }

  lemma {:induction false} OutToNext(E: set<Arc>, x: Node, k: nat)
    requires k > 0
    ensures |OutTo(E, x, k)| == |OutTo(E, x, k - 1)| + if Arc(x, k) in E then 1 else 0
  {
    var (now, a) := (OutTo(E, x, k - 1), Arc(x, k));
    assert a !in now;
    assert OutTo(E, x, k) == if a in E then now + {a} else now;
  }

  lemma {:induction false} RowDegree(L: Matrix, i: nat, k: nat)
    requires Topology(L) && i < |L| && k <= |L|
    ensures RowSum(L[i], k) == |OutTo(Unused(L), i + 1, k)|
  {
    if k == 0 {
      FirstNode(L);
      assert OutTo(Unused(L), i + 1, 0) == {};
    } else {
      RowDegree(L, i, k - 1);
      UnusedCell(L, Arc(i + 1, k));
      assert L[i][k-1] in {0, 1};
      hide Unused, OutTo, Topology;
      OutToNext(Unused(L), i + 1, k);
    }
  }

  lemma {:induction false} FirstNode(L: Matrix)
    requires Topology(L)
    ensures forall a :: a in Unused(L) ==> a.v > 0
  {
  }

  /** In a network matrix the odd rows are the nodes of odd degree, of which there is an even number. */
  lemma {:induction false} OddRowsAreOdd(L: Matrix)
    requires Topology(L)
    ensures OddRows(L, |L|, |L|) == Odd(LinksOf(L), Ends(LinksOf(L))) && |OddRows(L, |L|, |L|)| % 2 == 0
  {
    UnusedIsLinks(L);
    assert Wide(L, |L|);
    hide OddRows, Odd, Ends, LinksOf, Unused, Topology, Network;
    var E := LinksOf(L);
    forall x ensures x in OddRows(L, |L|, |L|) <==> x in Odd(E, Ends(E)) {
      OddRow(L, x);
    }
    LinkedIsClosed(E);
    Handshake(E, Ends(E));
  }

  lemma {:induction false} OddRow(L: Matrix, x: Node)
    requires Topology(L)
    ensures x in OddRows(L, |L|, |L|) <==> x in Odd(Unused(L), Ends(Unused(L)))
  {
    var E := Unused(L);
    if 1 <= x <= |L| {
      RowDegree(L, x - 1, |L|);
      assert OutTo(E, x, |L|) == Out(E, x);
      hide Unused;
      if Degree(E, x) % 2 == 1 {
        var a :| a in Out(E, x);
        assert x in Ends(E);
      }
    } else {
      assert Out(E, x) == {};
    }
  }

  // ---- the generator ----

  /** The nodes of the rows that are still unmarked. */
  ghost function Unseen(visited: seq<int>): set<Node> {
    set i | 0 <= i < |visited| && visited[i] != 1 :: i + 1
  }

  lemma {:induction false} UnseenShrinks(visited: seq<int>, now: seq<int>, v: nat)
    requires v < |visited| == |now| && visited[v] == 0 && Seen(visited) + {v + 1} <= Seen(now)
    ensures Unseen(now) < Unseen(visited)
  {
    assert v + 1 in Unseen(visited) && v + 1 !in Unseen(now) by {
      assert v + 1 in Seen(now);
    }
    forall x | x in Unseen(now) ensures x in Unseen(visited) {
      assert visited[x-1] == 1 ==> x in Seen(visited);
      assert now[x-1] == 1 <==> x in Seen(now);
    }
  }

  lemma {:induction false} Marked(E: set<Arc>, visited: seq<int>, v: nat)
    requires v < |visited| && visited[v] == 0
    ensures Seen(visited[v := 1]) == Seen(visited) + {v + 1} && v + 1 !in Seen(visited)
    ensures Exploring(E, v + 1, Seen(visited), Seen(visited[v := 1]))
  {
    ReachSelf(E, v + 1);
    var next := visited[v := 1];
    forall x ensures x in Seen(next) <==> x in Seen(visited) || x == v + 1 {
      if x in Seen(visited) {
        assert next[x-1] == 1;
      }
      if x == v + 1 {
        assert next[x-1] == 1;
      }
    }
  }

  ghost predicate Flags(visited: seq<int>) {
    forall i :: 0 <= i < |visited| ==> visited[i] == 0 || visited[i] == 1
  }

  /** The matrix and the marks that the nested functions of `createRandomTopo` share. */
  class Generator {
    var topoMatrix: Matrix
    var visited: seq<int>

    ghost predicate Valid()
      reads this
    {
      Topology(topoMatrix) && |visited| == |topoMatrix| && Flags(visited)
    }

    ghost function Arcs(): set<Arc>
      requires Topology(topoMatrix)
      reads this`topoMatrix
    {
      Unused(topoMatrix)
    }

    constructor (sNum: nat)
      ensures Valid() && |topoMatrix| == sNum && Arcs() == {} && Seen(visited) == {}
    {
      topoMatrix := seq(sNum, _ => seq(sNum, _ => 0));
      visited := seq(sNum, _ => 0);
    }

    method PutLink(i: nat, j: nat, link: int)
      requires Valid() && i < |topoMatrix| && j < |topoMatrix| && i != j && link in {0, 1}
      modifies this`topoMatrix
      ensures Valid() && |topoMatrix| == |old(topoMatrix)|
      ensures Arcs() == if link == 1 then old(Arcs()) + Link(i + 1, j + 1) else old(Arcs()) - Link(i + 1, j + 1)
    {
      PutUnused(topoMatrix, i, j, link);
      topoMatrix := topoMatrix[i := topoMatrix[i][j := link]];
      topoMatrix := topoMatrix[j := topoMatrix[j][i := link]];
    }

    /** The random links. */
    method Draw(random: (nat, nat) -> bool)
      requires Valid() && Arcs() == {}
      modifies this`topoMatrix
      ensures Valid() && |topoMatrix| == |old(topoMatrix)| && Arcs() == Drawn(random, |topoMatrix|)
    {
      var sNum := |topoMatrix|;
      hide Topology, Flags, Arcs, DrawnBefore;
      assert Arcs() == DrawnBefore(random, sNum, 0, 0) by {
        forall a ensures a !in DrawnBefore(random, sNum, 0, 0) {
          DrawnIs(random, sNum, 0, 0, a);
        }
      }
      for i := 0 to sNum
        invariant Valid() && |topoMatrix| == sNum && Arcs() == DrawnBefore(random, sNum, i, 0)
      {
        DrawnRow(random, sNum, i);
        for j := i + 1 to sNum
          invariant Valid() && |topoMatrix| == sNum && Arcs() == DrawnBefore(random, sNum, i, j)
        {
          var link := if random(i, j) then 1 else 0;
          DrawnNext(random, sNum, i, j);
          PutLink(i, j, link);
        }
      }
    }

    /** The nested function `DFS`. */
    method DFS(v: nat)
      requires Valid() && v < |topoMatrix| && visited[v] == 0
      modifies this`visited
      ensures Valid() && Explored(Arcs(), v + 1, Seen(old(visited)), Seen(visited))
      decreases Unseen(visited)
    {
      ghost var before := visited;
      visited := visited[v := 1];
      Marked(Arcs(), before, v);
      for j := 0 to |topoMatrix|
        invariant Valid() && Exploring(Arcs(), v + 1, Seen(before), Seen(visited))
        invariant forall y :: 0 <= y < j && topoMatrix[v][y] == 1 ==> y + 1 in Seen(visited)
      {
        if topoMatrix[v][j] == 1 && visited[j] == 0 {
          ghost var mid := visited;
          UnseenShrinks(before, mid, v);
          DFS(j);
          ExploreStep(Arcs(), v + 1, j + 1, Seen(before), Seen(mid), Seen(visited));
        }
      }
    }

    /** The first nodes of the parts, in the order they are met. */
    method Search() returns (disconNode: seq<nat>)
      requires Valid() && Seen(visited) == {}
      modifies this`visited
      ensures Valid() && Parts(Arcs(), Seen(visited), disconNode) && Firsts(Arcs(), disconNode, |topoMatrix|)
      ensures UpTo(Seen(visited), |topoMatrix|)
    {
      hide Arcs, Parts, Firsts, Seen, Topology, Covered, Reachable;
      disconNode := [];
      NoParts(Arcs(), |topoMatrix|);
      for i := 0 to |topoMatrix|
        invariant Valid() && Parts(Arcs(), Seen(visited), disconNode) && Firsts(Arcs(), disconNode, |topoMatrix|)
        invariant forall k :: 0 <= k < |disconNode| ==> disconNode[k] < i && disconNode[k] + 1 in Seen(visited)
        invariant UpTo(Seen(visited), i)
      {
        SeenIs(visited, i);
        if visited[i] == 0 {
          ghost var before := Seen(visited);
          FirstsNext(Arcs(), before, disconNode, i, |topoMatrix|);
          DFS(i);
          PartsNext(Arcs(), before, Seen(visited), disconNode, i);
          disconNode := disconNode + [i];
        }
      }
    }

    /** The chain of links between the parts. */
    method Join(disconNode: seq<nat>)
      requires Valid() && Firsts(Arcs(), disconNode, |topoMatrix|)
      modifies this`topoMatrix
      ensures Valid() && |topoMatrix| == |old(topoMatrix)|
      ensures Arcs() == old(Arcs()) + if disconNode == [] then {} else Chain(disconNode, |disconNode| - 1)
    {
      hide Arcs, Topology, Reachable;
      var i := 0;
      while i < |disconNode| - 1
        invariant i < |disconNode| || i == 0
        invariant Valid() && |topoMatrix| == |old(topoMatrix)| && Arcs() == old(Arcs()) + Chain(disconNode, i)
      {
        PutLink(disconNode[i], disconNode[i+1], 1);
        i := i + 1;
      }
    }
  }

  /** No link is added inside a part. */
  lemma {:induction false} JoinsApart(E: set<Arc>, F: set<Arc>, firsts: seq<nat>, n: nat)
    requires Simple(E) && JoinedBy(E, F, firsts, n)
    ensures E <= F && forall a :: a in F && a !in E ==> !Reachable(E, a.u, a.v)
  {
    hide Reachable, Firsts, Chain;
    forall a | a in F && a !in E ensures !Reachable(E, a.u, a.v) {
      ChainJoins(E, firsts, |firsts| - 1, n, a);
    }
  }

  lemma {:induction false} JoinedReaches(E: set<Arc>, F: set<Arc>, firsts: seq<nat>, seen: set<Node>, n: nat)
    requires Simple(F) && JoinedBy(E, F, firsts, n) && Parts(E, seen, firsts) && UpTo(seen, n)
    ensures Whole(F, n)
  {
    hide Reachable, Chain, Simple, Closed;
    if n > 0 {
      assert 1 in seen;
      JoinedSpans(E, firsts, seen, n);
      SpansIsWhole(F, firsts[0] + 1, n);
    }
  }

  /** The joined network is connected, has a link at every node, and can be planned. */
  lemma {:induction false} JoinedIsWhole(E: set<Arc>, L: Matrix, firsts: seq<nat>, seen: set<Node>)
    requires Topology(L) && JoinedBy(E, Unused(L), firsts, |L|) && Parts(E, seen, firsts) && UpTo(seen, |L|)
    ensures Connected(LinksOf(L)) && OneEvenAtMost(LinksOf(L))
    ensures |L| > 1 ==> forall x :: 1 <= x <= |L| ==> x in Ends(LinksOf(L))
  {
    hide *;
    UnusedIsLinks(L);
    JoinedReaches(E, Unused(L), firsts, seen, |L|);
    WholeIsConnected(L);
    ConnectedIsOneEven(LinksOf(L));
  }

  /** `createRandomTopo`, for every outcome of the coins: a network matrix with all drawn links that is connected, where
      a link was added only between parts that the drawn links leave apart, and its number of odd nodes. */
  method CreateRandomTopo(sNum: nat, random: (nat, nat) -> bool) returns (topoMatrix: Matrix, oddCount: nat)
    ensures Topology(topoMatrix) && |topoMatrix| == sNum
    ensures Connected(LinksOf(topoMatrix)) && OneEvenAtMost(LinksOf(topoMatrix))
    ensures sNum > 1 ==> forall x :: 1 <= x <= sNum ==> x in Ends(LinksOf(topoMatrix))
    ensures exists firsts :: JoinedBy(Drawn(random, sNum), LinksOf(topoMatrix), firsts, sNum)
    ensures Drawn(random, sNum) <= LinksOf(topoMatrix)
    ensures forall a :: a in LinksOf(topoMatrix) && a !in Drawn(random, sNum) ==>
            !Reachable(Drawn(random, sNum), a.u, a.v)
    ensures oddCount == |Odd(LinksOf(topoMatrix), Ends(LinksOf(topoMatrix)))| && oddCount % 2 == 0
  {
    var t := new Generator(sNum);
    t.Draw(random);
    ghost var E := t.Arcs();
    UnusedIsLinks(t.topoMatrix);
    var disconNode := t.Search();
    ghost var seen := Seen(t.visited);
    t.Join(disconNode);
    topoMatrix := t.topoMatrix;
    UnusedIsLinks(topoMatrix);
    assert JoinedBy(E, Unused(topoMatrix), disconNode, sNum);
    JoinsApart(E, Unused(topoMatrix), disconNode, sNum);
    JoinedIsWhole(E, topoMatrix, disconNode, seen);
    OddRowsAreOdd(topoMatrix);
    oddCount := CalOddNum(topoMatrix, sNum);
  }
}

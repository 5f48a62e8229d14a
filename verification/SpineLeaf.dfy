/** The generated spine-leaf fabric with its ready-made paths: `genSpineLeaf`. */
module SpineLeaf {
  import opened ArcSets
  import opened Lists
  import Topology
  import Controller

  /** Spine `x` below `k` and leaf `y` from `k` to below `n`, or the other way round. */
  ghost predicate Across(k: nat, n: nat, x: int, y: int) {
    0 <= x < k <= y < n || 0 <= y < k <= x < n
  }

  /** The links of `k` spines with the leaves from `k` to below `n`, and of the leaves `n` and `n` + 1 with the first
      `j` spines. */
  ghost predicate Among(k: nat, n: nat, j: nat, a: Arc) {
    Across(k, n, a.u, a.v) || (a.u in {n, n + 1} && 0 <= a.v < j) || (a.v in {n, n + 1} && 0 <= a.u < j)
  }

  ghost function Fabric(k: nat, n: nat, j: nat): set<Arc> {
    set x, y | 0 <= x <= n + k + 1 && 0 <= y <= n + k + 1 && Among(k, n, j, Arc(x, y)) :: Arc(x, y)
  }

  lemma {:induction false} FabricIs(k: nat, n: nat, j: nat, a: Arc)
    requires j <= k
    ensures a in Fabric(k, n, j) <==> Among(k, n, j, a)
  {
    assert a == Arc(a.u, a.v);
  }

  lemma {:induction false} FabricNext(k: nat, n: nat, j: nat)
    requires j < k <= n
    ensures Trail([n, j, n + 1]) && TrailArcs([n, j, n + 1]) == Link(n, j) + Link(j, n + 1)
    ensures TrailArcs([n, j, n + 1]) !! Fabric(k, n, j)
    ensures Fabric(k, n, j + 1) == Fabric(k, n, j) + TrailArcs([n, j, n + 1])
  {
    HopTrail(n, j, n + 1);
    hide Fabric, TrailArcs, Trail;
    forall a ensures a in Fabric(k, n, j + 1) <==> a in Fabric(k, n, j) || a in TrailArcs([n, j, n + 1])
             ensures a in TrailArcs([n, j, n + 1]) ==> a !in Fabric(k, n, j)
    {
      FabricIs(k, n, j, a);
      FabricIs(k, n, j + 1, a);
    }
  }

  lemma {:induction false} HopTrail(x: Node, y: Node, z: Node)
    requires x != y && y != z && x != z
    ensures Trail([x, y, z]) && TrailArcs([x, y, z]) == Link(x, y) + Link(y, z)
  {
    assert [x, y, z][1..] == [y, z] && [y, z][1..] == [z];
    assert TrailArcs([z]) == {} && TrailArcs([y, z]) == Link(y, z) + TrailArcs([z]);
  }

  lemma {:induction false} FabricPair(k: nat, n: nat)
    requires k <= n
    ensures Fabric(k, n, k) == Fabric(k, n + 2, 0)
  {
    hide Fabric;
    forall a ensures a in Fabric(k, n, k) <==> a in Fabric(k, n + 2, 0) {
      FabricIs(k, n, k, a);
      FabricIs(k, n + 2, 0, a);
    }
  }

  lemma {:induction false} NoLeaf(k: nat)
    ensures Decomposes([], Fabric(k, k, 0))
  {
    forall a ensures a !in Fabric(k, k, 0) {
      FabricIs(k, k, 0, a);
    }
    assert Fabric(k, k, 0) == {};
  }

  /** One trail more over links that were not used yet. */
  lemma {:induction false} DecomposeMore(Q: seq<seq<Node>>, E: set<Arc>, p: seq<Node>)
    requires Decomposes(Q, E) && Trail(p) && TrailArcs(p) !! E
    ensures Decomposes(Q + [p], E + TrailArcs(p))
  {
    hide Trail, TrailArcs;
    TotalAppend(Q, p);
    assert multiset(E + TrailArcs(p)) == multiset(E) + multiset(TrailArcs(p));
  }

  /** Two neighbouring leaves by way of a spine; leaf numbers below `n`. */
  ghost predicate Zigzag(p: seq<nat>, k: nat, n: nat) {
    |p| == 3 && p[1] < k <= p[0] && p[2] == p[0] + 1 && p[0] < n && (p[0] - k) % 2 == 0
  }

  ghost predicate Zigzags(paths: seq<seq<nat>>, k: nat, n: nat) {
    forall m :: 0 <= m < |paths| ==> Zigzag(paths[m], k, n)
  }

  /** The cells that the loops have set so far. */
  ghost predicate Cells(L: seq<seq<int>>, k: nat, n: nat, i: nat, j: nat) {
    |L| == n && (forall x :: 0 <= x < n ==> |L[x]| == n) &&
    forall x, y :: 0 <= x < n && 0 <= y < n ==> L[x][y] == if Set(k, n, i, j, x, y) then 1 else 0
  }

  ghost predicate Set(k: nat, n: nat, i: nat, j: nat, x: nat, y: nat) {
    Across(k, n, x, y) && var (s, l) := if x < y then (x, y) else (y, x); s < i || (s == i && l < j)
  }

  lemma {:induction false} CellsNext(L: seq<seq<int>>, k: nat, n: nat, i: nat, j: nat)
    requires i < k <= j < n && Cells(L, k, n, i, j)
    ensures Cells(L[i := L[i][j := 1]][j := L[j][i := 1]], k, n, i, j + 1)
  {
  }

  lemma {:induction false} CellsRow(L: seq<seq<int>>, k: nat, n: nat, i: nat)
    requires i < k <= n && Cells(L, k, n, i, n)
    ensures Cells(L, k, n, i + 1, k)
  {
  }

  /** The fabric: every spine linked with every leaf, and a host at every leaf. */
  ghost predicate Fabricated(topoList: seq<seq<int>>, hostList: seq<int>, k: nat) {
    Topology.Shaped(topoList, hostList) && k <= |topoList| &&
    (forall x, y :: 0 <= x < |topoList| && 0 <= y < |topoList| ==>
      topoList[x][y] == if Across(k, |topoList|, x, y) then 1 else 0) &&
    forall x :: 0 <= x < |topoList| ==> hostList[x] == if x < k then 0 else 1
  }

  /** A path that can be routed, with a host at both of its ends. */
  ghost predicate FromHostToHost(topoList: seq<seq<int>>, hostList: seq<int>, p: seq<nat>)
    requires Topology.Shaped(topoList, hostList)
  {
    Controller.OnGraph(p, |topoList|) && Controller.ValidPath(topoList, hostList, p) && hostList[p[0]] == 1 &&
    hostList[p[|p|-1]] == 1
  }

  lemma {:induction false} ZigzagRoutes(topoList: seq<seq<int>>, hostList: seq<int>, k: nat, p: seq<nat>)
    requires Fabricated(topoList, hostList, k) && Zigzag(p, k, |topoList|)
    ensures p[2] < |topoList| ==> FromHostToHost(topoList, hostList, p)
  {
    if p[2] < |topoList| {
      var n := |topoList|;
      assert Across(k, n, p[1], p[0]) && Across(k, n, p[1], p[2]);
      assert topoList[p[1]][p[0]] == 1 && topoList[p[1]][p[2]] == 1;
      var devs := Controller.Itinerary(p);
      assert devs[0] == Topology.Switch(p[0]) && devs[1] == Topology.Switch(p[1]) && devs[2] == Topology.Switch(p[2]);
      assert devs[3] == Topology.Host(p[2]);
    }
  }

  /** A path leaves the graph exactly when there is one and the number of leaves is odd. */
  lemma {:induction false} PathsFit(paths: seq<seq<nat>>, k: nat, n: nat)
    requires k <= n && Zigzags(paths, k, n) && Decomposes(paths, Fabric(k, n + (n - k) % 2, 0))
    ensures Controller.AllOnGraph(paths, n) <==> k == 0 || (n - k) % 2 == 0
  {
    if k > 0 && (n - k) % 2 == 1 {
      FabricIs(k, n + 1, 0, Arc(0, n));
      assert Arc(0, n) in multiset(Fabric(k, n + 1, 0));
      TotalMember(paths, Arc(0, n));
      var m :| 0 <= m < |paths| && Arc(0, n) in TrailArcs(paths[m]);
      TrailArcsSymmetric(paths[m]);
      assert n in paths[m];
    }
    hide Decomposes, Fabric;
    if k == 0 || (n - k) % 2 == 0 {
      forall m, i | 0 <= m < |paths| && 0 <= i < |paths[m]| ensures paths[m][i] < n {
        assert Zigzag(paths[m], k, n);
      }
    }
  }

  /** The loops for the links and the hosts. */
  method Topo(k: nat, swSum: nat) returns (topoList: seq<seq<int>>, hostList: seq<int>)
    requires k <= swSum
    ensures |topoList| == swSum && Fabricated(topoList, hostList, k)
  {
    hide Set;
    topoList := seq(swSum, _ => seq(swSum, _ => 0));
    hostList := seq(swSum, _ => 0);
    NoCells(topoList, k, swSum);
    for i := 0 to k
      invariant Cells(topoList, k, swSum, i, k)
    {
      for j := k to swSum
        invariant Cells(topoList, k, swSum, i, j)
      {
        CellsNext(topoList, k, swSum, i, j);
        topoList := topoList[i := topoList[i][j := 1]];
        topoList := topoList[j := topoList[j][i := 1]];
      }
      CellsRow(topoList, k, swSum, i);
    }
    AllCells(topoList, k, swSum);
    for i := k to swSum
      invariant |hostList| == swSum && forall x :: 0 <= x < swSum ==> hostList[x] == if k <= x < i then 1 else 0
    {
      hostList := hostList[i := 1];
    }
  }

  lemma {:induction false} NoCells(L: seq<seq<int>>, k: nat, n: nat)
    requires |L| == n && forall x :: 0 <= x < n ==> |L[x]| == n && forall y :: 0 <= y < n ==> L[x][y] == 0
    ensures Cells(L, k, n, 0, k)
  {
  }

  lemma {:induction false} AllCells(L: seq<seq<int>>, k: nat, n: nat)
    requires k <= n && Cells(L, k, n, k, k)
    ensures forall x, y :: 0 <= x < n && 0 <= y < n ==> L[x][y] == if Across(k, n, x, y) then 1 else 0
  {
  }

  /** `genSpineLeaf`: the paths use every link of the fabric exactly once; an odd number of leaves is taken as one more.
      For 3k switches they are k * k paths from host to host; the paths fit the graph exactly when the number of
      switches leaves no remainder 1, or there is but one switch. */
  method GenSpineLeaf(swSum: nat) returns (topoList: seq<seq<int>>, hostList: seq<int>, pathList: seq<seq<nat>>)
    ensures |topoList| == swSum && Fabricated(topoList, hostList, swSum / 3) && Zigzags(pathList, swSum / 3, swSum)
    ensures Decomposes(pathList, Fabric(swSum / 3, swSum + (swSum - swSum / 3) % 2, 0))
    ensures Controller.AllOnGraph(pathList, swSum) <==> swSum % 3 != 1 || swSum == 1
    ensures swSum % 3 == 0 ==> |pathList| == (swSum / 3) * (swSum / 3)
    ensures swSum % 3 != 1 ==> Decomposes(pathList, Fabric(swSum / 3, swSum, 0))
    ensures swSum % 3 != 1 ==> forall m :: 0 <= m < |pathList| ==> FromHostToHost(topoList, hostList, pathList[m])
  {
    hide Fabric, Decomposes, FromHostToHost, Controller.AllOnGraph, Zigzag;
    var k := swSum / 3;
    topoList, hostList := Topo(k, swSum);
    pathList := Paths(k, swSum);
    PathsFit(pathList, k, swSum);
    Thirds(swSum);
    forall m | 0 <= m < |pathList| && swSum % 3 != 1 ensures FromHostToHost(topoList, hostList, pathList[m]) {
      ZigzagFits(topoList, hostList, k, pathList, m);
    }
  }

  lemma {:induction false} Thirds(n: nat)
    ensures (n - n / 3) % 2 == (if n % 3 == 1 then 1 else 0)
    ensures n % 3 == 0 ==> (n - n / 3 + 1) / 2 == n / 3
    ensures n / 3 == 0 <==> n < 3
  {
    assert n == 3 * (n / 3) + n % 3;
  }

  lemma {:induction false} ZigzagFits(topoList: seq<seq<int>>, hostList: seq<int>, k: nat, paths: seq<seq<nat>>, m: nat)
    requires Fabricated(topoList, hostList, k) && Zigzags(paths, k, |topoList|)
    requires Controller.AllOnGraph(paths, |topoList|) && m < |paths|
    ensures FromHostToHost(topoList, hostList, paths[m])
  {
    hide Fabricated;
    assert Zigzag(paths[m], k, |topoList|);
    FittingPath(paths, |topoList|, m);
    ZigzagRoutes(topoList, hostList, k, paths[m]);
  }

  lemma {:induction false} FittingPath(paths: seq<seq<nat>>, n: nat, m: nat)
    requires Controller.AllOnGraph(paths, n) && m < |paths| && |paths[m]| == 3
    ensures paths[m][2] < n
  {
  }

  /** The loop for the paths. */
  method Paths(k: nat, swSum: nat) returns (pathList: seq<seq<nat>>)
    requires k <= swSum
    ensures Zigzags(pathList, k, swSum) && |pathList| == k * ((swSum - k + 1) / 2)
    ensures Decomposes(pathList, Fabric(k, swSum + (swSum - k) % 2, 0))
  {
    hide Fabric, Decomposes, Trail, TrailArcs;
    pathList := [];
    NoLeaf(k);
    var i := k;
    ghost var m := 0;
    while i < swSum
      invariant k <= i <= swSum + 1 && i == k + 2 * m && Zigzags(pathList, k, swSum) && |pathList| == k * m
      invariant Decomposes(pathList, Fabric(k, i, 0))
      decreases swSum + 1 - i
    {
      for j := 0 to k
        invariant Zigzags(pathList, k, swSum) && |pathList| == k * m + j && Decomposes(pathList, Fabric(k, i, j))
      {
        var path := [i, j, i + 1];
        FabricNext(k, i, j);
        DecomposeMore(pathList, Fabric(k, i, j), path);
        pathList := pathList + [path];
      }
      FabricPair(k, i);
      i, m := i + 2, m + 1;
    }
  }
}

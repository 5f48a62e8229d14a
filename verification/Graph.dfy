/** The planner's `Graph` class: adjacency lists edited in place, their components and degrees. */
module PlannerGraph {
  import opened ArcSets
  import opened Lists
  import opened Adjacency
  import opened FarthestPath

  /** The degree table (entry x - 1 for node x) is right for the nodes of `C`. */
  ghost predicate DegreesWithin(degree: seq<nat>, E: set<Arc>, C: set<Node>) {
    forall x :: x in C ==> 1 <= x <= |degree| && degree[x-1] == Degree(E, x)
  }

  class Graph {
    var keys: seq<Node>        // the dictionary's keys, in insertion order
    var neighbors: Adj
    var visited: seq<Node>     // the keys of `visited`, in insertion order
    var A: seq<Node>           // nodes that still have a link
    var degree: seq<nat>

    /** Keys and adjacency dictionary agree, and the lists describe an undirected simple graph. */
    ghost predicate Valid()
      reads this`keys, this`neighbors
    {
      Distinct(keys) && Elems(keys) == neighbors.Keys && Proper(neighbors)
    }

    /** Nodes are 1, 2, ..., n: `degree[node - 1]` is the degree of `node`. */
    ghost predicate Numbered()
      reads this`keys
    {
      forall i :: 0 <= i < |keys| ==> keys[i] == i + 1
    }

    ghost function Arcs(): set<Arc>
      reads this`neighbors
    {
      ArcsOf(neighbors)
    }

    ghost predicate DegreesOf(E: set<Arc>)
      reads this`keys, this`degree
    {
      |degree| == |keys| && forall x :: 1 <= x <= |keys| ==> degree[x-1] == Degree(E, x)
    }

    constructor ()
      ensures Valid() && keys == [] && Arcs() == {} && visited == [] && A == []
    {
      keys, neighbors, visited, A, degree := [], map[], [], [], [];
    }

    method AddNode(node: Node)
      requires Valid()
      modifies this`keys, this`neighbors
      ensures Valid() && Arcs() == old(Arcs())
      ensures keys == if node in old(keys) then old(keys) else old(keys) + [node]
    {
      if node !in keys {
        assert node !in neighbors;
        keys := keys + [node];
        neighbors := neighbors[node := []];
      }
    }

    method AddNodes(nodelist: seq<Node>)
      requires Valid() && Distinct(nodelist) && keys == []
      modifies this`keys, this`neighbors
      ensures Valid() && Arcs() == old(Arcs()) && keys == nodelist
    {
      for i := 0 to |nodelist|
        invariant Valid() && Arcs() == old(Arcs()) && keys == nodelist[..i]
      {
        AddNode(nodelist[i]);
        assert nodelist[..i+1] == nodelist[..i] + [nodelist[i]];
      }
    }

    /** Adds the link unless it is there already. */
    method AddEdge(u: Node, v: Node)
      requires Valid() && u in keys && v in keys && u != v
      modifies this`neighbors
      ensures Valid() && Arcs() == old(Arcs()) + Link(u, v)
    {
      if v !in neighbors[u] && u !in neighbors[v] {
        ghost var g := neighbors;
        neighbors := neighbors[u := neighbors[u] + [v]];
        neighbors := neighbors[v := neighbors[v] + [u]];
        forall x, y ensures x in neighbors && y in neighbors[x] <==> (x in g && y in g[x]) || Arc(x, y) in Link(u, v) {
        }
        forall a ensures a in ArcsOf(neighbors) <==> a in ArcsOf(g) + Link(u, v) {
        }
      } else {
        assert Arc(u, v) in Arcs() && Arc(v, u) in Arcs();
      }
    }

    method NotNullNode()
      requires Valid()
      modifies this`A
      ensures Elems(A) == Ends(Arcs())
    {
      A := [];
      for i := 0 to |keys|
        invariant forall x :: x in A <==> x in keys[..i] && |neighbors[x]| > 0
      {
        assert keys[..i+1] == keys[..i] + [keys[i]];
        if |neighbors[keys[i]]| > 0 {
          A := A + [keys[i]];
        }
      }
      assert keys[..|keys|] == keys;
      forall x ensures x in A <==> x in Ends(Arcs()) {
        if x in A {
          assert Arc(x, neighbors[x][0]) in Arcs();
        }
      }
    }

    method Degrees()
      requires Valid() && Numbered()
      modifies this`degree
      ensures DegreesOf(Arcs())
    {
      degree := [];
      for i := 0 to |keys|
        invariant |degree| == i && forall x :: 1 <= x <= i ==> degree[x-1] == Degree(Arcs(), x)
      {
        assert keys[i] == i + 1;
        ListLengthIsDegree(neighbors, i + 1);
        degree := degree + [|neighbors[keys[i]]|];
      }
    }

    method SetDiff(nodes: seq<Node>) returns (others: seq<Node>)
      ensures forall x :: x in others <==> x in A && x !in nodes
    {
      others := [];
      for i := 0 to |A|
        invariant forall x :: x in others <==> x in A[..i] && x !in nodes
      {
        assert A[..i+1] == A[..i] + [A[i]];
        if A[i] !in nodes {
          others := others + [A[i]];
        }
      }
      assert A[..|A|] == A;
    }

    /** Every neighbour of `x` is in `s`. */
    static ghost predicate Covered(g: Adj, x: Node, s: set<Node>) {
      x in g && forall y :: y in g[x] ==> y in s
    }

    /** What a depth-first call from `node` achieves when the visited nodes grow from `before` to `after`:
        everything new is reachable from `node` and has all its neighbours visited. */
    static ghost predicate Explored(g: Adj, node: Node, before: set<Node>, after: set<Node>) {
      before <= after <= g.Keys && node in after &&
      forall x :: x in after && x !in before ==> Reachable(ArcsOf(g), node, x) && Covered(g, x, after)
    }

    /** The same in the middle of the loop over the neighbours of `node`. */
    static ghost predicate Exploring(g: Adj, node: Node, before: set<Node>, now: set<Node>) {
      before + {node} <= now <= g.Keys &&
      forall x :: x in now && x !in before ==> Reachable(ArcsOf(g), node, x) && (x == node || Covered(g, x, now))
    }

    static lemma {:induction false} ExploreStep(g: Adj, node: Node, n: Node, before: set<Node>, mid: set<Node>,
                                                after: set<Node>)
      requires node in g && n in g[node]
      requires Exploring(g, node, before, mid) && Explored(g, n, mid, after)
      ensures Exploring(g, node, before, after)
    {
      assert Arc(node, n) in ArcsOf(g);
      forall x | x in after && x !in before
        ensures Reachable(ArcsOf(g), node, x) && (x == node || Covered(g, x, after))
      {
        if x !in mid {
          assert Reachable(ArcsOf(g), n, x);
          forall S: set<Node> | node in S && Closed(ArcsOf(g), S) ensures x in S {
            assert n in S;
          }
        }
      }
    }

    /** The recursive closure `dfs`; `order` is the list it appends to. */
    method Dfs(node: Node, order: seq<Node>) returns (order': seq<Node>)
      requires Valid() && node in neighbors && node !in visited && Distinct(visited)
      requires Elems(visited) <= neighbors.Keys
      modifies this`visited
      ensures old(visited) + [node] <= visited && Distinct(visited)
      ensures Explored(neighbors, node, Elems(old(visited)), Elems(visited))
      ensures order' == order + visited[|old(visited)|..]
      decreases neighbors.Keys - Elems(visited)
    {
      ghost var before := visited;
      visited := visited + [node];
      order' := order + [node];
      assert Elems(visited) == Elems(before) + {node};
      var next := neighbors[node];
      for i := 0 to |next|
        invariant before + [node] <= visited && Distinct(visited)
        invariant Exploring(neighbors, node, Elems(before), Elems(visited))
        invariant forall y :: y in next[..i] ==> y in Elems(visited)
        invariant order' == order + visited[|before|..]
      {
        assert next[..i+1] == next[..i] + [next[i]];
        if next[i] !in visited {
          ghost var mid := visited;
          order' := Dfs(next[i], order');
          ExploreStep(neighbors, node, next[i], Elems(before), Elems(mid), Elems(visited));
          assert visited[|before|..] == mid[|before|..] + visited[|mid|..];
        }
      }
      assert next[..|next|] == next;
    }

    static lemma {:induction false} ClosedCovers(g: Adj, S: set<Node>, x: Node)
      requires x in g && x in S && Closed(ArcsOf(g), S)
      ensures Covered(g, x, S)
    {
      forall y | y in g[x] ensures y in S {
        assert Arc(x, y) in ArcsOf(g);
      }
    }

    static lemma {:induction false} NotBeside(g: Adj, visited: seq<Node>, x: Node, y: Node)
      requires Closed(ArcsOf(g), Elems(visited)) && Elems(visited) <= g.Keys && x !in visited && y in visited
      ensures y in g && x !in g[y]
    {
      assert y in Elems(visited);
      ClosedCovers(g, Elems(visited), y);
      assert x !in Elems(visited);
    }

    /** The second half of `depth_first_search` looks for nodes that the recursion missed although they
        have a visited neighbour; in an undirected graph there are none. */
    method Stragglers()
      requires Valid() && Closed(Arcs(), Elems(visited)) && Elems(visited) <= neighbors.Keys
      ensures forall i, j :: 0 <= i < |keys| && 0 <= j < |visited| && keys[i] !in visited ==>
                visited[j] in neighbors && keys[i] !in neighbors[visited[j]]
    {
      forall i, j | 0 <= i < |keys| && 0 <= j < |visited| && keys[i] !in visited
        ensures visited[j] in neighbors && keys[i] !in neighbors[visited[j]]
      {
        NotBeside(neighbors, visited, keys[i], visited[j]);
      }
      for i := 0 to |keys| {
        var node := keys[i];
        if node !in visited {
          for j := 0 to |visited| {
            NotBeside(neighbors, visited, node, visited[j]);
            if node in neighbors[visited[j]] {
              assert false;  // the second `dfs(node)`: never called
            }
          }
        }
      }
    }

    /** `depth_first_search`: the component of `root`, in visiting order. */
    method DepthFirstSearch(root: Node) returns (order: seq<Node>)
      requires Valid() && visited == [] && root in Ends(Arcs()) && root != 0
      modifies this`visited
      ensures visited == [] && Component(Arcs(), order) && root in order
    {
      order := [];
      if root != 0 {
        order := Dfs(root, order);
      }
      assert order == visited && Elems<Node>([]) == {};
      ExploredIsComponent(neighbors, root, order);
      Stragglers();
      visited := [];
    }

    static lemma {:induction false} ExploredIsClosed(g: Adj, root: Node, order: seq<Node>)
      requires Proper(g) && Explored(g, root, {}, Elems(order))
      ensures Closed(ArcsOf(g), Elems(order)) && Closed(ArcsOf(g), Ends(ArcsOf(g)))
    {
      var E := ArcsOf(g);
      forall a | a in E && a.u in Elems(order) ensures a.v in Elems(order) {
        assert Covered(g, a.u, Elems(order));
      }
      forall a | a in E && a.u in Ends(E) ensures a.v in Ends(E) {
        assert Arc(a.v, a.u) in E;
      }
    }

    static lemma {:induction false} ExploredIsComponent(g: Adj, root: Node, order: seq<Node>)
      requires Proper(g) && root in Ends(ArcsOf(g)) && Distinct(order)
      requires |order| > 0 && order[0] == root && Explored(g, root, {}, Elems(order))
      ensures Component(ArcsOf(g), order)
    {
      var E := ArcsOf(g);
      ExploredIsClosed(g, root, order);
      hide Covered;
      forall x | x in order ensures Reachable(E, root, x) {
        assert x in Elems(order);
      }
      forall x | x in Elems(order) ensures x in Ends(E) {
        assert Reachable(E, root, x);
      }
    }

    /** Components found so far. */
    static ghost predicate Found(E: set<Arc>, subgraph: seq<seq<Node>>) {
      (forall i :: 0 <= i < |subgraph| ==> Component(E, subgraph[i])) &&
      (forall i, j :: 0 <= i < j < |subgraph| ==> Elems(subgraph[i]) !! Elems(subgraph[j]))
    }

    static lemma {:induction false} FoundMore(E: set<Arc>, subgraph: seq<seq<Node>>, order: seq<Node>, root: Node)
      requires Simple(E) && Found(E, subgraph)
      requires Component(E, order) && root in order && root !in Members(subgraph)
      ensures Found(E, subgraph + [order])
      ensures Members(subgraph + [order]) == Members(subgraph) + Elems(order)
    {
      hide Reachable;
      assert (subgraph + [order])[..|subgraph|] == subgraph;
      forall i | 0 <= i < |subgraph| ensures Elems(subgraph[i]) !! Elems(order) {
        MemberIndex(subgraph, root);
        ComponentAvoids(E, order, root, Elems(subgraph[i]));
      }
    }

    static lemma {:induction false} FoundLinked(E: set<Arc>, subgraph: seq<seq<Node>>)
      requires Found(E, subgraph)
      ensures Members(subgraph) <= Ends(E)
    {
      if subgraph != [] {
        FoundLinked(E, subgraph[..|subgraph|-1]);
        assert Component(E, subgraph[|subgraph|-1]);
      }
    }

    /** `F1`: all connected components of the linked nodes. */
    method F1() returns (subgraph: seq<seq<Node>>)
      requires Valid() && visited == [] && Elems(A) == Ends(Arcs()) && 0 !in keys
      modifies this`visited
      ensures visited == [] && Components(Arcs(), subgraph)
    {
      ghost var E := Arcs();
      ProperIsSimple(neighbors);
      subgraph := [];
      var seen: seq<Node> := [];
      var temp := SetDiff([]);
      while temp != []
        invariant visited == [] && Found(E, subgraph) && Elems(seen) == Members(subgraph)
        invariant forall x :: x in temp <==> x in A && x !in seen
        decreases Elems(A) - Elems(seen)
      {
        var root := temp[0];
        assert root in temp && root in Elems(A) && root !in Elems(seen);
        RootInGraph(root);
        var order := DepthFirstSearch(root);
        FoundMore(E, subgraph, order, root);
        subgraph := subgraph + [order];
        Progress(A, seen, order, root);
        seen := seen + order;
        temp := SetDiff(seen);
      }
      FoundLinked(E, subgraph);
      Exhausted(A, seen);
    }

    static lemma {:induction false} Progress(A: seq<Node>, seen: seq<Node>, order: seq<Node>, root: Node)
      requires root in A && root !in seen && root in order
      ensures Elems(seen + order) == Elems(seen) + Elems(order)
      ensures Elems(A) - Elems(seen + order) < Elems(A) - Elems(seen)
    {
      assert root in Elems(A) - Elems(seen) && root !in Elems(A) - Elems(seen + order);
    }

    static lemma {:induction false} Exhausted(A: seq<Node>, seen: seq<Node>)
      requires forall x :: x in A ==> x in seen
      ensures Elems(A) <= Elems(seen)
    {
      forall x | x in Elems(A) ensures x in Elems(seen) {
        assert x in A;
      }
    }

    lemma {:induction false} RootInGraph(x: Node)
      requires Valid() && x in Ends(Arcs()) && 0 !in keys
      ensures x in neighbors.Keys && x != 0
    {
      EndsInGraph(neighbors, x);
      assert x in Elems(keys);
    }

    static lemma {:induction false} EndsInGraph(g: Adj, x: Node)
      requires Proper(g) && x in Ends(ArcsOf(g))
      ensures x in g.Keys
    {
    }

    /** A component that starts outside a closed set stays outside. */
    static lemma {:induction false} ComponentAvoids(E: set<Arc>, order: seq<Node>, root: Node, S: set<Node>)
      requires Simple(E) && Component(E, order) && root in order && root !in S && Closed(E, S)
      ensures Elems(order) !! S
    {
      forall x | x in order ensures x !in S {
        ReachableBack(E, order[0], x);
        assert Reachable(E, order[0], root);
        assert order[0] !in S;
      }
    }

    /** `judge`: the number (from 1) of the first component without an odd node, or 0. */
    method Judge(subgraph: seq<seq<Node>>) returns (t: nat)
      requires forall i :: 0 <= i < |subgraph| ==> DegreesWithin(degree, Arcs(), Elems(subgraph[i]))
      ensures t <= |subgraph|
      ensures t > 0 ==> Odd(Arcs(), Elems(subgraph[t-1])) == {}
      ensures forall i :: 0 <= i < (if t > 0 then t - 1 else |subgraph|) ==> Odd(Arcs(), Elems(subgraph[i])) != {}
    {
      for i := 0 to |subgraph|
        invariant forall k :: 0 <= k < i ==> Odd(Arcs(), Elems(subgraph[k])) != {}
      {
        var found := false;
        var temp := subgraph[i];
        for j := 0 to |temp|
          invariant !found
          invariant forall x :: x in temp[..j] ==> Degree(Arcs(), x) % 2 == 0
        {
          assert temp[j] in Elems(subgraph[i]);
          if degree[temp[j] - 1] % 2 != 0 {
            found := true;
            assert temp[j] in Odd(Arcs(), Elems(temp));
            break;
          }
          assert temp[..j+1] == temp[..j] + [temp[j]];
        }
        if !found {
          assert temp[..|temp|] == temp;
          return i + 1;
        }
      }
      return 0;
    }

    /** `F2`: the number of odd nodes of a component. */
    method F2(gt: seq<Node>) returns (num: nat)
      requires Distinct(gt) && DegreesWithin(degree, Arcs(), Elems(gt))
      ensures num == |Odd(Arcs(), Elems(gt))|
    {
      hide Degree, Odd;
      num := 0;
      NoOdd(Arcs(), gt);
      for i := 0 to |gt|
        invariant num == |Odd(Arcs(), Elems(gt[..i]))|
      {
        assert gt[i] in Elems(gt);
        OddNext(Arcs(), gt, i);
        if degree[gt[i] - 1] % 2 != 0 {
          num := num + 1;
        }
      }
      assert gt[..|gt|] == gt;
    }

    static lemma {:induction false} NoOdd(E: set<Arc>, gt: seq<Node>)
      ensures Odd(E, Elems(gt[..0])) == {}
    {
    }

    static lemma {:induction false} OddNext(E: set<Arc>, gt: seq<Node>, i: nat)
      requires Distinct(gt) && i < |gt|
      ensures |Odd(E, Elems(gt[..i+1]))| == |Odd(E, Elems(gt[..i]))| + Degree(E, gt[i]) % 2
    {
      hide Degree;
      PrefixElems(gt, i);
      var (now, next) := (Odd(E, Elems(gt[..i])), Odd(E, Elems(gt[..i+1])));
      assert gt[i] !in now;
      assert next == if Degree(E, gt[i]) % 2 == 1 then now + {gt[i]} else now;
    }

    /** `my_path`, of the balanced planner or of its twin that starts from a random odd node. */
    method MyPath(subgraph: seq<Node>, balanced: bool) returns (p: seq<Node>)
      requires Valid() && Component(Arcs(), subgraph) && DegreesWithin(degree, Arcs(), Elems(subgraph))
      requires |Odd(Arcs(), Elems(subgraph))| >= 2
      ensures OddPath(Arcs(), Odd(Arcs(), Elems(subgraph)), p)
      ensures balanced ==> forall x, y :: x in Odd(Arcs(), Elems(subgraph)) && y in Odd(Arcs(), Elems(subgraph))
                                      ==> Near(Arcs(), x, y, |p|)
      ensures !balanced ==> forall y :: y in Odd(Arcs(), Elems(subgraph)) ==> Near(Arcs(), p[|p|-1], y, |p|)
    {
      var odd := OddNodes(subgraph);
      DistinctCard(odd);
      forall x | x in subgraph ensures x in neighbors {
        assert x in Elems(subgraph);
        EndsInGraph(neighbors, x);
      }
      forall x | x in odd ensures x in subgraph {
        assert x in Elems(odd);
      }
      if balanced {
        p := Balanced(neighbors, subgraph, odd);
      } else {
        p := Unbalanced(neighbors, subgraph, odd);
      }
    }

    method OddNodes(subgraph: seq<Node>) returns (odd: seq<Node>)
      requires Distinct(subgraph) && DegreesWithin(degree, Arcs(), Elems(subgraph))
      ensures Distinct(odd) && Elems(odd) == Odd(Arcs(), Elems(subgraph))
    {
      odd := [];
      for i := 0 to |subgraph|
        invariant Distinct(odd) && forall x :: x in odd <==> x in subgraph[..i] && Degree(Arcs(), x) % 2 == 1
      {
        assert subgraph[i] in Elems(subgraph);
        assert subgraph[..i+1] == subgraph[..i] + [subgraph[i]] && subgraph[i] !in subgraph[..i];
        if degree[subgraph[i] - 1] % 2 != 0 {
          odd := odd + [subgraph[i]];
        }
      }
      assert subgraph[..|subgraph|] == subgraph;
      forall x ensures x in Elems(odd) <==> x in Odd(Arcs(), Elems(subgraph)) {
        assert x in subgraph <==> x in Elems(subgraph);
      }
    }

    /** `F3`: takes the links of a trail out of the graph. */
    method F3(path: seq<Node>)
      requires Valid() && Trail(path) && TrailArcs(path) <= Arcs()
      modifies this`neighbors, this`A
      ensures Valid() && Arcs() == old(Arcs()) - TrailArcs(path) && Elems(A) == Ends(Arcs())
    {
      neighbors := RemoveTrail(neighbors, path);
      NotNullNode();
    }
  }
}

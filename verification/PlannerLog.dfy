/** What `find_path` does turn by turn: which component is taken, which path is walked in it, and where it is queued. */
module PlannerLog {
  import opened ArcSets
  import opened Lists
  import opened Adjacency
  import opened FarthestPath
  import opened Splicing

  /** A turn of the main loop: a circuit over component number `t`, the first one without odd nodes, or a pass over all
      components with one path from each. */
  datatype Turn = Circuit(comps: seq<seq<Node>>, t: nat, path: seq<Node>) |
                  Pass(comps: seq<seq<Node>>, paths: seq<seq<Node>>)

  /** The links and the queue before a turn, and the turn. */
  datatype Entry = Entry(E: set<Arc>, Q: seq<seq<Node>>, turn: Turn)

  /** A path to queue from a component with odd nodes. */
  ghost predicate PeelOff(E: set<Arc>, comp: seq<Node>, p: seq<Node>) {
    Trail(p) && |p| > 1 && TrailArcs(p) <= ArcsWithin(E, Elems(comp)) &&
    p[0] in Odd(E, Elems(comp)) && p[|p|-1] in Odd(E, Elems(comp)) && p[0] != p[|p|-1]
  }

  /** Which path that is: all links of a component with two odd nodes; otherwise a shortest path between odd nodes, when
      `balanced` one that no two odd nodes are farther apart than, otherwise one that no odd node is farther from its
      last node than. */
  ghost predicate PeelRight(E: set<Arc>, comp: seq<Node>, balanced: bool, p: seq<Node>) {
    PeelOff(E, comp, p) &&
    (|Odd(E, Elems(comp))| == 2 ==> TrailArcs(p) == ArcsWithin(E, Elems(comp))) &&
    (|Odd(E, Elems(comp))| > 2 ==>
      OddPath(E, Odd(E, Elems(comp)), p) && FarthestOdd(E, Odd(E, Elems(comp)), balanced, p))
  }

  ghost predicate FarthestOdd(E: set<Arc>, odd: set<Node>, balanced: bool, p: seq<Node>) {
    |p| > 0 &&
    (balanced ==> forall x, y :: x in odd && y in odd ==> Near(E, x, y, |p|)) &&
    (!balanced ==> forall y :: y in odd ==> Near(E, p[|p|-1], y, |p|))
  }

  /** The links left when the first `k` paths are taken out. */
  ghost function LeftAfter(E: set<Arc>, paths: seq<seq<Node>>, k: nat): set<Arc>
    requires k <= |paths|
  {
    if k == 0 then E else LeftAfter(E, paths, k - 1) - TrailArcs(paths[k-1])
  }

  /** The paths of a pass over the first components, each right for the links then left. */
  ghost predicate PassRight(E: set<Arc>, comps: seq<seq<Node>>, paths: seq<seq<Node>>, balanced: bool) {
    |paths| <= |comps| &&
    forall k :: 0 <= k < |paths| ==> PeelRight(LeftAfter(E, paths, k), comps[k], balanced, paths[k])
  }

  lemma {:induction false} LeftEarlier(E: set<Arc>, paths: seq<seq<Node>>, p: seq<Node>, k: nat)
    requires k <= |paths|
    ensures LeftAfter(E, paths + [p], k) == LeftAfter(E, paths, k)
  {
    if k > 0 {
      LeftEarlier(E, paths, p, k - 1);
    }
  }

  lemma {:induction false} PassNone(E: set<Arc>, comps: seq<seq<Node>>, balanced: bool)
    ensures PassRight(E, comps, [], balanced) && LeftAfter(E, [], 0) == E
  {
  }

  lemma {:induction false} PassNext(E: set<Arc>, comps: seq<seq<Node>>, paths: seq<seq<Node>>, balanced: bool,
                                    p: seq<Node>)
    requires PassRight(E, comps, paths, balanced) && |paths| < |comps|
    requires PeelRight(LeftAfter(E, paths, |paths|), comps[|paths|], balanced, p)
    ensures PassRight(E, comps, paths + [p], balanced)
    ensures LeftAfter(E, paths + [p], |paths| + 1) == LeftAfter(E, paths, |paths|) - TrailArcs(p)
  {
    hide PeelRight, TrailArcs;
    LeftEarlier(E, paths, p, |paths|);
    forall k | 0 <= k <= |paths| ensures PeelRight(LeftAfter(E, paths + [p], k), comps[k], balanced, (paths + [p])[k]) {
      LeftEarlier(E, paths, p, k);
    }
  }

  /** A circuit over all links of a component. */
  ghost predicate CircuitRight(E: set<Arc>, comp: seq<Node>, p: seq<Node>) {
    Trail(p) && |p| > 1 && TrailArcs(p) == ArcsWithin(E, Elems(comp)) && p[0] == p[|p|-1]
  }

  /** No earlier path of the queue has node `x`, and no earlier node of the component is on any path. */
  ghost predicate FirstShared(Q: seq<seq<Node>>, comp: seq<Node>, path: seq<Node>, x: Node) {
    path in Q && x in path && x in comp && (forall k :: 0 <= k < IndexOf(Q, path) ==> x !in Q[k]) &&
    forall k, y :: 0 <= k < |Q| && y in comp[..IndexOf(comp, x)] ==> y !in Q[k]
  }

  ghost predicate TurnRight(E: set<Arc>, turn: Turn, balanced: bool) {
    Components(E, turn.comps) &&
    match turn
    case Circuit(comps, t, path) =>
      t < |comps| && Odd(E, Elems(comps[t])) == {} && CircuitRight(E, comps[t], path) &&
      forall k :: 0 <= k < t ==> Odd(E, Elems(comps[k])) != {}
    case Pass(comps, paths) =>
      |paths| == |comps| && PassRight(E, comps, paths, balanced) &&
      forall k :: 0 <= k < |comps| ==> Odd(E, Elems(comps[k])) != {}
  }

  ghost function LinksNext(E: set<Arc>, turn: Turn): set<Arc> {
    match turn
    case Circuit(_, _, path) => E - TrailArcs(path)
    case Pass(_, paths) => LeftAfter(E, paths, |paths|)
  }

  /** A circuit is the first path, or spliced into the first queued path that meets its component, from the node they
      share; the paths of a pass are queued in the order of the components. */
  ghost predicate QueueNext(Q: seq<seq<Node>>, turn: Turn, Q': seq<seq<Node>>) {
    match turn
    case Circuit(comps, t, path) =>
      t < |comps| && path != [] && (Q == [] ==> Q' == [path]) && (Q != [] ==> SplicedIn(Q, comps[t], path, Q'))
    case Pass(_, paths) => Q' == Q + paths
  }

  ghost predicate SplicedIn(Q: seq<seq<Node>>, comp: seq<Node>, path: seq<Node>, Q': seq<seq<Node>>)
    requires path != []
  {
    exists p1 :: FirstShared(Q, comp, p1, path[0]) && Q' == RemoveFirst(Q, p1) + [Splice(p1, path)]
  }

  /** The turns from the whole network and an empty queue to the links `E` and the queue `Q`. */
  ghost predicate Logged(E0: set<Arc>, log: seq<Entry>, balanced: bool, E: set<Arc>, Q: seq<seq<Node>>)
    decreases |log|
  {
    if log == [] then
      E == E0 && Q == []
    else
      var (front, last) := (log[..|log|-1], log[|log|-1]);
      Logged(E0, front, balanced, last.E, last.Q) && TurnRight(last.E, last.turn, balanced) &&
      E == LinksNext(last.E, last.turn) && QueueNext(last.Q, last.turn, Q)
  }

  lemma {:induction false} LogNothing(E0: set<Arc>, balanced: bool)
    ensures Logged(E0, [], balanced, E0, [])
  {
  }

  lemma {:induction false} LogNext(E0: set<Arc>, log: seq<Entry>, balanced: bool, E: set<Arc>, Q: seq<seq<Node>>,
                                   turn: Turn, Q': seq<seq<Node>>)
    requires Logged(E0, log, balanced, E, Q) && TurnRight(E, turn, balanced) && QueueNext(Q, turn, Q')
    ensures Logged(E0, log + [Entry(E, Q, turn)], balanced, LinksNext(E, turn), Q')
  {
    hide TurnRight, QueueNext, LinksNext;
    assert (log + [Entry(E, Q, turn)])[..|log|] == log;
  }
}

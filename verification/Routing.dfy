/** Shortest-path multi-next-hop routing: `CalculateRoute`, `CalculateRoutes`, `SetRoutingEntries`, `TakeDownLink`. */
module Routing {
  import opened Lists
  import opened RoutingGraph
  import opened RoutingTables

  /** `nextHop[x][host]`, empty when there is no entry. */
  function HopsAt(nextHop: map<Id, map<Id, seq<Id>>>, x: Id, host: Id): seq<Id> {
    if x in nextHop && host in nextHop[x] then nextHop[x][host] else []
  }

  /** `nextHop[x][host].push_back(now)`. */
  function PushHop(nextHop: map<Id, map<Id, seq<Id>>>, x: Id, host: Id, now: Id): (r: map<Id, map<Id, seq<Id>>>)
    ensures forall y, h :: HopsAt(r, y, h) == HopsAt(nextHop, y, h) + if y == x && h == host then [now] else []
  {
    var row: map<Id, seq<Id>> := if x in nextHop then nextHop[x] else map[];
    nextHop[x := row[host := HopsAt(nextHop, x, host) + [now]]]
  }

  // ---- the search ----

  /** The queue and the maps of the breadth-first search; `metrics` stands for `delay`, `txDelay` and `bw`. */
  datatype Search = Search(q: seq<Id>, dis: map<Id, nat>, metrics: map<Id, Metrics>)

  ghost predicate PathRight(G: Net, host: Id, payload: nat, s: Search, paths: map<Id, seq<Id>>, x: Id)
    requires WellFormed(G)
  {
    x in s.dis && x in s.metrics && x in paths && RelayedTo(G, host, paths[x], x) && |paths[x]| == s.dis[x] + 1 &&
    Along(G, host, paths[x], payload) == s.metrics[x]
  }

  /** `q` holds the host and the switches reached, nearest first. */
  ghost predicate QueueRight(G: Net, host: Id, s: Search) {
    |s.q| > 0 && s.q[0] == host && Distinct(s.q) && host in s.dis && s.dis[host] == 0 &&
    (forall j :: 0 <= j < |s.q| ==> s.q[j] in s.dis && s.q[j] < |G.nbr| && (j > 0 ==> IsSwitch(G, s.q[j]))) &&
    (forall j, k :: 0 <= j < k < |s.q| ==> s.dis[s.q[j]] <= s.dis[s.q[k]]) &&
    forall x :: x in s.dis ==> x < |G.nbr| && (x == host || IsSwitch(G, x) ==> x in s.q)
  }

  /** Every reached node has a relayed walk of its distance with its metrics. */
  ghost predicate Reached(G: Net, host: Id, payload: nat, s: Search, paths: map<Id, seq<Id>>)
    requires WellFormed(G)
  {
    s.metrics.Keys == s.dis.Keys && forall x :: x in s.dis ==> PathRight(G, host, payload, s, paths, x)
  }

  /** Nothing is more than one hop farther than the node being expanded. */
  ghost predicate Level(s: Search, i: nat) {
    i < |s.q| && s.q[i] in s.dis ==> forall x :: x in s.dis ==> s.dis[x] <= s.dis[s.q[i]] + 1
  }

  /** The neighbours of the first `i` queued nodes are all reached, one hop farther at most. */
  ghost predicate Expanded(G: Net, s: Search, i: nat) {
    forall w, y :: w in s.q[..if i <= |s.q| then i else |s.q|] && w in s.dis && Up(G, w, y) ==>
      y in s.dis && s.dis[y] <= s.dis[w] + 1
  }

  /** When all queued nodes are expanded the distances are the shortest ones. */
  lemma {:induction false} SearchComplete(G: Net, host: Id, s: Search, p: seq<Id>)
    requires QueueRight(G, host, s) && Expanded(G, s, |s.q|) && Relayed(G, host, p)
    ensures p[|p|-1] in s.dis && s.dis[p[|p|-1]] <= |p| - 1
    decreases |p|
  {
    if |p| > 1 {
      FrontRelayed(G, host, p);
      SearchComplete(G, host, s, p[..|p|-1]);
      assert s.q[..|s.q|] == s.q;
      assert p[|p|-2] in s.q;
    }
  }

  lemma {:induction false} SearchDistances(G: Net, host: Id, payload: nat, s: Search, paths: map<Id, seq<Id>>)
    requires WellFormed(G) && QueueRight(G, host, s) && Expanded(G, s, |s.q|) && Reached(G, host, payload, s, paths)
    ensures Distances(G, host, s.dis)
  {
    forall p, x | RelayedTo(G, host, p, x) ensures x in s.dis && s.dis[x] <= |p| - 1 {
      SearchComplete(G, host, s, p);
    }
    forall x | x in s.dis ensures exists p :: RelayedTo(G, host, p, x) && |p| == s.dis[x] + 1 {
      assert PathRight(G, host, payload, s, paths, x);
    }
  }

  /** The node `w`, on its way through the queue, has already been followed to `x`. */
  ghost predicate Followed(G: Net, s: Search, i: nat, e: nat, w: Id, x: Id) {
    i <= |s.q| &&
    (w in s.q[..i] ||
     (i < |s.q| && w == s.q[i] && w < |G.nbr| && exists k :: 0 <= k < e && k < |G.nbr[w]| && G.nbr[w][k].peer == x))
  }

  /** The next hops of `x` found so far. */
  ghost predicate HopsSoFar(G: Net, host: Id, s: Search, i: nat, e: nat, x: Id, hops: seq<Id>) {
    Distinct(hops) && forall w :: w in hops <==> Closer(G, host, s.dis, w, x) && Followed(G, s, i, e, w, x)
  }

  // ---- expanding one interface ----

  /** In the middle of the interfaces of the node at position `i` of the queue. */
  ghost predicate Expanding(G: Net, host: Id, payload: nat, s: Search, paths: map<Id, seq<Id>>, i: nat, e: nat) {
    WellFormed(G) && QueueRight(G, host, s) && Reached(G, host, payload, s, paths) && Level(s, i) &&
    Expanded(G, s, i) && i < |s.q| && e <= |G.nbr[s.q[i]]| && Tried(G, s, s.q[i], e)
  }

  /** The first `e` up interfaces of `now` lead to reached nodes. */
  ghost predicate Tried(G: Net, s: Search, now: Id, e: nat) {
    now < |G.nbr| && now in s.dis &&
    forall k :: 0 <= k < e && k < |G.nbr[now]| && G.nbr[now][k].up ==>
      G.nbr[now][k].peer in s.dis && s.dis[G.nbr[now][k].peer] <= s.dis[now] + 1
  }

  /** `next` is reached for the first time, over `link` from `now`. */
  function Discover(s: Search, now: Id, link: Interface, isSwitch: bool, payload: nat): Search
    requires now in s.dis && now in s.metrics && link.bw > 0
  {
    Search(if isSwitch then s.q + [link.peer] else s.q, s.dis[link.peer := s.dis[now] + 1],
           s.metrics[link.peer := AddLink(s.metrics[now], link, payload)])
  }

  lemma {:induction false} DiscoverQueue(G: Net, host: Id, s: Search, i: nat, link: Interface, payload: nat)
    requires QueueRight(G, host, s) && Level(s, i) && i < |s.q| && s.q[i] in s.metrics
    requires link.peer !in s.dis && link.peer < |G.nbr| && link.bw > 0
    ensures QueueRight(G, host, Discover(s, s.q[i], link, IsSwitch(G, link.peer), payload))
    ensures Level(Discover(s, s.q[i], link, IsSwitch(G, link.peer), payload), i)
  {
    var t := Discover(s, s.q[i], link, IsSwitch(G, link.peer), payload);
    hide IsSwitch;
    forall j, k | 0 <= j < k < |t.q| ensures t.q[j] != t.q[k] && t.dis[t.q[j]] <= t.dis[t.q[k]] {
      assert s.q[j] in s.dis;
      assert k < |s.q| ==> s.q[k] in s.dis && t.q[k] == s.q[k];
    }
  }

  lemma {:induction false} DiscoverReached(G: Net, host: Id, payload: nat, s: Search, paths: map<Id, seq<Id>>, i: nat,
                                           e: nat)
    requires Expanding(G, host, payload, s, paths, i, e) && e < |G.nbr[s.q[i]]| && G.nbr[s.q[i]][e].up
    requires G.nbr[s.q[i]][e].peer !in s.dis
    ensures var now, link := s.q[i], G.nbr[s.q[i]][e];
            now in paths && Reached(G, host, payload, Discover(s, now, link, IsSwitch(G, link.peer), payload),
                                    paths[link.peer := paths[now] + [link.peer]])
  {
    var now, link := s.q[i], G.nbr[s.q[i]][e];
    assert PathRight(G, host, payload, s, paths, now);
    LinkIs(G, now, e);
    NewPath(G, host, payload, s, paths, now, link);
  }

  lemma {:induction false} NewPath(G: Net, host: Id, payload: nat, s: Search, paths: map<Id, seq<Id>>, now: Id,
                                   link: Interface)
    requires WellFormed(G) && Reached(G, host, payload, s, paths) && now in s.dis && link.peer !in s.dis && link.bw > 0
    requires Up(G, now, link.peer) && LinkOf(G, now, link.peer) == link && (s.dis[now] == 0 || IsSwitch(G, now))
    ensures now in s.metrics && now in paths
    ensures Reached(G, host, payload, Discover(s, now, link, IsSwitch(G, link.peer), payload),
                    paths[link.peer := paths[now] + [link.peer]])
  {
    hide WellFormed, Along, Up, IsSwitch, LinkOf;
    assert PathRight(G, host, payload, s, paths, now);
    var t, routes := Discover(s, now, link, IsSwitch(G, link.peer), payload),
      paths[link.peer := paths[now] + [link.peer]];
    AlongExtend(G, host, paths[now], now, link.peer, payload);
    hide Relayed;
    forall x | x in t.dis ensures PathRight(G, host, payload, t, routes, x) {
      if x != link.peer {
        assert PathRight(G, host, payload, s, paths, x);
      }
    }
  }

  lemma {:induction false} DiscoverExpanded(G: Net, host: Id, s: Search, i: nat, e: nat, link: Interface, payload: nat)
    requires WellFormed(G) && QueueRight(G, host, s) && i < |s.q| && Expanded(G, s, i) && e <= |G.nbr[s.q[i]]| &&
             Tried(G, s, s.q[i], e)
    requires link.peer !in s.dis && link.bw > 0 && s.q[i] in s.metrics
    ensures var t := Discover(s, s.q[i], link, IsSwitch(G, link.peer), payload);
            Expanded(G, t, i) && Tried(G, t, s.q[i], e)
  {
    var t := Discover(s, s.q[i], link, IsSwitch(G, link.peer), payload);
    assert t.q[..i] == s.q[..i];
    forall w, y | w in t.q[..i] && w in t.dis && Up(G, w, y) ensures y in t.dis && t.dis[y] <= t.dis[w] + 1 {
      var j :| 0 <= j < i && s.q[j] == w;
      assert w in s.dis;
    }
  }

  /** A new node has no next hop yet, and nothing else changes for the others. */
  lemma {:induction false} DiscoverHops(G: Net, host: Id, s: Search, i: nat, e: nat, link: Interface, payload: nat,
                                        x: Id, hops: seq<Id>)
    requires WellFormed(G) && QueueRight(G, host, s) && i < |s.q| && Expanded(G, s, i) && e < |G.nbr[s.q[i]]|
    requires link == G.nbr[s.q[i]][e] && link.peer !in s.dis && s.q[i] in s.metrics
    requires HopsSoFar(G, host, s, i, e, x, hops)
    ensures HopsSoFar(G, host, Discover(s, s.q[i], link, IsSwitch(G, link.peer), payload), i, e, x, hops)
  {
    var t := Discover(s, s.q[i], link, IsSwitch(G, link.peer), payload);
    assert t.q[..i] == s.q[..i] && t.q[i] == s.q[i];
    forall w ensures Closer(G, host, t.dis, w, x) && Followed(G, t, i, e, w, x)
                <==> Closer(G, host, s.dis, w, x) && Followed(G, s, i, e, w, x)
    {
      assert Followed(G, t, i, e, w, x) <==> Followed(G, s, i, e, w, x);
      if Followed(G, s, i, e, w, x) {
        FollowedReached(G, host, s, i, e, w, x);
        assert Up(G, x, w) ==> Up(G, w, x);
      }
    }
  }

  /** A followed node is in the queue; and when it is already expanded its neighbours are reached. */
  lemma {:induction false} FollowedReached(G: Net, host: Id, s: Search, i: nat, e: nat, w: Id, x: Id)
    requires WellFormed(G) && QueueRight(G, host, s) && i < |s.q| && Expanded(G, s, i) && e < |G.nbr[s.q[i]]|
    requires Followed(G, s, i, e, w, x)
    ensures w in s.q && w in s.dis
    ensures Up(G, w, x) && x == G.nbr[s.q[i]][e].peer ==> x in s.dis
  {
    if w in s.q[..i] {
      var j :| 0 <= j < i && s.q[j] == w;
    }
  }

  /** Having tried one more interface: `now` is a next hop of its peer just when it is one hop closer. */
  lemma {:induction false} TryHops(G: Net, host: Id, s: Search, i: nat, e: nat, x: Id, hops: seq<Id>, hops': seq<Id>)
    requires WellFormed(G) && QueueRight(G, host, s) && i < |s.q| && e < |G.nbr[s.q[i]]|
    requires HopsSoFar(G, host, s, i, e, x, hops)
    requires var now, link := s.q[i], G.nbr[s.q[i]][e];
             hops' == hops + if link.up && link.peer == x && x in s.dis && s.dis[now] + 1 == s.dis[x] then [now] else []
    ensures HopsSoFar(G, host, s, i, e + 1, x, hops')
  {
    var now, link := s.q[i], G.nbr[s.q[i]][e];
    forall w ensures w in hops' <==> Closer(G, host, s.dis, w, x) && Followed(G, s, i, e + 1, w, x) {
      FollowedNext(G, s, i, e, w, x);
      if w == now && x == link.peer {
        UpAt(G, now, e);
      }
    }
    if now in hops {
      NotYet(G, host, s, i, e, x);
    }
  }

  lemma {:induction false} FollowedNext(G: Net, s: Search, i: nat, e: nat, w: Id, x: Id)
    requires i < |s.q| && s.q[i] < |G.nbr| && e < |G.nbr[s.q[i]]|
    ensures Followed(G, s, i, e + 1, w, x) <==>
            Followed(G, s, i, e, w, x) || (w == s.q[i] && G.nbr[s.q[i]][e].peer == x)
  {
  }

  /** An interface is the only one to its peer. */
  lemma {:induction false} UpAt(G: Net, u: Id, e: nat)
    requires WellFormed(G) && u < |G.nbr| && e < |G.nbr[u]|
    ensures var x := G.nbr[u][e].peer; (Up(G, u, x) <==> G.nbr[u][e].up) && (Up(G, x, u) <==> G.nbr[u][e].up)
  {
  }

  lemma {:induction false} NotYet(G: Net, host: Id, s: Search, i: nat, e: nat, x: Id)
    requires WellFormed(G) && QueueRight(G, host, s) && i < |s.q| && e < |G.nbr[s.q[i]]|
    requires Followed(G, s, i, e, s.q[i], x)
    ensures G.nbr[s.q[i]][e].peer != x
  {
    assert s.q[i] !in s.q[..i];
  }

  /** All interfaces of the node at position `i` are tried: go on to position `i` + 1. */
  lemma {:induction false} NextNode(G: Net, host: Id, s: Search, i: nat)
    requires QueueRight(G, host, s) && Level(s, i) && Expanded(G, s, i)
    requires i < |s.q| && Tried(G, s, s.q[i], |G.nbr[s.q[i]]|)
    ensures Expanded(G, s, i + 1) && Level(s, i + 1)
  {
    NextLevel(G, host, s, i);
    hide Level, QueueRight;
    assert s.q[..i+1] == s.q[..i] + [s.q[i]];
    forall w, y | w in s.q[..i+1] && w in s.dis && Up(G, w, y) ensures y in s.dis && s.dis[y] <= s.dis[w] + 1 {
      if w == s.q[i] {
        var k :| 0 <= k < |G.nbr[w]| && G.nbr[w][k].peer == y && G.nbr[w][k].up;
      } else {
        assert w in s.q[..i];
      }
    }
  }

  lemma {:induction false} NextLevel(G: Net, host: Id, s: Search, i: nat)
    requires QueueRight(G, host, s) && Level(s, i) && i < |s.q|
    ensures Level(s, i + 1)
  {
    assert i + 1 < |s.q| ==> s.dis[s.q[i]] <= s.dis[s.q[i+1]];
  }

  lemma {:induction false} NextHops(G: Net, host: Id, s: Search, i: nat, x: Id, hops: seq<Id>)
    requires WellFormed(G) && QueueRight(G, host, s) && i < |s.q| && HopsSoFar(G, host, s, i, |G.nbr[s.q[i]]|, x, hops)
    ensures HopsSoFar(G, host, s, i + 1, 0, x, hops)
  {
    assert s.q[..i+1] == s.q[..i] + [s.q[i]];
    forall w: Id ensures Closer(G, host, s.dis, w, x) && Followed(G, s, i, |G.nbr[s.q[i]]|, w, x)
                <==> Closer(G, host, s.dis, w, x) && Followed(G, s, i + 1, 0, w, x)
    {
      if w == s.q[i] && Up(G, x, w) {
        assert Up(G, w, x);
        var k :| 0 <= k < |G.nbr[w]| && G.nbr[w][k].peer == x && G.nbr[w][k].up;
      }
    }
  }

  /** At the end the next hops are exactly the closer neighbours. */
  lemma {:induction false} HopsDone(G: Net, host: Id, s: Search, x: Id, hops: seq<Id>)
    requires QueueRight(G, host, s) && HopsSoFar(G, host, s, |s.q|, 0, x, hops)
    ensures HopsRight(G, host, s.dis, x, hops)
  {
    assert s.q[..|s.q|] == s.q;
  }

  ghost predicate AllHops(G: Net, host: Id, s: Search, i: nat, e: nat, nextHop: map<Id, map<Id, seq<Id>>>) {
    forall x :: HopsSoFar(G, host, s, i, e, x, HopsAt(nextHop, x, host))
  }

  lemma {:induction false} DiscoverAll(G: Net, host: Id, payload: nat, s: Search, paths: map<Id, seq<Id>>, i: nat,
                                       e: nat,
                                       nextHop: map<Id, map<Id, seq<Id>>>)
    requires Expanding(G, host, payload, s, paths, i, e) && e < |G.nbr[s.q[i]]| && G.nbr[s.q[i]][e].up
    requires G.nbr[s.q[i]][e].peer !in s.dis && AllHops(G, host, s, i, e, nextHop)
    ensures s.q[i] in s.dis && s.q[i] in s.metrics && s.q[i] in paths && G.nbr[s.q[i]][e].peer < |G.nbr| == |G.switches|
    ensures var now, link := s.q[i], G.nbr[s.q[i]][e];
            var t, routes := Discover(s, now, link, IsSwitch(G, link.peer), payload),
              paths[link.peer := paths[now] + [link.peer]];
            Expanding(G, host, payload, t, routes, i, e) && AllHops(G, host, t, i, e, nextHop)
  {
    hide HopsSoFar, Reached, QueueRight, Level, Expanded, PathRight;
    var now, link := s.q[i], G.nbr[s.q[i]][e];
    InQueue(G, host, payload, s, paths, i);
    var t := Discover(s, now, link, IsSwitch(G, link.peer), payload);
    DiscoverQueue(G, host, s, i, link, payload);
    DiscoverReached(G, host, payload, s, paths, i, e);
    DiscoverExpanded(G, host, s, i, e, link, payload);
    forall x ensures HopsSoFar(G, host, t, i, e, x, HopsAt(nextHop, x, host)) {
      DiscoverHops(G, host, s, i, e, link, payload, x, HopsAt(nextHop, x, host));
    }
  }

  lemma {:induction false} InQueue(G: Net, host: Id, payload: nat, s: Search, paths: map<Id, seq<Id>>, i: nat)
    requires WellFormed(G) && QueueRight(G, host, s) && Reached(G, host, payload, s, paths) && i < |s.q|
    ensures s.q[i] in s.dis && s.q[i] in s.metrics && s.q[i] in paths && s.q[i] < |G.nbr| == |G.switches|
    ensures forall k :: 0 <= k < |G.nbr[s.q[i]]| ==> G.nbr[s.q[i]][k].bw > 0 && G.nbr[s.q[i]][k].peer < |G.nbr|
  {
    assert PathRight(G, host, payload, s, paths, s.q[i]);
  }

  /** A tried interface: its peer, if the link is up, is reached and at most one hop farther. */
  lemma {:induction false} TryExpanding(G: Net, host: Id, payload: nat, s: Search, paths: map<Id, seq<Id>>, i: nat,
                                        e: nat)
    requires Expanding(G, host, payload, s, paths, i, e) && e < |G.nbr[s.q[i]]|
    requires G.nbr[s.q[i]][e].up ==> G.nbr[s.q[i]][e].peer in s.dis
    ensures Expanding(G, host, payload, s, paths, i, e + 1)
  {
    hide Reached, Expanded;
  }

  lemma {:induction false} TryAll(G: Net, host: Id, s: Search, i: nat, e: nat, nextHop: map<Id, map<Id, seq<Id>>>,
                                  nextHop': map<Id, map<Id, seq<Id>>>)
    requires WellFormed(G) && QueueRight(G, host, s) && i < |s.q| && e < |G.nbr[s.q[i]]| &&
             AllHops(G, host, s, i, e, nextHop)
    requires var now, link := s.q[i], G.nbr[s.q[i]][e];
             forall x :: HopsAt(nextHop', x, host) == HopsAt(nextHop, x, host) +
               if link.up && link.peer == x && x in s.dis && s.dis[now] + 1 == s.dis[x] then [now] else []
    ensures AllHops(G, host, s, i, e + 1, nextHop')
  {
    hide HopsSoFar, QueueRight, WellFormed, HopsAt;
    forall x ensures HopsSoFar(G, host, s, i, e + 1, x, HopsAt(nextHop', x, host)) {
      assert HopsSoFar(G, host, s, i, e, x, HopsAt(nextHop, x, host));
      TryHops(G, host, s, i, e, x, HopsAt(nextHop, x, host), HopsAt(nextHop', x, host));
    }
  }

  // ---- the router ----

  /** `metrics` of all hosts, as `pairDelay`, `pairTxDelay` and `pairBw` keep them: entry [x][host]. */
  type Pairs = map<Id, map<Id, Metrics>>

  function SetPair(pairs: Pairs, x: Id, host: Id, m: Metrics): Pairs {
    var row: map<Id, Metrics> := if x in pairs then pairs[x] else map[];
    pairs[x := row[host := m]]
  }

  ghost predicate HasPair(pairs: Pairs, x: Id, host: Id, m: Metrics) {
    x in pairs && host in pairs[x] && pairs[x][host] == m
  }

  class Router {
    const payload: nat
    const switches: seq<bool>
    var nbr: seq<seq<Interface>>
    var nextHop: map<Id, map<Id, seq<Id>>>
    var pairs: Pairs
    var tables: map<Id, Table>

    constructor (payload: nat, G: Net)
      ensures this.payload == payload && Graph() == G && nextHop == map[] && pairs == map[] && tables == map[]
    {
      this.payload := payload;
      switches, nbr, nextHop, pairs, tables := G.switches, G.nbr, map[], map[], map[];
    }

    function Graph(): Net
      reads this`nbr
    {
      Net(switches, nbr)
    }

    /** The loop body of the search: one interface of the node at position `i`. */
    method Explore(host: Id, s: Search, i: nat, e: nat, ghost paths: map<Id, seq<Id>>)
      returns (s': Search, ghost paths': map<Id, seq<Id>>)
      requires Expanding(Graph(), host, payload, s, paths, i, e) && e < |nbr[s.q[i]]|
      requires AllHops(Graph(), host, s, i, e, nextHop)
      modifies this`nextHop
      ensures Expanding(Graph(), host, payload, s', paths', i, e + 1) && s'.q[i] == s.q[i]
      ensures AllHops(Graph(), host, s', i, e + 1, nextHop)
      ensures forall x, h :: h != host ==> HopsAt(nextHop, x, h) == old(HopsAt(nextHop, x, h))
    {
      hide HopsSoFar, Reached, QueueRight, Level, Expanded, PathRight, AllHops, HopsAt, PushHop, Tried;
      ghost var G := Graph();
      InQueue(G, host, payload, s, paths, i);
      var now, link := s.q[i], nbr[s.q[i]][e];
      s', paths' := s, paths;
      if link.up {
        var next := link.peer;
        if next !in s.dis {
          DiscoverAll(G, host, payload, s, paths, i, e, nextHop);
          s' := Discover(s, now, link, switches[next], payload);
          paths' := paths[next := paths[now] + [next]];
        }
        if s.dis[now] + 1 == s'.dis[next] {
          nextHop := PushHop(nextHop, next, host, now);
        }
      }
      TryExpanding(G, host, payload, s', paths', i, e);
      TryAll(G, host, s', i, e, old(nextHop), nextHop);
    }

    /** The whole search from a host; `d` are the distances it finds. */
    method CalculateRoute(host: Id) returns (ghost d: map<Id, nat>)
      requires WellFormed(Graph()) && host < |nbr| && NoHops(nextHop, host)
      modifies this`nextHop, this`pairs
      ensures Distances(Graph(), host, d) && RoutesVia(Graph(), host, d, nextHop)
      ensures forall x, h :: h != host ==> HopsAt(nextHop, x, h) == old(HopsAt(nextHop, x, h))
      ensures forall x :: x in d ==> exists p :: Measured(Graph(), host, payload, d, pairs, x, p)
      ensures forall x, h, m :: h != host ==> (HasPair(pairs, x, h, m) <==> HasPair(old(pairs), x, h, m))
      ensures forall x, m :: x !in d ==> (HasPair(pairs, x, host, m) <==> HasPair(old(pairs), x, host, m))
    {
      hide HopsSoFar, Reached, QueueRight, Level, Expanded, PathRight, AllHops, HopsAt, Tried, WellFormed, Measured,
           HasPair, SetPair, HopsRight, Distances, RoutesVia;
      ghost var G := Graph();
      var s := Search([host], map[host := 0], map[host := HERE]);
      ghost var paths: map<Id, seq<Id>> := map[host := [host]];
      SearchStart(G, host, payload, s, paths, nextHop);
      var i := 0;
      while i < |s.q|
        invariant i <= |s.q| && QueueRight(G, host, s) && Reached(G, host, payload, s, paths) && pairs == old(pairs)
        invariant Level(s, i) && Expanded(G, s, i) && AllHops(G, host, s, i, 0, nextHop)
        invariant forall x, h :: h != host ==> HopsAt(nextHop, x, h) == old(HopsAt(nextHop, x, h))
        decreases |nbr| - i
      {
        QueueBound(G, host, s, i);
        ghost var now := s.q[i];
        StartNode(G, host, payload, s, paths, i);
        for e := 0 to |nbr[s.q[i]]|
          invariant Expanding(G, host, payload, s, paths, i, e) && s.q[i] == now && AllHops(G, host, s, i, e, nextHop)
          invariant pairs == old(pairs)
          invariant forall x, h :: h != host ==> HopsAt(nextHop, x, h) == old(HopsAt(nextHop, x, h))
        {
          s, paths := Explore(host, s, i, e, paths);
        }
        EndNode(G, host, payload, s, paths, i, nextHop);
        i := i + 1;
      }
      d := s.dis;
      SearchDistances(G, host, payload, s, paths);
      AllHopsDone(G, host, s, nextHop);
      ReachedKeys(G, host, payload, s, paths);
      StorePairs(host, s);
      PairsMeasured(G, host, payload, s, paths, pairs);
    }

    /** `for (auto it : delay) pairDelay[it.first][host] = it.second;` and its two siblings. */
    method StorePairs(host: Id, s: Search)
      requires s.metrics.Keys == s.dis.Keys && forall x :: x in s.dis ==> x < |nbr|
      modifies this`pairs
      ensures forall x :: x in s.dis ==> HasPair(pairs, x, host, s.metrics[x])
      ensures forall x, h, m :: h != host || x !in s.dis ==> (HasPair(pairs, x, h, m) <==> HasPair(old(pairs), x, h, m))
    {
      for x := 0 to |nbr|
        invariant forall y :: y in s.dis && y < x ==> HasPair(pairs, y, host, s.metrics[y])
        invariant forall y, h, m :: h != host || y !in s.dis ==>
                  (HasPair(pairs, y, h, m) <==> HasPair(old(pairs), y, h, m))
      {
        if x in s.metrics {
          pairs := SetPair(pairs, x, host, s.metrics[x]);
        }
      }
    }

    /** `CalculateRoute` for every host. */
    method CalculateRoutes()
      requires WellFormed(Graph()) && nextHop == map[]
      modifies this`nextHop, this`pairs
      ensures AllRouted(Graph(), nextHop) && AllMetered(Graph(), payload, pairs)
    {
      hide WellFormed, Distances, RoutesVia, HasPair, Measured, Routed, Metered, HopsAt;
      NothingRouted(nextHop);
      for i := 0 to |nbr|
        invariant forall h: Id :: h < i && !IsSwitch(Graph(), h) ==>
                  Routed(Graph(), h, nextHop) && Metered(Graph(), h, payload, pairs)
        invariant forall h: Id :: h >= i || IsSwitch(Graph(), h) ==> NoHops(nextHop, h)
      {
        SameSize(Graph());
        if !switches[i] {
          ghost var hops, measures := nextHop, pairs;
          ghost var d := CalculateRoute(i);
          RouteDone(Graph(), i, payload, d, nextHop, pairs);
          forall h: Id | h > i || IsSwitch(Graph(), h) ensures NoHops(nextHop, h) {
            assert NoHops(hops, h);
          }
          forall h: Id | h < i && !IsSwitch(Graph(), h)
            ensures Routed(Graph(), h, nextHop) && Metered(Graph(), h, payload, pairs)
          {
            RoutedElsewhere(Graph(), h, hops, nextHop);
            MeteredElsewhere(Graph(), h, payload, measures, pairs);
          }
        }
      }
    }

    /** The table entries of node `x` towards `dst`, one for every next hop. */
    method AddEntries(x: Id, dst: Id)
      requires x < |nbr|
      modifies this`tables
      ensures forall y, ip :: PortsAt(tables, y, ip) == old(PortsAt(tables, y, ip)) +
                if y == x && ip == NodeIdToIp(dst) then Indices(nbr[x], HopsAt(nextHop, x, dst)) else []
    {
      hide NodeIdToIp, HopsAt, IdxOf, PortsAt, AddPort;
      var nexts := HopsAt(nextHop, x, dst);
      for k := 0 to |nexts|
        invariant forall y, ip :: PortsAt(tables, y, ip) == old(PortsAt(tables, y, ip)) +
                    if y == x && ip == NodeIdToIp(dst) then Indices(nbr[x], nexts)[..k] else []
      {
        tables := AddPort(tables, x, NodeIdToIp(dst), IdxOf(nbr[x], nexts[k]));
        assert Indices(nbr[x], nexts)[..k + 1] == Indices(nbr[x], nexts)[..k] + [IdxOf(nbr[x], nexts[k])];
      }
      assert Indices(nbr[x], nexts)[..|nexts|] == Indices(nbr[x], nexts);
    }

    method AddNodeEntries(x: Id)
      requires x < |nbr| <= MAX_NODES
      modifies this`tables
      ensures forall dst: Id :: dst < |nbr| ==> Added(old(tables), tables, nbr[x], nextHop, x, dst)
      ensures forall y, ip :: y != x ==> PortsAt(tables, y, ip) == old(PortsAt(tables, y, ip))
    {
      hide NodeIdToIp, HopsAt, IdxOf, Indices, PortsAt;
      for dst := 0 to |nbr|
        invariant forall e: Id :: e < dst ==> Added(old(tables), tables, nbr[x], nextHop, x, e)
        invariant forall e: Id :: dst <= e < |nbr| ==>
                  PortsAt(tables, x, NodeIdToIp(e)) == old(PortsAt(tables, x, NodeIdToIp(e)))
        invariant forall y, ip :: y != x ==> PortsAt(tables, y, ip) == old(PortsAt(tables, y, ip))
      {
        ghost var before := tables;
        AddEntries(x, dst);
        assert Added(before, tables, nbr[x], nextHop, x, dst);
        forall e: Id | e < |nbr| && e != dst
          ensures PortsAt(tables, x, NodeIdToIp(e)) == PortsAt(before, x, NodeIdToIp(e))
        {
          AddressesDistinct(e, dst);
        }
        forall e: Id | e < dst + 1 ensures Added(old(tables), tables, nbr[x], nextHop, x, e) {
          if e < dst {
            assert Added(old(tables), before, nbr[x], nextHop, x, e);
          }
        }
      }
    }

    /** The indices of all next hops go into the tables, after what was there. */
    method SetRoutingEntries()
      requires |nbr| <= MAX_NODES
      modifies this`tables
      ensures forall x: Id, dst: Id :: x < |nbr| && dst < |nbr| ==> Added(old(tables), tables, nbr[x], nextHop, x, dst)
    {
      hide NodeIdToIp, HopsAt, IdxOf, Indices, PortsAt;
      for x := 0 to |nbr|
        invariant forall y: Id, dst: Id :: y < x && dst < |nbr| ==> Added(old(tables), tables, nbr[y], nextHop, y, dst)
        invariant forall y: Id, ip :: y >= x ==> PortsAt(tables, y, ip) == old(PortsAt(tables, y, ip))
      {
        ghost var before := tables;
        AddNodeEntries(x);
        forall y: Id, dst: Id | y <= x && dst < |nbr| ensures Added(old(tables), tables, nbr[y], nextHop, y, dst) {
          if y < x {
            assert Added(old(tables), before, nbr[y], nextHop, y, dst);
          } else {
            assert Added(before, tables, nbr[y], nextHop, y, dst);
          }
        }
      }
    }

    /** Routes, metrics and tables from scratch. */
    method Redo()
      requires WellFormed(Graph()) && |nbr| <= MAX_NODES
      modifies this`nextHop, this`pairs, this`tables
      ensures AllRouted(Graph(), nextHop) && TablesRight(nbr, nextHop, tables) && AllMetered(Graph(), payload, pairs)
    {
      hide WellFormed, AllRouted, AllMetered, Added, TablesRight;
      nextHop := map[];
      CalculateRoutes();
      tables := map[];
      SetRoutingEntries();
      TablesFilled(nbr, nextHop, tables);
    }

    /** Take down the link between `a` and `b` and redo the routing; nothing happens when it is down or absent. */
    method TakeDownLink(a: Id, b: Id)
      requires WellFormed(Graph()) && a < |nbr| <= MAX_NODES && b < |nbr|
      modifies this
      ensures !old(Up(Graph(), a, b)) ==> unchanged(this)
      ensures old(Up(Graph(), a, b)) ==> Graph() == old(Cut(Graph(), a, b)) && WellFormed(Graph()) &&
                                         AllRouted(Graph(), nextHop) && TablesRight(nbr, nextHop, tables) &&
                                         AllMetered(Graph(), payload, pairs)
    {
      if !Up(Graph(), a, b) {
        return;
      }
      CutWellFormed(Graph(), a, b);
      hide WellFormed, AllRouted, AllMetered, Up, Added, TablesRight, Lower;
      nbr := Lower(Lower(nbr, b, a), a, b);
      Redo();
    }
  }

  const MAX_NODES: nat := 0x100_0000

  function PortsAt(tables: map<Id, Table>, x: Id, ip: nat): seq<nat> {
    if x in tables then Ports(tables[x], ip) else []
  }

  function AddPort(tables: map<Id, Table>, x: Id, ip: nat, idx: nat): (r: map<Id, Table>)
    ensures forall y, a :: PortsAt(r, y, a) == PortsAt(tables, y, a) + if y == x && a == ip then [idx] else []
  {
    var table: Table := if x in tables then tables[x] else map[];
    tables[x := AddTableEntry(table, ip, idx)]
  }

  ghost predicate Added(before: map<Id, Table>, after: map<Id, Table>, row: seq<Interface>,
                        nextHop: map<Id, map<Id, seq<Id>>>, x: Id, dst: Id) {
    PortsAt(after, x, NodeIdToIp(dst)) == PortsAt(before, x, NodeIdToIp(dst)) + Indices(row, HopsAt(nextHop, x, dst))
  }

  /** For every node address the tables hold the interface indices of its next hops, in their order, and no others. */
  ghost predicate TablesRight(nbr: seq<seq<Interface>>, nextHop: map<Id, map<Id, seq<Id>>>, tables: map<Id, Table>) {
    forall x: Id, dst: Id :: x < |nbr| && dst < |nbr| ==>
      PortsAt(tables, x, NodeIdToIp(dst)) == Indices(nbr[x], HopsAt(nextHop, x, dst))
  }

  lemma {:induction false} TablesFilled(nbr: seq<seq<Interface>>, nextHop: map<Id, map<Id, seq<Id>>>,
                                        tables: map<Id, Table>)
    requires forall x: Id, dst: Id :: x < |nbr| && dst < |nbr| ==> Added(map[], tables, nbr[x], nextHop, x, dst)
    ensures TablesRight(nbr, nextHop, tables)
  {
    hide NodeIdToIp, HopsAt, Indices;
    forall x: Id, dst: Id | x < |nbr| && dst < |nbr|
      ensures PortsAt(tables, x, NodeIdToIp(dst)) == Indices(nbr[x], HopsAt(nextHop, x, dst))
    {
      assert Added(map[], tables, nbr[x], nextHop, x, dst);
    }
  }

  ghost predicate NoHops(nextHop: map<Id, map<Id, seq<Id>>>, host: Id) {
    forall x :: HopsAt(nextHop, x, host) == []
  }

  lemma {:induction false} NothingRouted(nextHop: map<Id, map<Id, seq<Id>>>)
    requires nextHop == map[]
    ensures forall h: Id :: NoHops(nextHop, h)
  {
  }

  ghost predicate RoutesVia(G: Net, host: Id, d: map<Id, nat>, nextHop: map<Id, map<Id, seq<Id>>>) {
    forall x :: HopsRight(G, host, d, x, HopsAt(nextHop, x, host))
  }

  /** The stored delay, transmission delay and bandwidth of `x` are those of the one shortest path `p`: the sums and
      the minimum over its links. */
  ghost predicate Measured(G: Net, host: Id, payload: nat, d: map<Id, nat>, pairs: Pairs, x: Id, p: seq<Id>)
    requires WellFormed(G)
  {
    x in d && RelayedTo(G, host, p, x) && |p| == d[x] + 1 && HasPair(pairs, x, host, Along(G, host, p, payload)) &&
    CostsOf(WalkLinks(G, p), payload, Along(G, host, p, payload))
  }

  lemma {:induction false} SearchStart(G: Net, host: Id, payload: nat, s: Search, paths: map<Id, seq<Id>>,
                                       nextHop: map<Id, map<Id, seq<Id>>>)
    requires WellFormed(G) && host < |G.nbr| && NoHops(nextHop, host)
    requires s == Search([host], map[host := 0], map[host := HERE]) && paths == map[host := [host]]
    ensures QueueRight(G, host, s) && Reached(G, host, payload, s, paths) && Level(s, 0) && Expanded(G, s, 0)
    ensures AllHops(G, host, s, 0, 0, nextHop)
  {
    assert RelayedTo(G, host, [host], host);
    assert PathRight(G, host, payload, s, paths, host);
  }

  lemma {:induction false} QueueBound(G: Net, host: Id, s: Search, i: nat)
    requires QueueRight(G, host, s) && i < |s.q|
    ensures i < |G.nbr| && s.q[i] < |G.nbr|
  {
    IdsCard(|G.nbr|);
    DistinctCard(s.q);
    CardSubset(Elems(s.q), Ids(|G.nbr|));
  }

  /** The nodes below `n`. */
  ghost function Ids(n: nat): set<Id> {
    if n == 0 then {} else Ids(n - 1) + {n - 1}
  }

  lemma {:induction false} IdsCard(n: nat)
    ensures |Ids(n)| == n && forall x: Id :: x in Ids(n) <==> x < n
  {
    if n > 0 {
      IdsCard(n - 1);
    }
  }

  lemma {:induction false} ReachedKeys(G: Net, host: Id, payload: nat, s: Search, paths: map<Id, seq<Id>>)
    requires WellFormed(G) && QueueRight(G, host, s) && Reached(G, host, payload, s, paths)
    ensures s.metrics.Keys == s.dis.Keys && forall x :: x in s.dis ==> x < |G.nbr|
  {
  }

  lemma {:induction false} StartNode(G: Net, host: Id, payload: nat, s: Search, paths: map<Id, seq<Id>>, i: nat)
    requires WellFormed(G) && QueueRight(G, host, s) && Reached(G, host, payload, s, paths) && Level(s, i) &&
             Expanded(G, s, i) && i < |s.q|
    ensures Expanding(G, host, payload, s, paths, i, 0)
  {
  }

  lemma {:induction false} EndNode(G: Net, host: Id, payload: nat, s: Search, paths: map<Id, seq<Id>>, i: nat,
                                   nextHop: map<Id, map<Id, seq<Id>>>)
    requires i < |s.q| && s.q[i] < |G.nbr| && Expanding(G, host, payload, s, paths, i, |G.nbr[s.q[i]]|)
    requires AllHops(G, host, s, i, |G.nbr[s.q[i]]|, nextHop)
    ensures QueueRight(G, host, s) && Reached(G, host, payload, s, paths) && Level(s, i + 1) && Expanded(G, s, i + 1)
    ensures AllHops(G, host, s, i + 1, 0, nextHop)
  {
    hide HopsSoFar, Reached, QueueRight, Level, Expanded, WellFormed, HopsAt, Tried;
    NextNode(G, host, s, i);
    forall x ensures HopsSoFar(G, host, s, i + 1, 0, x, HopsAt(nextHop, x, host)) {
      NextHops(G, host, s, i, x, HopsAt(nextHop, x, host));
    }
  }

  lemma {:induction false} AllHopsDone(G: Net, host: Id, s: Search, nextHop: map<Id, map<Id, seq<Id>>>)
    requires QueueRight(G, host, s) && AllHops(G, host, s, |s.q|, 0, nextHop)
    ensures RoutesVia(G, host, s.dis, nextHop)
  {
    forall x ensures HopsRight(G, host, s.dis, x, HopsAt(nextHop, x, host)) {
      HopsDone(G, host, s, x, HopsAt(nextHop, x, host));
    }
  }

  lemma {:induction false} PairsMeasured(G: Net, host: Id, payload: nat, s: Search, paths: map<Id, seq<Id>>,
                                         pairs: Pairs)
    requires WellFormed(G) && Reached(G, host, payload, s, paths)
    requires forall x :: x in s.dis ==> x in s.metrics && HasPair(pairs, x, host, s.metrics[x])
    ensures forall x :: x in s.dis ==> exists p :: Measured(G, host, payload, s.dis, pairs, x, p)
  {
    forall x | x in s.dis ensures exists p :: Measured(G, host, payload, s.dis, pairs, x, p) {
      assert PathRight(G, host, payload, s, paths, x);
      AlongCosts(G, host, paths[x], payload);
      assert Measured(G, host, payload, s.dis, pairs, x, paths[x]);
    }
  }

  /** The next hops towards `host` are those of the shortest relayed walks. */
  ghost predicate Routed(G: Net, host: Id, nextHop: map<Id, map<Id, seq<Id>>>) {
    exists d :: Distances(G, host, d) && RoutesVia(G, host, d, nextHop)
  }

  /** The next hops of the whole network: right towards every host, none towards anything else. */
  ghost predicate AllRouted(G: Net, nextHop: map<Id, map<Id, seq<Id>>>) {
    (forall h: Id :: h < |G.nbr| && !IsSwitch(G, h) ==> Routed(G, h, nextHop)) &&
    forall h: Id :: h >= |G.nbr| || IsSwitch(G, h) ==> NoHops(nextHop, h)
  }

  /** The stored metrics towards `host` are right for every node that reaches it. */
  ghost predicate Metered(G: Net, host: Id, payload: nat, pairs: Pairs)
    requires WellFormed(G)
  {
    exists d :: Distances(G, host, d) && forall x :: x in d ==> exists p :: Measured(G, host, payload, d, pairs, x, p)
  }

  ghost predicate AllMetered(G: Net, payload: nat, pairs: Pairs)
    requires WellFormed(G)
  {
    forall h: Id :: h < |G.nbr| && !IsSwitch(G, h) ==> Metered(G, h, payload, pairs)
  }

  lemma {:induction false} RouteDone(G: Net, host: Id, payload: nat, d: map<Id, nat>,
                                     nextHop: map<Id, map<Id, seq<Id>>>, pairs: Pairs)
    requires WellFormed(G) && Distances(G, host, d) && RoutesVia(G, host, d, nextHop)
    requires forall x :: x in d ==> exists p :: Measured(G, host, payload, d, pairs, x, p)
    ensures Routed(G, host, nextHop) && Metered(G, host, payload, pairs)
  {
  }

  lemma {:induction false} MeteredElsewhere(G: Net, h: Id, payload: nat, pairs: Pairs, pairs': Pairs)
    requires WellFormed(G) && Metered(G, h, payload, pairs)
    requires forall x, m :: HasPair(pairs', x, h, m) <==> HasPair(pairs, x, h, m)
    ensures Metered(G, h, payload, pairs')
  {
    hide Distances, HasPair, WellFormed;
    var d :| Distances(G, h, d) && forall x :: x in d ==> exists p :: Measured(G, h, payload, d, pairs, x, p);
    forall x | x in d ensures exists p :: Measured(G, h, payload, d, pairs', x, p) {
      var p :| Measured(G, h, payload, d, pairs, x, p);
      assert Measured(G, h, payload, d, pairs', x, p);
    }
  }

  lemma {:induction false} SameSize(G: Net)
    requires WellFormed(G)
    ensures |G.switches| == |G.nbr|
  {
  }

  lemma {:induction false} RoutedElsewhere(G: Net, h: Id, nextHop: map<Id, map<Id, seq<Id>>>,
                                           nextHop': map<Id, map<Id, seq<Id>>>)
    requires Routed(G, h, nextHop) && forall x :: HopsAt(nextHop', x, h) == HopsAt(nextHop, x, h)
    ensures Routed(G, h, nextHop')
  {
    var d :| Distances(G, h, d) && RoutesVia(G, h, d, nextHop);
    forall x ensures HopsRight(G, h, d, x, HopsAt(nextHop', x, h)) {
      assert HopsRight(G, h, d, x, HopsAt(nextHop, x, h));
    }
  }

  /** The next hops are determined by the network, up to their order. */
  lemma {:induction false} RoutesUnique(G: Net, nextHop: map<Id, map<Id, seq<Id>>>,
                                        nextHop': map<Id, map<Id, seq<Id>>>, x: Id, h: Id)
    requires AllRouted(G, nextHop) && AllRouted(G, nextHop')
    ensures multiset(HopsAt(nextHop, x, h)) == multiset(HopsAt(nextHop', x, h))
  {
    if h < |G.nbr| && !IsSwitch(G, h) {
      assert Routed(G, h, nextHop) && Routed(G, h, nextHop');
      var d :| Distances(G, h, d) && RoutesVia(G, h, d, nextHop);
      var e :| Distances(G, h, e) && RoutesVia(G, h, e, nextHop');
      DistancesUnique(G, h, d, e);
      HopsUnique(G, h, d, x, HopsAt(nextHop, x, h), HopsAt(nextHop', x, h));
    } else {
      assert NoHops(nextHop, h) && NoHops(nextHop', h);
    }
  }

  /** Every table entry for a host is an up interface to a node one hop closer, and a node that can reach the host
      and is not the host itself has an entry. */
  lemma {:induction false} Forwarding(G: Net, d: map<Id, nat>, nextHop: map<Id, map<Id, seq<Id>>>,
                                      tables: map<Id, Table>, x: Id, host: Id)
    requires WellFormed(G) && AllRouted(G, nextHop) && TablesRight(G.nbr, nextHop, tables)
    requires x < |G.nbr| && host < |G.nbr| && !IsSwitch(G, host) && Distances(G, host, d)
    ensures x in d && x != host ==> PortsAt(tables, x, NodeIdToIp(host)) != []
    ensures AllLead(G, host, d, x, PortsAt(tables, x, NodeIdToIp(host)))
  {
    hide NodeIdToIp, HopsAt, Distances, IdxOf, LeadsTo, Closer;
    assert Routed(G, host, nextHop);
    var e :| Distances(G, host, e) && RoutesVia(G, host, e, nextHop);
    DistancesUnique(G, host, d, e);
    var hops := HopsAt(nextHop, x, host);
    assert HopsRight(G, host, d, x, hops);
    if x in d && x != host {
      HopExists(G, host, d, x);
    }
    var ports := PortsAt(tables, x, NodeIdToIp(host));
    assert ports == Indices(G.nbr[x], hops);
    forall k | 0 <= k < |ports| ensures LeadsTo(G, host, d, x, ports[k]) {
      assert hops[k] in hops;
      HopLeads(G, host, d, x, hops[k]);
    }
  }

  ghost predicate AllLead(G: Net, host: Id, d: map<Id, nat>, x: Id, ports: seq<nat>) {
    forall k :: 0 <= k < |ports| ==> LeadsTo(G, host, d, x, ports[k])
  }

  ghost predicate LeadsTo(G: Net, host: Id, d: map<Id, nat>, x: Id, idx: nat) {
    exists i :: Leads(G, host, d, x, i, idx)
  }

  ghost predicate Leads(G: Net, host: Id, d: map<Id, nat>, x: Id, i: int, idx: nat) {
    x < |G.nbr| && 0 <= i < |G.nbr[x]| && G.nbr[x][i].up && G.nbr[x][i].idx == idx &&
    Closer(G, host, d, G.nbr[x][i].peer, x)
  }

  lemma {:induction false} HopLeads(G: Net, host: Id, d: map<Id, nat>, x: Id, w: Id)
    requires WellFormed(G) && x < |G.nbr| && Closer(G, host, d, w, x)
    ensures LeadsTo(G, host, d, x, IdxOf(G.nbr[x], w))
  {
    hide IdxOf;
    var i :| 0 <= i < |G.nbr[x]| && G.nbr[x][i].peer == w && G.nbr[x][i].up;
    IdxIs(G.nbr[x], i);
    assert Leads(G, host, d, x, i, IdxOf(G.nbr[x], w));
  }

  /** After the cut no route uses the link, in either direction. */
  lemma {:induction false} CutRoutes(G: Net, a: Id, b: Id, nextHop: map<Id, map<Id, seq<Id>>>, h: Id)
    requires WellFormed(G) && a < |G.nbr| && b < |G.nbr| && AllRouted(Cut(G, a, b), nextHop)
    ensures b !in HopsAt(nextHop, a, h) && a !in HopsAt(nextHop, b, h)
  {
    hide WellFormed, Distances, Up, HopsAt;
    var H := Cut(G, a, b);
    CutUp(G, a, b, a, b);
    CutUp(G, a, b, b, a);
    if h < |H.nbr| && !IsSwitch(H, h) {
      assert Routed(H, h, nextHop);
      var d :| Distances(H, h, d) && RoutesVia(H, h, d, nextHop);
      assert HopsRight(H, h, d, a, HopsAt(nextHop, a, h)) && HopsRight(H, h, d, b, HopsAt(nextHop, b, h));
    } else {
      assert NoHops(nextHop, h);
    }
  }
}

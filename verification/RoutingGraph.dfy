/** The network the router works on, walks that only switches relay, and what the next hops of a host must be. */
module RoutingGraph {
  import opened Lists

  type Id = nat

  const U64: nat := 0x1_0000_0000_0000_0000

  /** One entry of `nbr2if[x]`, with the neighbour it is filed under. */
  datatype Interface = Interface(peer: Id, idx: nat, up: bool, delay: nat, bw: nat)

  /** Node x is a switch when `switches[x]`, otherwise a host; `nbr[x]` lists its interfaces in map order. */
  datatype Net = Net(switches: seq<bool>, nbr: seq<seq<Interface>>)

  predicate Up(G: Net, u: Id, v: Id) {
    u < |G.nbr| && exists i :: 0 <= i < |G.nbr[u]| && G.nbr[u][i].peer == v && G.nbr[u][i].up
  }

  predicate IsSwitch(G: Net, x: Id) {
    x < |G.switches| && G.switches[x]
  }

  /** Interfaces lead to nodes, one per neighbour, values fit 64 bits, and links are up or down at both ends. */
  ghost predicate WellFormed(G: Net) {
    |G.switches| == |G.nbr| &&
    (forall u, i :: 0 <= u < |G.nbr| && 0 <= i < |G.nbr[u]| ==>
      G.nbr[u][i].peer < |G.nbr| && G.nbr[u][i].delay < U64 && 0 < G.nbr[u][i].bw < U64) &&
    (forall u, i, j :: 0 <= u < |G.nbr| && 0 <= i < j < |G.nbr[u]| ==> G.nbr[u][i].peer != G.nbr[u][j].peer) &&
    forall u, v :: Up(G, u, v) ==> Up(G, v, u)
  }

  // ---- walks ----

  /** A walk over up links from `host` in which only switches relay. */
  ghost predicate Relayed(G: Net, host: Id, p: seq<Id>) {
    |p| > 0 && p[0] == host && (forall i :: 0 <= i < |p| - 1 ==> Up(G, p[i], p[i+1])) &&
    forall i :: 0 < i < |p| - 1 ==> IsSwitch(G, p[i])
  }

  ghost predicate RelayedTo(G: Net, host: Id, p: seq<Id>, x: Id) {
    Relayed(G, host, p) && p[|p|-1] == x
  }

  /** `d` holds the length of the shortest relayed walk to every node that has one, and nothing else. */
  ghost predicate Distances(G: Net, host: Id, d: map<Id, nat>) {
    (forall p, x :: RelayedTo(G, host, p, x) ==> x in d && d[x] <= |p| - 1) &&
    forall x :: x in d ==> exists p :: RelayedTo(G, host, p, x) && |p| == d[x] + 1
  }

  lemma {:induction false} DistancesUnique(G: Net, host: Id, d: map<Id, nat>, e: map<Id, nat>)
    requires Distances(G, host, d) && Distances(G, host, e)
    ensures d == e
  {
    forall x ensures x in d <==> x in e {
      DistanceCovers(G, host, d, e, x);
      DistanceCovers(G, host, e, d, x);
    }
    forall x | x in d ensures d[x] == e[x] {
      DistanceCovers(G, host, d, e, x);
      DistanceCovers(G, host, e, d, x);
    }
  }

  lemma {:induction false} DistanceCovers(G: Net, host: Id, d: map<Id, nat>, e: map<Id, nat>, x: Id)
    requires Distances(G, host, d) && Distances(G, host, e)
    ensures x in d ==> x in e && e[x] <= d[x]
  {
    if x in d {
      var p :| RelayedTo(G, host, p, x) && |p| == d[x] + 1;
    }
  }

  // ---- next hops ----

  /** `w` is one hop closer to the host than its up-link neighbour `x`, and may relay. */
  ghost predicate Closer(G: Net, host: Id, d: map<Id, nat>, w: Id, x: Id) {
    Up(G, x, w) && w in d && x in d && d[w] + 1 == d[x] && (w == host || IsSwitch(G, w))
  }

  /** Exactly the closer neighbours, each once. */
  ghost predicate HopsRight(G: Net, host: Id, d: map<Id, nat>, x: Id, hops: seq<Id>) {
    Distinct(hops) && forall w :: w in hops <==> Closer(G, host, d, w, x)
  }

  lemma {:induction false} HopsUnique(G: Net, host: Id, d: map<Id, nat>, x: Id, hops: seq<Id>, hops': seq<Id>)
    requires HopsRight(G, host, d, x, hops) && HopsRight(G, host, d, x, hops')
    ensures multiset(hops) == multiset(hops')
  {
    SameMembers(hops, hops');
  }

  lemma {:induction false} SameMembers<T>(s: seq<T>, t: seq<T>)
    requires Distinct(s) && Distinct(t) && forall x :: x in s <==> x in t
    ensures multiset(s) == multiset(t)
  {
    forall x ensures multiset(s)[x] == multiset(t)[x] {
      DistinctOnce(s, x);
      DistinctOnce(t, x);
    }
  }

  lemma {:induction false} DistinctOnce<T>(s: seq<T>, x: T)
    requires Distinct(s)
    ensures multiset(s)[x] == if x in s then 1 else 0
  {
    if s != [] {
      DistinctOnce(s[1..], x);
      assert s == [s[0]] + s[1..];
      assert s[0] !in s[1..];
    }
  }

  /** From a reached node other than the host there is always a next hop. */
  lemma {:induction false} HopExists(G: Net, host: Id, d: map<Id, nat>, x: Id)
    requires WellFormed(G) && Distances(G, host, d) && x in d && x != host
    ensures d[x] > 0 && exists w :: Closer(G, host, d, w, x)
  {
    var p :| RelayedTo(G, host, p, x) && |p| == d[x] + 1;
    var w := p[|p|-2];
    FrontRelayed(G, host, p);
    assert RelayedTo(G, host, p[..|p|-1], w);
    if d[w] + 1 < d[x] {
      var r :| RelayedTo(G, host, r, w) && |r| == d[w] + 1;
      ExtendRelayed(G, host, r, w, x);
    }
    assert Closer(G, host, d, w, x);
  }

  lemma {:induction false} ExtendRelayed(G: Net, host: Id, p: seq<Id>, w: Id, x: Id)
    requires RelayedTo(G, host, p, w) && Up(G, w, x) && (|p| == 1 || IsSwitch(G, w))
    ensures RelayedTo(G, host, p + [x], x)
  {
    var q := p + [x];
    forall i | 0 <= i < |q| - 1 ensures Up(G, q[i], q[i+1]) {
      if i < |p| - 1 {
        assert Up(G, p[i], p[i+1]);
      }
    }
  }

  /** A route: every step goes to a next hop of the node it leaves. */
  ghost predicate Follows(G: Net, host: Id, d: map<Id, nat>, p: seq<Id>) {
    |p| > 0 && p[0] in d && forall i :: 0 <= i < |p| - 1 ==> Closer(G, host, d, p[i+1], p[i])
  }

  /** Whatever next hops are chosen, every step brings the packet one hop closer, over switches only, and the host
      is reached after exactly d[x] steps. */
  lemma {:induction false} RoutesReachHost(G: Net, host: Id, d: map<Id, nat>, p: seq<Id>, i: nat)
    requires Distances(G, host, d) && Follows(G, host, d, p) && i < |p|
    ensures p[i] in d && i <= d[p[0]] && d[p[i]] == d[p[0]] - i
    ensures 0 < i && p[i] != host ==> IsSwitch(G, p[i])
    ensures p[i] == host <==> i == d[p[0]]
  {
    if i > 0 {
      RoutesReachHost(G, host, d, p, i - 1);
      assert Closer(G, host, d, p[i-1+1], p[i-1]);
    }
    assert RelayedTo(G, host, [host], host);
    if d[p[i]] == 0 {
      var r :| RelayedTo(G, host, r, p[i]) && |r| == d[p[i]] + 1;
    }
  }

  // ---- path metrics ----

  /** The interface at `u` that leads to `v`. */
  ghost function LinkOf(G: Net, u: Id, v: Id): Interface
    requires Up(G, u, v)
  {
    var i :| 0 <= i < |G.nbr[u]| && G.nbr[u][i].peer == v && G.nbr[u][i].up;
    G.nbr[u][i]
  }

  lemma {:induction false} LinkIs(G: Net, u: Id, i: nat)
    requires WellFormed(G) && u < |G.nbr| && i < |G.nbr[u]| && G.nbr[u][i].up
    ensures Up(G, u, G.nbr[u][i].peer) && LinkOf(G, u, G.nbr[u][i].peer) == G.nbr[u][i]
  {
  }

  /** Sending time of one payload over a link, in 64-bit arithmetic. */
  function TxTime(payload: nat, bw: nat): nat
    requires bw > 0
  {
    ((payload * 1000000000) % U64 * 8) % U64 / bw
  }

  datatype Metrics = Metrics(delay: nat, txDelay: nat, bw: nat)

  const HERE := Metrics(0, 0, 0xffff_ffff_ffff_ffff)

  /** One more link: delays add up modulo 2^64, the bandwidth is that of the narrowest link. */
  function AddLink(m: Metrics, link: Interface, payload: nat): Metrics
    requires link.bw > 0
  {
    Metrics((m.delay + link.delay) % U64, (m.txDelay + TxTime(payload, link.bw)) % U64,
            if m.bw < link.bw then m.bw else link.bw)
  }

  lemma {:induction false} FrontRelayed(G: Net, host: Id, p: seq<Id>)
    requires Relayed(G, host, p) && |p| > 1
    ensures Relayed(G, host, p[..|p|-1]) && Up(G, p[|p|-2], p[|p|-1])
  {
    var q := p[..|p|-1];
    forall i | 0 <= i < |q| - 1 ensures Up(G, q[i], q[i+1]) {
      assert Up(G, p[i], p[i+1]);
    }
    assert Up(G, p[|p|-2], p[|p|-2+1]);
  }

  /** The accumulated metrics of a walk from the host. */
  ghost function Along(G: Net, host: Id, p: seq<Id>, payload: nat): Metrics
    requires WellFormed(G) && Relayed(G, host, p)
    decreases |p|
  {
    if |p| == 1 then HERE else
      FrontRelayed(G, host, p);
      AddLink(Along(G, host, p[..|p|-1], payload), LinkOf(G, p[|p|-2], p[|p|-1]), payload)
  }

  lemma {:induction false} AlongExtend(G: Net, host: Id, p: seq<Id>, w: Id, x: Id, payload: nat)
    requires WellFormed(G) && RelayedTo(G, host, p, w) && Up(G, w, x) && (|p| == 1 || IsSwitch(G, w))
    ensures RelayedTo(G, host, p + [x], x)
    ensures Along(G, host, p + [x], payload) == AddLink(Along(G, host, p, payload), LinkOf(G, w, x), payload)
  {
    ExtendRelayed(G, host, p, w, x);
    assert (p + [x])[..|p|] == p;
  }

  // ---- what the metrics amount to ----

  /** The interfaces a walk leaves by, one per hop. */
  ghost function WalkLinks(G: Net, p: seq<Id>): (r: seq<Interface>)
    requires |p| > 0 && forall i :: 0 <= i < |p| - 1 ==> Up(G, p[i], p[i+1])
    ensures |r| == |p| - 1 && forall i :: 0 <= i < |r| ==> r[i] == LinkOf(G, p[i], p[i+1])
  {
    seq(|p| - 1, i requires 0 <= i < |p| - 1 => LinkOf(G, p[i], p[i+1]))
  }

  function Delays(links: seq<Interface>): (r: seq<nat>)
    ensures |r| == |links| && forall i :: 0 <= i < |r| ==> r[i] == links[i].delay
  {
    seq(|links|, i requires 0 <= i < |links| => links[i].delay)
  }

  /** The sending times of one payload: payload times 10^9 times 8 over the bandwidth, the products modulo 2^64. */
  function SendTimes(links: seq<Interface>, payload: nat): (r: seq<nat>)
    requires forall i :: 0 <= i < |links| ==> links[i].bw > 0
    ensures |r| == |links|
    ensures forall i :: 0 <= i < |r| ==>
              r[i] == payload * 1000000000 % 0x1_0000_0000_0000_0000 * 8 % 0x1_0000_0000_0000_0000 / links[i].bw
  {
    seq(|links|, i requires 0 <= i < |links| => TxTime(payload, links[i].bw))
  }

  function Total(s: seq<nat>): nat {
    if s == [] then 0 else Total(s[..|s|-1]) + s[|s|-1]
  }

  /** Delay and transmission delay are the sums over the links modulo 2^64; the bandwidth is the narrowest link's, or
      the largest 64-bit number without a link. */
  ghost predicate CostsOf(links: seq<Interface>, payload: nat, m: Metrics) {
    (forall i :: 0 <= i < |links| ==> links[i].bw > 0) &&
    m.delay == Total(Delays(links)) % 0x1_0000_0000_0000_0000 &&
    m.txDelay == Total(SendTimes(links, payload)) % 0x1_0000_0000_0000_0000 &&
    m.bw <= 0xffff_ffff_ffff_ffff && (forall i :: 0 <= i < |links| ==> m.bw <= links[i].bw) &&
    (m.bw == 0xffff_ffff_ffff_ffff || exists i :: 0 <= i < |links| && m.bw == links[i].bw)
  }

  lemma {:induction false} CostsNext(links: seq<Interface>, link: Interface, payload: nat, m: Metrics)
    requires CostsOf(links, payload, m) && link.bw > 0
    ensures CostsOf(links + [link], payload, AddLink(m, link, payload))
  {
    SumsNext(links, link, payload);
    AddModulo(Total(Delays(links)), link.delay);
    AddModulo(Total(SendTimes(links, payload)), TxTime(payload, link.bw));
    hide Total, TxTime;
    var (more, n) := (links + [link], AddLink(m, link, payload));
    if n.bw == link.bw {
      assert more[|links|].bw == n.bw;
    } else if i :| 0 <= i < |links| && m.bw == links[i].bw {
      assert more[i].bw == n.bw;
    }
  }

  lemma {:induction false} SumsNext(links: seq<Interface>, link: Interface, payload: nat)
    requires link.bw > 0 && forall i :: 0 <= i < |links| ==> links[i].bw > 0
    ensures Total(Delays(links + [link])) == Total(Delays(links)) + link.delay
    ensures Total(SendTimes(links + [link], payload)) == Total(SendTimes(links, payload)) + TxTime(payload, link.bw)
  {
    var more := links + [link];
    assert Delays(more)[..|links|] == Delays(links);
    assert SendTimes(more, payload)[..|links|] == SendTimes(links, payload);
  }

  lemma {:induction false} AddModulo(a: nat, b: nat)
    ensures (a % U64 + b) % U64 == (a + b) % U64
  {
    assert a == a / U64 * U64 + a % U64;
  }

  /** The metrics along a walk are the sums and the minimum over its links. */
  lemma {:induction false} AlongCosts(G: Net, host: Id, p: seq<Id>, payload: nat)
    requires WellFormed(G) && Relayed(G, host, p)
    ensures CostsOf(WalkLinks(G, p), payload, Along(G, host, p, payload))
    decreases |p|
  {
    if |p| > 1 {
      var front := p[..|p|-1];
      FrontRelayed(G, host, p);
      AlongCosts(G, host, front, payload);
      var link := LinkOf(G, p[|p|-2], p[|p|-1]);
      assert link.bw > 0;
      hide LinkOf, CostsOf, WellFormed, Up, AddLink;
      WalkNext(G, p, front);
      CostsNext(WalkLinks(G, front), link, payload, Along(G, host, front, payload));
    }
  }

  lemma {:induction false} WalkNext(G: Net, p: seq<Id>, front: seq<Id>)
    requires |p| > 1 && front == p[..|p|-1] && forall i :: 0 <= i < |p| - 1 ==> Up(G, p[i], p[i+1])
    ensures forall i :: 0 <= i < |front| - 1 ==> Up(G, front[i], front[i+1])
    ensures Up(G, p[|p|-2], p[|p|-1]) && WalkLinks(G, p) == WalkLinks(G, front) + [LinkOf(G, p[|p|-2], p[|p|-1])]
  {
    hide Up, LinkOf;
    assert Up(G, p[|p|-2], p[|p|-2+1]);
    forall i | 0 <= i < |front| - 1 ensures Up(G, front[i], front[i+1]) {
      assert Up(G, p[i], p[i+1]);
    }
    assert WalkLinks(G, p)[|p|-2] == LinkOf(G, p[|p|-2], p[|p|-2+1]);
  }
}

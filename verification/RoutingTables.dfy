/** Node addresses, forwarding tables, and taking a link down. */
module RoutingTables {
  import opened RoutingGraph

  // ---- addresses ----

  const U32: nat := 0x1_0000_0000

  /** The address of a node, in 32-bit arithmetic. */
  function NodeIdToIp(id: nat): nat {
    (0x0b000001 + id / 256 * 0x10000 + id % 256 * 0x100) % U32
  }

  function IpToNodeId(ip: nat): nat {
    ip / 0x100 % 0x10000
  }

  lemma {:induction false} IpIs(id: nat)
    ensures NodeIdToIp(id) == (0x0b000001 + 0x100 * id) % U32
  {
    assert id == id / 256 * 256 + id % 256;
  }

  /** Addresses tell nodes apart exactly up to 2^24. */
  lemma {:induction false} AddressesDistinct(i: nat, j: nat)
    ensures NodeIdToIp(i) == NodeIdToIp(j) <==> i % 0x100_0000 == j % 0x100_0000
  {
    IpRest(i);
    IpRest(j);
    hide NodeIdToIp;
    SameRest(0x0b0000, i, j);
  }

  lemma {:induction false} IpRest(id: nat)
    ensures NodeIdToIp(id) == 0x100 * ((0x0b0000 + id) % 0x100_0000) + 1
  {
    IpIs(id);
    hide NodeIdToIp;
    var x := 0x0b0000 + id;
    var (q, r) := (x / 0x100_0000, x % 0x100_0000);
    assert x == 0x100_0000 * q + r;
    assert 0x0b000001 + 0x100 * id == U32 * q + (0x100 * r + 1);
    RestIs(0x0b000001 + 0x100 * id, q, 0x100 * r + 1);
  }

  lemma {:induction false} RestIs(x: nat, q: nat, r: nat)
    requires x == U32 * q + r && r < U32
    ensures x % U32 == r
  {
  }

  lemma {:induction false} SameRest(a: nat, i: nat, j: nat)
    ensures (a + i) % 0x100_0000 == (a + j) % 0x100_0000 <==> i % 0x100_0000 == j % 0x100_0000
  {
    Apart(a + i, a + j);
    Apart(i, j);
  }

  lemma {:induction false} Apart(x: nat, y: nat)
    ensures x % 0x100_0000 == y % 0x100_0000 <==> (x - y) % 0x100_0000 == 0
  {
    assert x == x / 0x100_0000 * 0x100_0000 + x % 0x100_0000;
    assert y == y / 0x100_0000 * 0x100_0000 + y % 0x100_0000;
  }

  /** The node number comes back from its address exactly when it fits 16 bits. */
  lemma {:induction false} NodeIdRoundTrip(id: nat)
    ensures IpToNodeId(NodeIdToIp(id)) == id % 0x10000
    ensures IpToNodeId(NodeIdToIp(id)) == id <==> id < 0x10000
  {
    IpIs(id);
    hide NodeIdToIp;
    var x := 0x0b000001 + 0x100 * id;
    assert x == x / U32 * U32 + x % U32;
    assert id == id / 0x10000 * 0x10000 + id % 0x10000;
    assert x % U32 == 0x100 * (0x0b0000 + id - x / U32 * 0x100_0000) + 1;
    assert NodeIdToIp(id) / 0x100 == 0x0b0000 + id - x / U32 * 0x100_0000;
    assert 0x0b0000 + id - x / U32 * 0x100_0000 == (0x0b + id / 0x10000 - x / U32 * 0x100) * 0x10000 + id % 0x10000;
  }

  // ---- forwarding tables ----

  /** `nbr2if[x][w].idx`, 0 for a neighbour that is not there. */
  function IdxOf(row: seq<Interface>, w: Id): nat {
    if row == [] then 0 else if row[0].peer == w then row[0].idx else IdxOf(row[1..], w)
  }

  lemma {:induction false} IdxIs(row: seq<Interface>, i: nat)
    requires i < |row| && forall j :: 0 <= j < i ==> row[j].peer != row[i].peer
    ensures IdxOf(row, row[i].peer) == row[i].idx
  {
    if i > 0 {
      IdxIs(row[1..], i - 1);
    }
  }

  function Indices(row: seq<Interface>, hops: seq<Id>): (r: seq<nat>)
    ensures |r| == |hops| && forall k :: 0 <= k < |hops| ==> r[k] == IdxOf(row, hops[k])
  {
    seq(|hops|, k requires 0 <= k < |hops| => IdxOf(row, hops[k]))
  }

  type Table = map<nat, seq<nat>>

  function Ports(t: Table, ip: nat): seq<nat> {
    if ip in t then t[ip] else []
  }

  function AddTableEntry(t: Table, ip: nat, idx: nat): (r: Table)
    ensures forall a :: Ports(r, a) == Ports(t, a) + if a == ip then [idx] else []
  {
    t[ip := Ports(t, ip) + [idx]]
  }

  // ---- taking a link down ----

  /** `nbr2if[u][v].up = false`. */
  function Lower(nbr: seq<seq<Interface>>, u: Id, v: Id): (r: seq<seq<Interface>>)
    requires u < |nbr|
    ensures |r| == |nbr|
    ensures forall x :: 0 <= x < |nbr| ==> |r[x]| == |nbr[x]|
    ensures forall x, i :: 0 <= x < |nbr| && 0 <= i < |nbr[x]| ==>
              r[x][i] == if x == u && nbr[x][i].peer == v then nbr[x][i].(up := false) else nbr[x][i]
  {
    nbr[u := seq(|nbr[u]|, i requires 0 <= i < |nbr[u]| => if nbr[u][i].peer == v then nbr[u][i].(up := false)
                 else nbr[u][i])]
  }

  function Cut(G: Net, a: Id, b: Id): Net
    requires a < |G.nbr| && b < |G.nbr|
  {
    Net(G.switches, Lower(Lower(G.nbr, b, a), a, b))
  }

  /** Cutting a link takes away that link, in both directions, and nothing else. */
  lemma {:induction false} CutUp(G: Net, a: Id, b: Id, u: Id, v: Id)
    requires a < |G.nbr| && b < |G.nbr|
    ensures Up(Cut(G, a, b), u, v) <==> Up(G, u, v) && !(u == a && v == b) && !(u == b && v == a)
  {
    var H := Cut(G, a, b);
    if Up(G, u, v) && !(u == a && v == b) && !(u == b && v == a) {
      var i :| 0 <= i < |G.nbr[u]| && G.nbr[u][i].peer == v && G.nbr[u][i].up;
      assert H.nbr[u][i] == G.nbr[u][i];
    }
    if Up(H, u, v) {
      var i :| 0 <= i < |H.nbr[u]| && H.nbr[u][i].peer == v && H.nbr[u][i].up;
      assert G.nbr[u][i].peer == v && G.nbr[u][i].up;
    }
  }

  lemma {:induction false} CutWellFormed(G: Net, a: Id, b: Id)
    requires WellFormed(G) && a < |G.nbr| && b < |G.nbr|
    ensures WellFormed(Cut(G, a, b))
  {
    var H := Cut(G, a, b);
    forall u, v | Up(H, u, v) ensures Up(H, v, u) {
      CutUp(G, a, b, u, v);
      CutUp(G, a, b, v, u);
    }
  }
}

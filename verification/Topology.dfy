/** The controller's logical ports and the links of the emulated network, which are made in another order. */
module Topology {
  import opened Lists

  datatype Dev = Switch(id: nat) | Host(id: nat)

  datatype Port = Port(num: nat, dev: Dev)

  datatype Link = Link(a: Dev, b: Dev)

  /** A square matrix, of which only the part above the diagonal is read, and a 0/1 list of the switches with a host. */
  predicate Shaped(graph: seq<seq<int>>, hostList: seq<int>) {
    |hostList| == |graph| && forall i :: 0 <= i < |graph| ==> |graph[i]| == |graph|
  }

  // ---- links in the order they are made ----

  function When<T>(c: bool, x: T): seq<T> {
    if c then [x] else []
  }

  /** The far ends of the links at a device, in order: number k of them is reached through port k + 1. */
  function Peers(links: seq<Link>, x: Dev): seq<Dev> {
    if links == [] then [] else Peers(links[..|links|-1], x) + Ends(links[|links|-1], x)
  }

  function Ends(link: Link, x: Dev): seq<Dev> {
    When(link.a == x, link.b) + When(link.b == x, link.a)
  }

  lemma {:induction false} PeersAppend(l: seq<Link>, m: seq<Link>, x: Dev)
    ensures Peers(l + m, x) == Peers(l, x) + Peers(m, x)
  {
    hide Ends;
    if m == [] {
      assert l + m == l;
    } else {
      var front := m[..|m|-1];
      assert (l + m)[..|l+m|-1] == l + front;
      PeersAppend(l, front, x);
    }
  }

  lemma {:induction false} PeersOne(link: Link, x: Dev)
    ensures Peers([link], x) == Ends(link, x)
  {
    assert [link][..0] == [];
  }

  /** The links of switch i to the switches between i and k. */
  function Row(graph: seq<seq<int>>, i: nat, k: nat): seq<Link>
    requires i < |graph| && k <= |graph[i]|
  {
    if k <= i + 1 then [] else Row(graph, i, k - 1) + When(graph[i][k-1] == 1, Link(Switch(i), Switch(k - 1)))
  }

  function HostLink(hostList: seq<int>, i: nat): seq<Link>
    requires i < |hostList|
  {
    When(hostList[i] == 1, Link(Switch(i), Host(i)))
  }

  function SwitchLinks(graph: seq<seq<int>>, k: nat): seq<Link>
    requires k <= |graph| && forall i :: 0 <= i < |graph| ==> |graph[i]| == |graph|
  {
    if k == 0 then [] else SwitchLinks(graph, k - 1) + Row(graph, k - 1, |graph|)
  }

  function HostLinks(hostList: seq<int>, k: nat): seq<Link>
    requires k <= |hostList|
  {
    if k == 0 then [] else HostLinks(hostList, k - 1) + HostLink(hostList, k - 1)
  }

  /** The order of the controller: all links between switches, then those of the hosts. */
  function Logical(graph: seq<seq<int>>, hostList: seq<int>): seq<Link>
    requires Shaped(graph, hostList)
  {
    SwitchLinks(graph, |graph|) + HostLinks(hostList, |graph|)
  }

  /** The order of the emulated network: switch by switch, hosts included. */
  function Emulated(graph: seq<seq<int>>, hostList: seq<int>, k: nat): seq<Link>
    requires Shaped(graph, hostList) && k <= |graph|
  {
    if k == 0 then [] else Emulated(graph, hostList, k - 1) + (Row(graph, k - 1, |graph|) + HostLink(hostList, k - 1))
  }

  // ---- the far ends at one device ----

  function Below(graph: seq<seq<int>>, x: nat, k: nat): seq<Dev>
    requires k <= x < |graph| && forall i :: 0 <= i < |graph| ==> |graph[i]| == |graph|
  {
    if k == 0 then [] else Below(graph, x, k - 1) + When(graph[k-1][x] == 1, Switch(k - 1))
  }

  function Above(graph: seq<seq<int>>, x: nat, k: nat): seq<Dev>
    requires x < |graph| && k <= |graph[x]|
  {
    if k <= x + 1 then [] else Above(graph, x, k - 1) + When(graph[x][k-1] == 1, Switch(k - 1))
  }

  lemma {:induction false} PeersWhen(c: bool, link: Link, x: Dev)
    ensures Peers(When(c, link), x) == if c then Ends(link, x) else []
  {
    PeersOne(link, x);
  }

  lemma {:induction false} PeersNone(x: Dev)
    ensures Peers([], x) == []
  {
  }

  lemma {:induction false} EndsAre(link: Link, x: Dev)
    requires link.a != link.b
    ensures Ends(link, x) == if x == link.a then [link.b] else if x == link.b then [link.a] else []
  {
  }

  /** `s + t` without the empty parts. */
  lemma {:induction false} Empties<T>(s: seq<T>)
    ensures s + [] == s && [] + s == s
  {
  }

  lemma {:induction false} PeersOfRow(graph: seq<seq<int>>, i: nat, k: nat, x: Dev)
    requires i < |graph| && k <= |graph[i]|
    ensures Peers(Row(graph, i, k), x) ==
            if x == Switch(i) then Above(graph, i, k)
              else When(x.Switch? && i < x.id < k && graph[i][x.id] == 1, Switch(i))
  {
    hide Peers, Ends;
    if k <= i + 1 {
      PeersNone(x);
    } else {
      PeersOfRow(graph, i, k - 1, x);
      var (c, rest, link) := (graph[i][k-1] == 1, Row(graph, i, k - 1), Link(Switch(i), Switch(k - 1)));
      PeersAppend(rest, When(c, link), x);
      PeersWhen(c, link, x);
      EndsAre(link, x);
      hide Row;
      Empties(Peers(rest, x));
      if x == Switch(i) {
        assert Peers(When(c, link), x) == When(c, Switch(k - 1));
      } else if x == Switch(k - 1) {
        assert Peers(rest, x) == [] && Peers(When(c, link), x) == When(c, Switch(i));
        Empties(When(c, Switch(i)));
      } else {
        assert Peers(When(c, link), x) == [];
      }
    }
  }

  /** What the first `k` switches and the first `h` hosts contribute at a device. */
  function Contributed(graph: seq<seq<int>>, hostList: seq<int>, x: Dev, k: nat, h: nat): seq<Dev>
    requires Shaped(graph, hostList) && k <= |graph| && h <= |graph|
  {
    match x
    case Switch(i) =>
      if i >= |graph| then []
      else if k <= i then Below(graph, i, k) + When(i < h && hostList[i] == 1, Host(i))
      else Below(graph, i, i) + Above(graph, i, |graph|) + When(i < h && hostList[i] == 1, Host(i))
    case Host(i) => When(i < h && hostList[i] == 1, Switch(i))
  }

  lemma {:induction false} SwitchesContribute(graph: seq<seq<int>>, hostList: seq<int>, x: Dev, k: nat)
    requires Shaped(graph, hostList) && k <= |graph|
    ensures Peers(SwitchLinks(graph, k), x) == Contributed(graph, hostList, x, k, 0)
  {
    hide Peers, Ends, Row, Above, When;
    if k == 0 {
      PeersNone(x);
      NothingYet(graph, hostList, x);
    } else {
      SwitchesContribute(graph, hostList, x, k - 1);
      PeersAppend(SwitchLinks(graph, k - 1), Row(graph, k - 1, |graph|), x);
      PeersOfRow(graph, k - 1, |graph|, x);
      RowContributes(graph, hostList, x, k, 0);
    }
  }

  lemma {:induction false} NothingYet(graph: seq<seq<int>>, hostList: seq<int>, x: Dev)
    requires Shaped(graph, hostList)
    ensures Contributed(graph, hostList, x, 0, 0) == []
  {
  }

  lemma {:induction false} RowContributes(graph: seq<seq<int>>, hostList: seq<int>, x: Dev, k: nat, h: nat)
    requires Shaped(graph, hostList) && 0 < k <= |graph| && h < k
    ensures Contributed(graph, hostList, x, k, h) == Contributed(graph, hostList, x, k - 1, h) +
              (if x == Switch(k - 1) then Above(graph, k - 1, |graph|)
               else When(x.Switch? && k - 1 < x.id < |graph| && graph[k-1][x.id] == 1, Switch(k - 1)))
  {
    hide Above;
  }

  lemma {:induction false} HostContributes(graph: seq<seq<int>>, hostList: seq<int>, x: Dev, k: nat)
    requires Shaped(graph, hostList) && 0 < k <= |graph|
    ensures Contributed(graph, hostList, x, k, k) == Contributed(graph, hostList, x, k, k - 1) +
              When(x.id == k - 1 && hostList[k-1] == 1, if x.Switch? then Host(k - 1) else Switch(k - 1))
  {
    hide Above, Below;
  }

  lemma {:induction false} PeersOfHostLink(hostList: seq<int>, i: nat, x: Dev)
    requires i < |hostList|
    ensures Peers(HostLink(hostList, i), x) ==
            When(x.id == i && hostList[i] == 1, if x.Switch? then Host(i) else Switch(i))
  {
    hide Peers, Ends;
    PeersWhen(hostList[i] == 1, Link(Switch(i), Host(i)), x);
    EndsAre(Link(Switch(i), Host(i)), x);
  }

  lemma {:induction false} HostsContribute(hostList: seq<int>, x: Dev, h: nat)
    requires h <= |hostList|
    ensures Peers(HostLinks(hostList, h), x) ==
            When(x.id < h && hostList[x.id] == 1, if x.Switch? then Host(x.id) else Switch(x.id))
  {
    hide Peers, HostLink;
    if h == 0 {
      PeersNone(x);
    } else {
      HostsContribute(hostList, x, h - 1);
      PeersAppend(HostLinks(hostList, h - 1), HostLink(hostList, h - 1), x);
      PeersOfHostLink(hostList, h - 1, x);
      Empties(Peers(HostLinks(hostList, h - 1), x));
    }
  }

  lemma {:induction false} EmulatedContribute(graph: seq<seq<int>>, hostList: seq<int>, x: Dev, k: nat)
    requires Shaped(graph, hostList) && k <= |graph|
    ensures Peers(Emulated(graph, hostList, k), x) == Contributed(graph, hostList, x, k, k)
  {
    hide Peers, Ends, Row, Above, When, HostLink, Contributed;
    if k == 0 {
      PeersNone(x);
      NothingYet(graph, hostList, x);
    } else {
      EmulatedContribute(graph, hostList, x, k - 1);
      var (before, row, link) := (Emulated(graph, hostList, k - 1), Row(graph, k - 1, |graph|),
                                  HostLink(hostList, k - 1));
      PeersAppend(before, row + link, x);
      PeersAppend(row, link, x);
      PeersOfRow(graph, k - 1, |graph|, x);
      PeersOfHostLink(hostList, k - 1, x);
      RowContributes(graph, hostList, x, k, k - 1);
      HostContributes(graph, hostList, x, k);
      Associate(Peers(before, x), Peers(row, x), Peers(link, x));
    }
  }

  lemma {:induction false} Associate<T>(r: seq<T>, s: seq<T>, t: seq<T>)
    ensures r + (s + t) == r + s + t
  {
  }

  /** Every device sees its links in the same order, although the two orders of the links differ. */
  lemma {:induction false} SamePorts(graph: seq<seq<int>>, hostList: seq<int>, x: Dev)
    requires Shaped(graph, hostList)
    ensures Peers(Emulated(graph, hostList, |graph|), x) == Peers(Logical(graph, hostList), x)
    ensures Peers(Emulated(graph, hostList, |graph|), x) == Contributed(graph, hostList, x, |graph|, |graph|)
  {
    hide Peers, Row, Above, Below;
    EmulatedContribute(graph, hostList, x, |graph|);
    SwitchesContribute(graph, hostList, x, |graph|);
    HostsContribute(hostList, x, |graph|);
    PeersAppend(SwitchLinks(graph, |graph|), HostLinks(hostList, |graph|), x);
  }

  // ---- who is linked to whom ----

  /** A link of the topology, as the matrix part above the diagonal and the host list give it. */
  predicate Linked(graph: seq<seq<int>>, hostList: seq<int>, x: Dev, y: Dev)
    requires Shaped(graph, hostList)
  {
    match (x, y)
    case (Switch(i), Switch(j)) => i < |graph| && j < |graph| &&
         ((i < j && graph[i][j] == 1) || (j < i && graph[j][i] == 1))
    case (Switch(i), Host(j)) => i == j && i < |graph| && hostList[i] == 1
    case (Host(i), Switch(j)) => i == j && i < |graph| && hostList[i] == 1
    case (Host(_), Host(_)) => false
  }

  lemma {:induction false} BelowHolds(graph: seq<seq<int>>, x: nat, k: nat, y: Dev)
    requires k <= x < |graph| && forall i :: 0 <= i < |graph| ==> |graph[i]| == |graph|
    ensures y in Below(graph, x, k) <==> y.Switch? && y.id < k && graph[y.id][x] == 1
  {
    if k > 0 {
      BelowHolds(graph, x, k - 1, y);
    }
  }

  lemma {:induction false} AboveHolds(graph: seq<seq<int>>, x: nat, k: nat, y: Dev)
    requires x < |graph| && k <= |graph[x]|
    ensures y in Above(graph, x, k) <==> y.Switch? && x < y.id < k && graph[x][y.id] == 1
  {
    if k > x + 1 {
      AboveHolds(graph, x, k - 1, y);
    }
  }

  /** The far ends at a device are exactly the devices it is linked to. */
  lemma {:induction false} PeersAreLinked(graph: seq<seq<int>>, hostList: seq<int>, x: Dev, y: Dev)
    requires Shaped(graph, hostList)
    ensures y in Contributed(graph, hostList, x, |graph|, |graph|) <==> Linked(graph, hostList, x, y)
  {
    if x.Switch? && x.id < |graph| {
      BelowHolds(graph, x.id, x.id, y);
      AboveHolds(graph, x.id, |graph|, y);
    }
  }
}

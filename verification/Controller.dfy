/** Devices, the controller that numbers their ports, the emulated network, and port lists for source routing. */
module Controller {
  import opened Lists
  import opened Topology

  function Numbered(peers: seq<Dev>): (r: seq<Port>)
    ensures |r| == |peers| && forall k :: 0 <= k < |r| ==> r[k] == Port(k + 1, peers[k])
  {
    seq(|peers|, k requires 0 <= k < |peers| => Port(k + 1, peers[k]))
  }

  class Device {
    const name: Dev
    var ports: seq<Port>
    var portSum: nat

    constructor (name: Dev)
      ensures this.name == name && Has([])
    {
      this.name := name;
      ports, portSum := [], 0;
    }

    ghost predicate Has(peers: seq<Dev>)
      reads this
    {
      portSum == |peers| && ports == Numbered(peers)
    }

    method AddLink(dev: Dev, ghost peers: seq<Dev>)
      requires Has(peers)
      modifies this
      ensures Has(peers + [dev])
    {
      portSum := portSum + 1;
      ports := ports + [Port(portSum, dev)];
    }
  }

  /** The first port number that leads to `y`. */
  function FirstPort(peers: seq<Dev>, y: Dev): (r: Option<nat>)
    ensures r.Some? <==> y in peers
    ensures r.Some? ==> 1 <= r.value <= |peers| && peers[r.value-1] == y && y !in peers[..r.value-1]
  {
    if peers == [] then None
    else if peers[0] == y then Some(1)
    else match FirstPort(peers[1..], y) case None => None case Some(k) => Some(k + 1)
  }

  lemma {:induction false} FirstPortIs(peers: seq<Dev>, y: Dev, k: nat)
    requires k < |peers| && peers[k] == y && forall i :: 0 <= i < k ==> peers[i] != y
    ensures FirstPort(peers, y) == Some(k + 1)
  {
  }

  class Ctrl {
    const graph: seq<seq<int>>
    const hostList: seq<int>
    var switches: seq<Device>
    var hosts: seq<Device?>

    /** `genDevice`. */
    constructor (graph: seq<seq<int>>, hostList: seq<int>)
      requires Shaped(graph, hostList)
      ensures this.graph == graph && this.hostList == hostList && Valid() && Wired([])
      ensures fresh(switches) && fresh(set h | h in hosts && h != null)
    {
      this.graph, this.hostList := graph, hostList;
      switches, hosts := [], [];
      new;
      for i := 0 to |graph|
        invariant |switches| == |hosts| == i && Apart() && fresh(switches) && fresh(set h | h in hosts && h != null)
        invariant forall x :: 0 <= x < i ==> switches[x].name == Switch(x) && switches[x].Has([])
        invariant forall x :: 0 <= x < i ==> (hosts[x] != null <==> hostList[x] == 1)
        invariant forall x :: 0 <= x < i && hosts[x] != null ==> hosts[x].name == Host(x) && hosts[x].Has([])
      {
        var s, h := MakeDevice(i);
        switches, hosts := switches + [s], hosts + [h];
      }
    }

    /** The loop body of `genDevice`. */
    method MakeDevice(i: nat) returns (s: Device, h: Device?)
      requires i < |hostList|
      ensures fresh(s) && s.name == Switch(i) && s.Has([])
      ensures h != null <==> hostList[i] == 1
      ensures h != null ==> fresh(h) && h != s && h.name == Host(i) && h.Has([])
    {
      s := new Device(Switch(i));
      h := null;
      if hostList[i] == 1 {
        h := new Device(Host(i));
      }
    }

    /** No device is listed twice. */
    ghost predicate Apart()
      reads this
    {
      (forall x, y :: 0 <= x < y < |switches| ==> switches[x] != switches[y]) &&
      (forall x, y :: 0 <= x < y < |hosts| && hosts[x] != null ==> hosts[x] != hosts[y]) &&
      forall x, y :: 0 <= x < |switches| && 0 <= y < |hosts| ==> switches[x] != hosts[y]
    }

    ghost predicate Valid()
      reads this
    {
      Shaped(graph, hostList) && |switches| == |hosts| == |graph| && Apart() &&
      (forall x :: 0 <= x < |graph| ==> switches[x].name == Switch(x)) &&
      (forall x :: 0 <= x < |graph| ==> (hosts[x] != null <==> hostList[x] == 1)) &&
      forall x :: 0 <= x < |graph| && hosts[x] != null ==> hosts[x].name == Host(x)
    }

    ghost function Devices(): set<Device?>
      reads this
    {
      (set s: Device? | s in switches) + (set h: Device? | h in hosts && h != null)
    }

    /** The ports of every device are those that making `links` in this order gives. */
    ghost predicate Wired(links: seq<Link>)
      requires Valid()
      reads this, Devices()
    {
      (forall x :: 0 <= x < |graph| ==> switches[x].Has(Peers(links, Switch(x)))) &&
      forall x :: 0 <= x < |graph| && hosts[x] != null ==> hosts[x].Has(Peers(links, Host(x)))
    }

    method LinkSwitches(i: nat, j: nat, ghost links: seq<Link>)
      requires Valid() && Wired(links) && i < j < |graph|
      modifies Devices()
      ensures Valid() && Wired(links + [Link(Switch(i), Switch(j))])
    {
      hide Peers;
      ghost var link := Link(Switch(i), Switch(j));
      OneMore(links, link);
      switches[i].AddLink(Switch(j), Peers(links, Switch(i)));
      switches[j].AddLink(Switch(i), Peers(links, Switch(j)));
    }

    method LinkHost(i: nat, ghost links: seq<Link>)
      requires Valid() && Wired(links) && i < |graph| && hosts[i] != null
      modifies Devices()
      ensures Valid() && Wired(links + [Link(Switch(i), Host(i))])
    {
      hide Peers;
      OneMore(links, Link(Switch(i), Host(i)));
      hosts[i].AddLink(Switch(i), Peers(links, Host(i)));
      switches[i].AddLink(Host(i), Peers(links, Switch(i)));
    }

    method LinkRow(i: nat, ghost links: seq<Link>)
      requires Valid() && i < |graph| && Wired(links)
      modifies Devices()
      ensures Valid() && Wired(links + Row(graph, i, |graph|))
    {
      hide Peers, Wired, Devices, Row, When, Apart;
      RowNext(graph, links, i, i);
      for j := i + 1 to |graph|
        invariant Valid() && Wired(links + Row(graph, i, j))
      {
        RowNext(graph, links, i, j);
        if graph[i][j] == 1 {
          LinkSwitches(i, j, links + Row(graph, i, j));
        }
      }
    }

    method LinkHosts(ghost links: seq<Link>)
      requires Valid() && Wired(links)
      modifies Devices()
      ensures Valid() && Wired(links + HostLinks(hostList, |graph|))
    {
      hide Peers, Wired, Devices;
      Empties(links);
      for i := 0 to |graph|
        invariant Valid() && Wired(links + HostLinks(hostList, i))
      {
        Associate(links, HostLinks(hostList, i), HostLink(hostList, i));
        Empties(links + HostLinks(hostList, i));
        if hostList[i] == 1 {
          LinkHost(i, links + HostLinks(hostList, i));
        }
      }
    }

    /** `genLinks`. */
    method GenLinks()
      requires Valid() && Wired([])
      modifies Devices()
      ensures Valid() && Wired(Logical(graph, hostList))
    {
      hide Peers, Wired, Devices, Row;
      for i := 0 to |graph|
        invariant Valid() && Wired(SwitchLinks(graph, i))
      {
        LinkRow(i, SwitchLinks(graph, i));
      }
      LinkHosts(SwitchLinks(graph, |graph|));
    }

    // ---- port lists ----

    /** `getDevPortByName`: the first port of a switch or host that leads to `y`; `None` for the exception at the host
        of a switch without one. */
    method GetDevPortByName(x: Dev, y: Dev, ghost links: seq<Link>) returns (r: Option<Option<nat>>)
      requires Valid() && Wired(links) && x.id < |graph|
      ensures Valid() && Wired(links)
      ensures r == if x.Host? && hostList[x.id] != 1 then None else Some(FirstPort(Peers(links, x), y))
    {
      hide Peers;
      if x.Host? && hosts[x.id] == null {
        return None;
      }
      var device := if x.Switch? then switches[x.id] else hosts[x.id];
      var port := SearchPorts(device, y, Peers(links, x));
      r := Some(port);
    }

    /** The search loop of `getDevPortByName`. */
    static method SearchPorts(device: Device, y: Dev, ghost peers: seq<Dev>) returns (r: Option<nat>)
      requires device.Has(peers)
      ensures r == FirstPort(peers, y)
    {
      for k := 0 to |device.ports|
        invariant forall i :: 0 <= i < k ==> peers[i] != y
      {
        if device.ports[k].dev == y {
          FirstPortIs(peers, y, k);
          return Some(device.ports[k].num);
        }
      }
      r := None;
    }

    /** The port list of one path: from switch to switch, and to the host of the last one. */
    method PortsList(path: seq<nat>, ghost links: seq<Link>) returns (ports: seq<Option<nat>>)
      requires Valid() && Wired(links) && OnGraph(path, |graph|)
      ensures ports == RoutePorts(links, path)
    {
      hide Peers, FirstPort, Valid, Wired, Devices;
      ports := [];
      for i := 0 to |path| - 1
        invariant Valid() && Wired(links)
        invariant ports == RoutePorts(links, path)[..i]
      {
        var port := GetDevPortByName(Switch(path[i]), Switch(path[i+1]), links);
        ports := ports + [port.value];
      }
      var last := GetDevPortByName(Switch(path[|path|-1]), Host(path[|path|-1]), links);
      ports := ports + [last.value];
    }

    /** What is sent to each start node; `None` for the exception at a path whose last switch has no host. */
    method TraversePaths(paths: seq<seq<nat>>, ghost links: seq<Link>) returns (r: Option<map<nat, Orders>>)
      requires Valid() && Wired(links) && AllOnGraph(paths, |graph|)
      ensures r.None? <==> exists k :: 0 <= k < |paths| && hostList[paths[k][|paths[k]|-1]] != 1
      ensures r.Some? ==> Starts(r.value, paths, |paths|) && Ordered(r.value, links, paths)
    {
      hide Peers, FirstPort, RoutePorts, Starts, Ordered;
      var dict := StartNodes(paths);
      for i := 0 to |paths|
        invariant forall k :: 0 <= k < i ==> hostList[paths[k][|paths[k]|-1]] == 1
        invariant Starts(dict, paths, |paths|) && AllOnGraph(paths[..i], |graph|) && Ordered(dict, links, paths[..i])
      {
        var path := paths[i];
        PathOnGraph(paths, |graph|, i);
        var portsList := PortsList(path, links);
        if hosts[path[|path|-1]] == null {
          return None;
        }
        StartIn(dict, paths, i, Orders([], []));
        var orders := dict[path[0]].Add(portsList, path[|path|-1]);
        StartIn(dict, paths, i, orders);
        MoreOrders(dict, links, paths, i);
        dict := dict[path[0] := orders];
      }
      assert paths[..|paths|] == paths;
      r := Some(dict);
    }
  }

  /** The loop that makes an empty entry for every start node. */
  method StartNodes(paths: seq<seq<nat>>) returns (dict: map<nat, Orders>)
    requires forall k :: 0 <= k < |paths| ==> |paths[k]| > 0
    ensures Starts(dict, paths, |paths|) && Ordered(dict, [], []) && forall links :: Ordered(dict, links, paths[..0])
  {
    dict := map[];
    for i := 0 to |paths|
      invariant Starts(dict, paths, i)
      invariant forall node: nat :: node in dict ==> dict[node] == Orders([], [])
    {
      dict := dict[paths[i][0] := Orders([], [])];
    }
  }

  /** The entries are those of the start nodes of the first `n` paths. */
  ghost predicate Starts(dict: map<nat, Orders>, paths: seq<seq<nat>>, n: nat) {
    n <= |paths| && (forall k :: 0 <= k < n ==> |paths[k]| > 0) &&
    forall node: nat :: node in dict <==> exists k :: 0 <= k < n && paths[k][0] == node
  }

  /** Every entry has the orders for its node, in the order of the paths. */
  ghost predicate Ordered(dict: map<nat, Orders>, links: seq<Link>, paths: seq<seq<nat>>) {
    (forall k :: 0 <= k < |paths| ==> |paths[k]| > 0) &&
    forall node: nat :: node in dict ==> OrdersFor(links, paths, node, dict[node])
  }

  lemma {:induction false} PathOnGraph(paths: seq<seq<nat>>, n: nat, i: nat)
    requires i < |paths| && AllOnGraph(paths, n)
    ensures OnGraph(paths[i], n)
  {
  }

  lemma {:induction false} StartIn(dict: map<nat, Orders>, paths: seq<seq<nat>>, i: nat, o: Orders)
    requires i < |paths| && Starts(dict, paths, |paths|)
    ensures |paths[i]| > 0 && paths[i][0] in dict
    ensures Starts(dict[paths[i][0] := o], paths, |paths|)
  {
  }

  lemma {:induction false} MoreOrders(dict: map<nat, Orders>, links: seq<Link>, paths: seq<seq<nat>>, i: nat)
    requires i < |paths| && |paths[i]| > 0 && paths[i][0] in dict && Ordered(dict, links, paths[..i])
    ensures var (path, node) := (paths[i], paths[i][0]);
            Ordered(dict[node := dict[node].Add(RoutePorts(links, path), path[|path|-1])], links, paths[..i+1])
  {
    hide RoutePorts, OrdersFor;
    var (path, start) := (paths[i], paths[i][0]);
    var next := dict[start := dict[start].Add(RoutePorts(links, path), path[|path|-1])];
    assert paths[..i+1] == paths[..i] + [path];
    forall node: nat | node in next ensures OrdersFor(links, paths[..i+1], node, next[node]) {
      OrdersNext(links, paths[..i], path, node, dict[node]);
    }
  }

  /** One more link of a row, or none. */
  lemma {:induction false} RowNext(graph: seq<seq<int>>, links: seq<Link>, i: nat, j: nat)
    requires i <= j < |graph| && |graph[i]| == |graph|
    ensures i == j ==> links + Row(graph, i, j + 1) == links
    ensures i < j && graph[i][j] == 1 ==>
            links + Row(graph, i, j + 1) == links + Row(graph, i, j) + [Link(Switch(i), Switch(j))]
    ensures i < j && graph[i][j] != 1 ==> links + Row(graph, i, j + 1) == links + Row(graph, i, j)
  {
  }

  predicate OnGraph(path: seq<nat>, n: nat) {
    |path| > 0 && forall i :: 0 <= i < |path| ==> path[i] < n
  }

  predicate AllOnGraph(paths: seq<seq<nat>>, n: nat) {
    (forall k :: 0 <= k < |paths| ==> |paths[k]| > 0) &&
    forall k, i :: 0 <= k < |paths| && 0 <= i < |paths[k]| ==> paths[k][i] < n
  }

  /** The devices a path visits: its switches, then the host of the last one. */
  function Itinerary(path: seq<nat>): (r: seq<Dev>)
    requires |path| > 0
    ensures |r| == |path| + 1
    ensures forall i :: 0 <= i < |path| ==> r[i] == Switch(path[i])
    ensures r[|path|] == Host(path[|path|-1])
  {
    seq(|path| + 1, i requires 0 <= i < |path| + 1 => if i < |path| then Switch(path[i]) else Host(path[i-1]))
  }

  function RoutePorts(links: seq<Link>, path: seq<nat>): (r: seq<Option<nat>>)
    requires |path| > 0
    ensures |r| == |path| && forall i :: 0 <= i < |r| ==>
            r[i] == FirstPort(Peers(links, Itinerary(path)[i]), Itinerary(path)[i+1])
  {
    seq(|path|, i requires 0 <= i < |path| => FirstPort(Peers(links, Itinerary(path)[i]), Itinerary(path)[i+1]))
  }

  /** `portsLists` and `addressList` of one start node; a host stands for its address. */
  datatype Orders = Orders(portsLists: seq<seq<Option<nat>>>, addresses: seq<nat>) {
    function Add(ports: seq<Option<nat>>, host: nat): Orders {
      Orders(portsLists + [ports], addresses + [host])
    }
  }

  /** How many of the first `i` paths start at `node`. */
  function Earlier(paths: seq<seq<nat>>, node: nat, i: nat): nat
    requires i <= |paths| && forall k :: 0 <= k < |paths| ==> |paths[k]| > 0
  {
    if i == 0 then 0 else Earlier(paths, node, i - 1) + if paths[i-1][0] == node then 1 else 0
  }

  /** One port list and one address for each path that starts at `node`, in the order of the paths: the ports of that
      path, and the host of its last switch. */
  ghost predicate OrdersFor(links: seq<Link>, paths: seq<seq<nat>>, node: nat, o: Orders)
    requires forall k :: 0 <= k < |paths| ==> |paths[k]| > 0
  {
    |o.portsLists| == |o.addresses| == Earlier(paths, node, |paths|) &&
    forall i :: 0 <= i < |paths| && paths[i][0] == node ==> OrderAt(links, paths, node, o, i)
  }

  /** Path `i` has its ports and its address where the earlier paths from `node` end. */
  ghost predicate OrderAt(links: seq<Link>, paths: seq<seq<nat>>, node: nat, o: Orders, i: nat)
    requires i < |paths| && forall k :: 0 <= k < |paths| ==> |paths[k]| > 0
  {
    var m := Earlier(paths, node, i);
    m < |o.portsLists| && m < |o.addresses| && o.portsLists[m] == RoutePorts(links, paths[i]) &&
    o.addresses[m] == paths[i][|paths[i]|-1]
  }

  lemma {:induction false} EarlierGrows(paths: seq<seq<nat>>, node: nat, i: nat, n: nat)
    requires i <= n <= |paths| && forall k :: 0 <= k < |paths| ==> |paths[k]| > 0
    ensures Earlier(paths, node, i) <= Earlier(paths, node, n)
    ensures i < n && paths[i][0] == node ==> Earlier(paths, node, i) < Earlier(paths, node, n)
  {
    if i < n {
      EarlierGrows(paths, node, i, n - 1);
    }
  }

  lemma {:induction false} EarlierFront(paths: seq<seq<nat>>, front: seq<seq<nat>>, node: nat, i: nat)
    requires i <= |front| <= |paths| && front == paths[..|front|] && forall k :: 0 <= k < |paths| ==> |paths[k]| > 0
    ensures Earlier(front, node, i) == Earlier(paths, node, i)
  {
    if i > 0 {
      EarlierFront(paths, front, node, i - 1);
    }
  }

  /** One more path, and its order when it starts at `node`. */
  lemma {:induction false} OrdersNext(links: seq<Link>, front: seq<seq<nat>>, path: seq<nat>, node: nat, o: Orders)
    requires (forall k :: 0 <= k < |front| ==> |front[k]| > 0) && |path| > 0 && OrdersFor(links, front, node, o)
    ensures OrdersFor(links, front + [path], node,
                      if path[0] == node then o.Add(RoutePorts(links, path), path[|path|-1]) else o)
  {
    hide RoutePorts;
    var paths := front + [path];
    var next := if path[0] == node then o.Add(RoutePorts(links, path), path[|path|-1]) else o;
    EarlierFront(paths, front, node, |front|);
    forall i | 0 <= i < |paths| && paths[i][0] == node ensures OrderAt(links, paths, node, next, i) {
      EarlierFront(paths, front, node, if i < |front| then i else |front|);
      if i < |front| {
        assert OrderAt(links, front, node, o, i);
      }
    }
  }

  // ---- the emulated network ----

  /** The links made for one switch from its logical ports: to later switches and to its host. */
  function Emit(i: nat, peers: seq<Dev>): seq<Link> {
    if peers == [] then [] else Emit(i, peers[..|peers|-1]) + EmitOne(i, peers[|peers|-1])
  }

  function EmitOne(i: nat, y: Dev): seq<Link> {
    When(y.Host? || i < y.id, Link(Switch(i), y))
  }

  lemma {:induction false} EmitAppend(i: nat, p: seq<Dev>, q: seq<Dev>)
    ensures Emit(i, p + q) == Emit(i, p) + Emit(i, q)
  {
    if q == [] {
      assert p + q == p;
    } else {
      var front := q[..|q|-1];
      assert (p + q)[..|p+q|-1] == p + front;
      EmitAppend(i, p, front);
    }
  }

  lemma {:induction false} EmitNone(i: nat)
    ensures Emit(i, []) == []
  {
  }

  lemma {:induction false} EmitWhen(i: nat, c: bool, y: Dev)
    ensures Emit(i, When(c, y)) == if c then EmitOne(i, y) else []
  {
    assert [y][..0] == [];
  }

  lemma {:induction false} EmitBelow(graph: seq<seq<int>>, i: nat, k: nat)
    requires k <= i < |graph| && forall x :: 0 <= x < |graph| ==> |graph[x]| == |graph|
    ensures Emit(i, Below(graph, i, k)) == []
  {
    hide Emit;
    if k == 0 {
      EmitNone(i);
    } else {
      EmitBelow(graph, i, k - 1);
      EmitAppend(i, Below(graph, i, k - 1), When(graph[k-1][i] == 1, Switch(k - 1)));
      EmitWhen(i, graph[k-1][i] == 1, Switch(k - 1));
    }
  }

  lemma {:induction false} EmitAbove(graph: seq<seq<int>>, i: nat, k: nat)
    requires i < |graph| && k <= |graph[i]|
    ensures Emit(i, Above(graph, i, k)) == Row(graph, i, k)
  {
    hide Emit;
    if k <= i + 1 {
      EmitNone(i);
    } else {
      EmitAbove(graph, i, k - 1);
      EmitAppend(i, Above(graph, i, k - 1), When(graph[i][k-1] == 1, Switch(k - 1)));
      EmitWhen(i, graph[i][k-1] == 1, Switch(k - 1));
    }
  }

  lemma {:induction false} EmitAll(graph: seq<seq<int>>, hostList: seq<int>, i: nat)
    requires Shaped(graph, hostList) && i < |graph|
    ensures Emit(i, Contributed(graph, hostList, Switch(i), |graph|, |graph|)) ==
            Row(graph, i, |graph|) + HostLink(hostList, i)
  {
    hide Emit, Row, Above, Below;
    var (low, high, host) := (Below(graph, i, i), Above(graph, i, |graph|), When(hostList[i] == 1, Host(i)));
    EmitAppend(i, low + high, host);
    EmitAppend(i, low, high);
    EmitBelow(graph, i, i);
    EmitAbove(graph, i, |graph|);
    EmitWhen(i, hostList[i] == 1, Host(i));
  }

  /** The link-adding loops of `MakeSwitchTopo`, over the ports the controller has. */
  method MakeSwitchTopo(c: Ctrl) returns (links: seq<Link>)
    requires c.Valid() && c.Wired(Logical(c.graph, c.hostList))
    ensures links == Emulated(c.graph, c.hostList, |c.graph|)
  {
    hide Peers, Emit, Row, Above, Below, Logical, HostLink, Contributed;
    links := [];
    ghost var made := Logical(c.graph, c.hostList);
    for i := 0 to |c.switches|
      invariant links == Emulated(c.graph, c.hostList, i)
    {
      SamePorts(c.graph, c.hostList, Switch(i));
      EmitAll(c.graph, c.hostList, i);
      var more := AddPorts(c.switches[i], i, Peers(made, Switch(i)));
      links := links + more;
    }
  }

  method AddPorts(device: Device, i: nat, ghost peers: seq<Dev>) returns (links: seq<Link>)
    requires device.Has(peers)
    ensures links == Emit(i, peers)
  {
    links := [];
    for j := 0 to device.portSum
      invariant links == Emit(i, peers[..j])
    {
      assert peers[..j+1][..j] == peers[..j];
      var y := device.ports[j].dev;
      if y.Switch? {
        if i < y.id {
          links := links + [Link(Switch(i), y)];
        }
      } else {
        links := links + [Link(Switch(i), y)];
      }
    }
    assert peers[..|peers|] == peers;
  }

  // ---- following a port list ----

  /** The devices a packet visits when every switch sends it out of the port named next; it stops at a port that is
      not there. */
  ghost function Follow(links: seq<Link>, x: Dev, ports: seq<nat>): seq<Dev>
    decreases |ports|
  {
    if ports == [] || !(1 <= ports[0] <= |Peers(links, x)|) then [x]
    else [x] + Follow(links, Peers(links, x)[ports[0]-1], ports[1..])
  }

  /** Consecutive switches are linked and the last one has a host. */
  predicate ValidPath(graph: seq<seq<int>>, hostList: seq<int>, path: seq<nat>)
    requires Shaped(graph, hostList) && |path| > 0
  {
    forall i :: 0 <= i < |path| ==> Linked(graph, hostList, Itinerary(path)[i], Itinerary(path)[i+1])
  }

  ghost predicate AllPorts(found: seq<Option<nat>>, ports: seq<nat>) {
    |ports| == |found| && forall i :: 0 <= i < |found| ==> found[i] == Some(ports[i])
  }

  lemma {:induction false} FollowPorts(links: seq<Link>, devs: seq<Dev>, ports: seq<nat>)
    requires |devs| == |ports| + 1
    requires forall i :: 0 <= i < |ports| ==> Leads(links, devs[i], ports[i], devs[i+1])
    ensures Follow(links, devs[0], ports) == devs
    decreases |ports|
  {
    hide Peers;
    if ports != [] {
      assert Leads(links, devs[0], ports[0], devs[1]);
      FollowPorts(links, devs[1..], ports[1..]);
      assert devs == [devs[0]] + devs[1..];
    }
  }

  /** A port leads to `y` exactly when `y` is linked; and it does so in the emulated network. */
  lemma {:induction false} PortLeads(graph: seq<seq<int>>, hostList: seq<int>, x: Dev, y: Dev)
    requires Shaped(graph, hostList)
    ensures var port := FirstPort(Peers(Logical(graph, hostList), x), y);
            (port.Some? <==> Linked(graph, hostList, x, y)) &&
            (port.Some? ==> Leads(Emulated(graph, hostList, |graph|), x, port.value, y))
  {
    hide Peers, Logical, Emulated, Contributed, FirstPort, Linked;
    SamePorts(graph, hostList, x);
    PeersAreLinked(graph, hostList, x, y);
  }

  ghost predicate Leads(links: seq<Link>, x: Dev, port: nat, y: Dev) {
    1 <= port <= |Peers(links, x)| && Peers(links, x)[port-1] == y
  }

  /** A path gets a port for every hop exactly when it is valid. */
  lemma {:induction false} PathHasPorts(graph: seq<seq<int>>, hostList: seq<int>, path: seq<nat>)
    requires Shaped(graph, hostList) && OnGraph(path, |graph|)
    ensures None !in RoutePorts(Logical(graph, hostList), path) <==> ValidPath(graph, hostList, path)
  {
    hide Peers, Logical, Linked, FirstPort;
    var (found, devs) := (RoutePorts(Logical(graph, hostList), path), Itinerary(path));
    forall i | 0 <= i < |path| ensures found[i].Some? <==> Linked(graph, hostList, devs[i], devs[i+1]) {
      PortLeads(graph, hostList, devs[i], devs[i+1]);
    }
  }

  /** Following those ports in the emulated network, whose links were made in another order, visits exactly the
      switches of the path and the last one's host. */
  lemma {:induction false} PathFollowed(graph: seq<seq<int>>, hostList: seq<int>, path: seq<nat>, ports: seq<nat>)
    requires Shaped(graph, hostList) && OnGraph(path, |graph|)
    requires AllPorts(RoutePorts(Logical(graph, hostList), path), ports)
    ensures Follow(Emulated(graph, hostList, |graph|), Switch(path[0]), ports) == Itinerary(path)
    ensures forall i :: 0 <= i < |ports| ==> ports[i] >= 1
  {
    hide Peers, Logical, Emulated, Linked, FirstPort, Follow;
    var (found, devs) := (RoutePorts(Logical(graph, hostList), path), Itinerary(path));
    forall i | 0 <= i < |ports| ensures Leads(Emulated(graph, hostList, |graph|), devs[i], ports[i], devs[i+1]) {
      assert found[i] == Some(ports[i]);
      PortLeads(graph, hostList, devs[i], devs[i+1]);
    }
    FollowPorts(Emulated(graph, hostList, |graph|), devs, ports);
  }

  /** One more link adds a port at its two ends and nowhere else. */
  lemma {:induction false} OneMore(links: seq<Link>, link: Link)
    requires link.a != link.b
    ensures forall x ::
              Peers(links + [link], x) ==
              Peers(links, x) + (if x == link.a then [link.b] else if x == link.b then [link.a] else [])
  {
    forall x
      ensures Peers(links + [link], x) ==
              Peers(links, x) + (if x == link.a then [link.b] else if x == link.b then [link.a] else [])
    {
      PeersAppend(links, [link], x);
      PeersOne(link, x);
      EndsAre(link, x);
    }
  }
}

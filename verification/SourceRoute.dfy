/** The source route in the probe packet: port numbers and the action id as bytes. */
module SourceRoute {
  import opened Lists
  import opened DeltaWire
  import opened Topology
  import opened Controller
  import opened Powers

  type Bit = x: int | 0 <= x < 2

  // ---- binary strings ----

  /** Python's `bin(n)[2:]`. */
  function Bin(n: nat): (r: seq<Bit>)
    ensures |r| > 0
  {
    if n < 2 then [n] else Bin(n / 2) + [n % 2]
  }

  function Zeros(k: nat): (r: seq<Bit>)
    ensures |r| == k && forall i :: 0 <= i < k ==> r[i] == 0
  {
    seq(k, i => 0)
  }

  function Value(b: seq<Bit>): nat {
    if b == [] then 0 else 2 * Value(b[..|b|-1]) + b[|b|-1]
  }

  lemma {:induction false} BinValue(n: nat)
    ensures Value(Bin(n)) == n
  {
    if n >= 2 {
      BinValue(n / 2);
      assert Bin(n)[..|Bin(n)|-1] == Bin(n / 2);
    }
  }

  /** A number has at most k binary digits exactly when it is below 2^k. */
  lemma {:induction false} BinLength(n: nat, k: nat)
    requires k > 0
    ensures |Bin(n)| <= k <==> n < Pow2(k)
    decreases n
  {
    if n >= 2 {
      if k == 1 {
        assert Pow2(1) == 2;
      } else {
        BinLength(n / 2, k - 1);
      }
    }
  }

  lemma {:induction false} ValueZeros(k: nat, b: seq<Bit>)
    ensures Value(Zeros(k) + b) == Value(b)
  {
    if b != [] {
      ValueZeros(k, b[..|b|-1]);
      assert (Zeros(k) + b)[..k+|b|-1] == Zeros(k) + b[..|b|-1];
    } else if k > 0 {
      ValueZeros(k - 1, []);
      assert (Zeros(k) + b)[..k-1] == Zeros(k - 1) + b;
    }
  }

  lemma {:induction false} ValueBound(b: seq<Bit>)
    ensures Value(b) < Pow2(|b|)
  {
    if b != [] {
      ValueBound(b[..|b|-1]);
    }
  }

  lemma {:induction false} ValueAppend(a: seq<Bit>, b: seq<Bit>)
    ensures Value(a + b) == Value(a) * Pow2(|b|) + Value(b)
  {
    if b == [] {
      assert a + b == a;
    } else {
      var front := b[..|b|-1];
      ValueAppend(a, front);
      assert (a + b)[..|a+b|-1] == a + front;
      assert Value(a) * (2 * Pow2(|front|)) == 2 * (Value(a) * Pow2(|front|));
    }
  }

  // ---- bytes ----

  function ByteOf(b: seq<Bit>): Byte
    requires |b| == 8
  {
    ValueBound(b);
    assert Pow2(8) == 256;
    Value(b)
  }

  /** `BitArray(...).bytes`, for whole bytes. */
  function Bytes(b: seq<Bit>): (r: seq<Byte>)
    requires |b| % 8 == 0
    ensures |r| == |b| / 8
  {
    if b == [] then [] else [ByteOf(b[..8])] + Bytes(b[8..])
  }

  lemma {:induction false} BytesAppend(a: seq<Bit>, b: seq<Bit>)
    requires |a| % 8 == 0 && |b| % 8 == 0
    ensures Bytes(a + b) == Bytes(a) + Bytes(b)
  {
    if a == [] {
      assert a + b == b;
    } else {
      BytesAppend(a[8..], b);
      assert (a + b)[..8] == a[..8] && (a + b)[8..] == a[8..] + b;
    }
  }

  lemma {:induction false} BytesZeros(k: nat)
    ensures forall i :: 0 <= i < k ==> Bytes(Zeros(8 * k))[i] == 0
  {
    if k > 0 {
      BytesZeros(k - 1);
      assert Zeros(8 * k)[8..] == Zeros(8 * (k - 1));
      assert Zeros(8 * k)[..8] == Zeros(8) + [];
      ValueZeros(8, []);
    }
  }

  lemma {:induction false} OneByte(b: seq<Bit>)
    requires |b| == 8
    ensures Bytes(b) == [ByteOf(b)]
  {
    assert b[..8] == b;
  }

  /** Four bytes hold the number that their 32 bits are. */
  lemma {:induction false} FourBytes(b: seq<Bit>)
    requires |b| == 32
    ensures BigEndian(Bytes(b)) == Value(b)
  {
    var (b0, b1, b2, b3) := (b[..8], b[8..16], b[16..24], b[24..]);
    assert b == b0 + b1 + b2 + b3;
    BytesAppend(b0 + b1 + b2, b3);
    BytesAppend(b0 + b1, b2);
    BytesAppend(b0, b1);
    ValueAppend(b0 + b1 + b2, b3);
    ValueAppend(b0 + b1, b2);
    ValueAppend(b0, b1);
    assert Pow2(8) == 256;
    OneByte(b0);
    OneByte(b1);
    OneByte(b2);
    OneByte(b3);
    hide Value, Bytes, Pow2;
    assert Bytes(b) == [ByteOf(b0), ByteOf(b1), ByteOf(b2), ByteOf(b3)];
  }

  // ---- the encoding ----

  /** `addRoute`: the port, counted from 0, in as many whole bytes as it takes. */
  function AddRoute(port: int): (r: seq<Bit>)
    requires port >= 1
    ensures |r| % 8 == 0 && |r| > 0
  {
    var portBin := Bin(port - 1);
    Zeros((8 - |portBin|) % 8) + portBin
  }

  /** One byte is enough exactly for the ports up to 256. */
  lemma {:induction false} PortByte(port: int)
    requires port >= 1
    ensures |AddRoute(port)| == 8 <==> port <= 256
    ensures port <= 256 ==> Bytes(AddRoute(port)) == [port - 1]
  {
    assert Pow2(8) == 256;
    BinLength(port - 1, 8);
    BinValue(port - 1);
    ValueZeros((8 - |Bin(port - 1)|) % 8, Bin(port - 1));
    if port <= 256 {
      OneByte(AddRoute(port));
    }
  }

  function RouteBits(ports: seq<int>): (r: seq<Bit>)
    requires forall k :: 0 <= k < |ports| ==> ports[k] >= 1
    ensures |r| % 8 == 0
  {
    if ports == [] then [] else RouteBits(ports[..|ports|-1]) + AddRoute(ports[|ports|-1])
  }

  /** Zeros in front, at least one, up to whole blocks. */
  function Pad(b: seq<Bit>, block: nat): (r: seq<Bit>)
    requires block == 32 || block == 512
    ensures |r| % 8 == 0
  {
    Zeros(block - |b| % block) + b
  }

  lemma {:induction false} PadLength(b: seq<Bit>, block: nat)
    requires block == 32 || block == 512
    ensures |Pad(b, block)| == block * (|b| / block + 1)
  {
    assert |b| == block * (|b| / block) + |b| % block;
  }

  lemma {:induction false} EightSum(m: nat, n: nat)
    requires m % 8 == 0 && n % 8 == 0
    ensures (m + n) % 8 == 0
  {
  }

  /** `byteDateToSend`. */
  function ByteDateToSend(route: seq<Bit>, actId: nat): seq<Byte> {
    var (head, tail) := (Pad(route, 512), Pad(Bin(actId), 32));
    EightSum(|head|, |tail|);
    Bytes(head + tail)
  }

  /** The loop of `doTraversePath` for one port list, which it reverses first. */
  method Content(portsList: seq<int>, actId: nat) returns (content: seq<Byte>)
    requires forall k :: 0 <= k < |portsList| ==> portsList[k] >= 1
    ensures content == ByteDateToSend(RouteBits(Reverse(portsList)), actId)
  {
    var ports := Reverse(portsList);
    var byteRoute: seq<Bit> := [];
    for i := 0 to |ports|
      invariant byteRoute == RouteBits(ports[..i])
    {
      assert ports[..i+1][..i] == ports[..i];
      byteRoute := byteRoute + AddRoute(ports[i]);
    }
    assert ports[..|ports|] == ports;
    content := ByteDateToSend(byteRoute, actId);
  }

  ghost predicate BytePorts(ports: seq<int>) {
    forall k :: 0 <= k < |ports| ==> 1 <= ports[k] <= 256
  }

  lemma {:induction false} RouteBytes(ports: seq<int>)
    requires BytePorts(ports)
    ensures |RouteBits(ports)| == 8 * |ports|
    ensures forall k :: 0 <= k < |ports| ==> Bytes(RouteBits(ports))[k] == ports[k] - 1
  {
    hide Bytes, AddRoute;
    if ports != [] {
      var front := ports[..|ports|-1];
      RouteBytes(front);
      PortByte(ports[|ports|-1]);
      BytesAppend(RouteBits(front), AddRoute(ports[|ports|-1]));
    }
  }

  /** The action id takes four bytes exactly below 2^31. */
  lemma {:induction false} ActBits(actId: nat)
    ensures |Bin(actId)| < 32 <==> actId < 0x8000_0000
  {
    BinLength(actId, 31);
    assert Pow2(8) == 256;
    Pow2Sum(8, 8);
    Pow2Sum(16, 8);
    Pow2Sum(24, 7);
  }

  lemma {:induction false} Length(route: seq<Bit>, actId: nat)
    ensures |ByteDateToSend(route, actId)| == 64 * (|route| / 512 + 1) + 4 * (|Bin(actId)| / 32 + 1)
  {
    hide Bytes, Bin, Pad;
    PadLength(route, 512);
    PadLength(Bin(actId), 32);
  }

  /** 68 bytes are sent exactly for at most 63 hops and an action id below 2^31. */
  lemma {:induction false} ContentLength(ports: seq<int>, actId: nat)
    requires BytePorts(ports)
    ensures |ByteDateToSend(RouteBits(Reverse(ports)), actId)| == 68 <==> |ports| <= 63 && actId < 0x8000_0000
  {
    RouteBytes(Reverse(ports));
    ActBits(actId);
    Length(RouteBits(Reverse(ports)), actId);
    Blocks(|ports|, |Bin(actId)|);
    hide *;
  }

  lemma {:induction false} Blocks(hops: nat, digits: nat)
    ensures 64 * (8 * hops / 512 + 1) + 4 * (digits / 32 + 1) == 68 <==> hops <= 63 && digits < 32
  {
    var (q, r) := (8 * hops / 512, digits / 32);
    assert q >= 1 <==> hops >= 64;
    assert r >= 1 <==> digits >= 32;
  }

  /** The port of hop k is read from byte 63 - k, where it stands whatever the number of hops. */
  function PortAt(content: seq<Byte>, k: nat): nat
    requires k < 64 <= |content|
  {
    var portOct: int := content[63-k];
    portOct + 1
  }

  /** The parts of a content of 68 bytes. */
  lemma {:induction false} ContentParts(route: seq<Bit>, actId: nat)
    requires |route| % 8 == 0 && |route| < 512 && |Bin(actId)| < 32
    ensures var act := Zeros(32 - |Bin(actId)|) + Bin(actId);
            ByteDateToSend(route, actId) == Bytes(Zeros(512 - |route|)) + Bytes(route) + Bytes(act)
  {
    hide Bytes, Bin, Zeros;
    BytesAppend(Pad(route, 512), Pad(Bin(actId), 32));
    BytesAppend(Zeros(512 - |route|), route);
  }

  lemma {:induction false} ActRecovered(actId: nat)
    requires |Bin(actId)| < 32
    ensures BigEndian(Bytes(Zeros(32 - |Bin(actId)|) + Bin(actId))) == actId
  {
    hide Bytes, Bin, Zeros, BigEndian, Value;
    BinValue(actId);
    ValueZeros(32 - |Bin(actId)|, Bin(actId));
    FourBytes(Zeros(32 - |Bin(actId)|) + Bin(actId));
  }

  /** Ports and action id come back from the 68 bytes, and everything else is 0. */
  lemma {:induction false} ContentRecovered(ports: seq<int>, actId: nat)
    requires BytePorts(ports) && |ports| <= 63 && actId < 0x8000_0000
    ensures var content := ByteDateToSend(RouteBits(Reverse(ports)), actId);
            |content| == 68 && BigEndian(content[64..]) == actId &&
            (forall k :: 0 <= k < |ports| ==> PortAt(content, k) == ports[k]) &&
            forall k :: 0 <= k < 64 - |ports| ==> content[k] == 0
  {
    hide Bytes, RouteBits, Bin, Zeros, BigEndian, ByteDateToSend;
    var route := RouteBits(Reverse(ports));
    RouteBytes(Reverse(ports));
    ActBits(actId);
    ContentParts(route, actId);
    BytesZeros(64 - |ports|);
    ActRecovered(actId);
    var (pad, act) := (Bytes(Zeros(8 * (64 - |ports|))), Bytes(Zeros(32 - |Bin(actId)|) + Bin(actId)));
    assert ByteDateToSend(route, actId) == pad + Bytes(route) + act;
    assert ByteDateToSend(route, actId)[64..] == act;
  }

  lemma {:induction false} BelowCount(graph: seq<seq<int>>, x: nat, k: nat)
    requires k <= x < |graph| && forall i :: 0 <= i < |graph| ==> |graph[i]| == |graph|
    ensures |Below(graph, x, k)| <= k
  {
    if k > 0 {
      BelowCount(graph, x, k - 1);
    }
  }

  lemma {:induction false} AboveCount(graph: seq<seq<int>>, x: nat, k: nat)
    requires x < |graph| && k <= |graph[x]|
    ensures |Above(graph, x, k)| <= if k <= x + 1 then 0 else k - x - 1
  {
    if k > x + 1 {
      AboveCount(graph, x, k - 1);
    }
  }

  /** A device has no more ports than there are switches. */
  lemma {:induction false} PortCount(graph: seq<seq<int>>, hostList: seq<int>, x: Dev)
    requires Shaped(graph, hostList) && |graph| > 0
    ensures |Peers(Logical(graph, hostList), x)| <= |graph|
  {
    hide Peers, Logical;
    SamePorts(graph, hostList, x);
    if x.Switch? && x.id < |graph| {
      BelowCount(graph, x.id, x.id);
      AboveCount(graph, x.id, |graph|);
    }
  }

  /** From a valid path to the bytes and back: with at most 256 switches, a packet that reads its port at hop k from
      the bytes visits exactly the path in the emulated network. */
  lemma {:induction false} ProbeVisitsPath(graph: seq<seq<int>>, hostList: seq<int>, path: seq<nat>, ports: seq<nat>,
                                           actId: nat)
    requires Shaped(graph, hostList) && |graph| <= 256 && OnGraph(path, |graph|) && |path| <= 63 && actId < 0x8000_0000
    requires AllPorts(RoutePorts(Logical(graph, hostList), path), ports)
    ensures BytePorts(ports)
    ensures var content := ByteDateToSend(RouteBits(Reverse<int>(ports)), actId);
            |content| == 68 &&
            Follow(Emulated(graph, hostList, |graph|), Switch(path[0]), PortsIn(content, |path|)) == Itinerary(path)
  {
    hide Follow, Emulated, Logical, Itinerary, ByteDateToSend, RouteBits, BigEndian, Peers;
    PathFollowed(graph, hostList, path, ports);
    forall k | 0 <= k < |ports| ensures 1 <= ports[k] <= 256 {
      PortCount(graph, hostList, Itinerary(path)[k]);
      assert RoutePorts(Logical(graph, hostList), path)[k] == Some(ports[k]);
    }
    ContentRecovered(ports, actId);
    assert PortsIn(ByteDateToSend(RouteBits(Reverse<int>(ports)), actId), |path|) == ports;
  }

  function PortsIn(content: seq<Byte>, hops: nat): (r: seq<nat>)
    requires hops <= 64 <= |content|
    ensures |r| == hops && forall k :: 0 <= k < hops ==> r[k] == PortAt(content, k)
  {
    seq(hops, k requires 0 <= k < hops => PortAt(content, k))
  }
}

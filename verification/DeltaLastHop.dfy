/** The last hop of a packet: its fields but the ingress port are kept once for all flows, so what is filled in for an
    omitted one depends on which packets arrived before. */
module DeltaLastHop {
  import opened Lists
  import opened DeltaSwitch
  import opened DeltaWire
  import opened DeltaReceiver
  import opened DeltaProtocol

  // ---- what the arrivals report ----

  /** What the arrival of a packet reports of field `j` of its last hop, in the receiver's unit: nothing or one
      value. */
  ghost function Told(route: int -> seq<nat>, s: System, e: Event, j: nat): seq<int>
    requires j < STATES
  {
    if e.Arrive? && Enabled(route, s, e) && |route(e.flow)| > 0 then Reported(Oldest(route, s, e.flow)[0], j) else []
  }

  ghost function Reported(x: Sent, j: nat): seq<int>
    requires j < STATES
  {
    if |x.header| == STATES && x.header[j].Some? then [Units(j, x.header[j].value)] else []
  }

  /** All that the arrivals of a run report of field `j` of the last hop, in the order of the run, whatever the flow. */
  ghost function Reports(c: Config, route: int -> seq<nat>, s: System, es: seq<Event>, j: nat): seq<int>
    requires j < STATES
    decreases |es|
  {
    if es == [] then [] else Told(route, s, es[0], j) + Reports(c, route, Step(c, route, s, es[0]), es[1..], j)
  }

  /** The report that counts: the latest one of the latency, the first one of the device number and the egress port. */
  ghost function Counting(reports: seq<int>, j: nat): Option<int> {
    if reports == [] then None else Some(if j == 3 then reports[|reports| - 1] else reports[0])
  }

  /** The report that counts when `known` came before. */
  ghost function Joined(known: Option<int>, reports: seq<int>, j: nat): Option<int> {
    if known.None? then Counting(reports, j) else Counting([known.value] + reports, j)
  }

  lemma {:induction false} JoinReports(known: Option<int>, a: seq<int>, b: seq<int>, j: nat)
    ensures Joined(Joined(known, a, j), b, j) == Joined(known, a + b, j)
  {
  }

  lemma {:induction false} HopTor(c: Config, b: Book, b1: Book, flow: int, x: Sent, j: nat)
    requires SentRight(c, x) && TorLearned(b, b1, Key(flow, 0), x, 0) && j < STATES && j != 1
    ensures Tor(b1, j) == Joined(Tor(b, j), Reported(x, j), j)
  {
    hide Tor;
  }

  lemma {:induction false} ArriveTor(c: Config, route: int -> seq<nat>, s: System, flow: int, j: nat)
    requires Inv(c, route, s) && Enabled(route, s, Arrive(flow)) && j < STATES && j != 1
    ensures Writable(Oldest(route, s, flow))
    ensures Tor(AfterArrive(route, s, flow).book, j) == Joined(Tor(s.book, j), Told(route, s, Arrive(flow), j), j)
  {
    OldestRight(c, route, s, flow);
    ArriveRight(c, route, s, flow);
    hide Inv, Received, Write, Writable, HeaderOf, Lookup, Tor, TorKnown, FilledIn, Enabled, SentRight, TorLearned,
         Reported;
    var xs := Oldest(route, s, flow);
    if |xs| > 0 {
      HopTor(c, s.book, AfterArrive(route, s, flow).book, flow, xs[0], j);
    }
  }

  lemma {:induction false} StepTor(c: Config, route: int -> seq<nat>, s: System, e: Event, j: nat)
    requires Inv(c, route, s) && Enabled(route, s, e) && j < STATES && j != 1
    ensures Tor(Step(c, route, s, e).book, j) == Joined(Tor(s.book, j), Told(route, s, e, j), j)
  {
    hide Inv, Tor, Enabled, AfterArrive, Writable;
    if e.Arrive? {
      ArriveTor(c, route, s, e.flow, j);
    }
  }

  /** What the receiver knows of the last hop is the report that counts. */
  lemma {:induction false} RunTor(c: Config, route: int -> seq<nat>, s: System, es: seq<Event>, j: nat)
    requires Inv(c, route, s) && Runs(c, route, s, es) && j < STATES && j != 1
    ensures Tor(After(c, route, s, es).book, j) == Joined(Tor(s.book, j), Reports(c, route, s, es, j), j)
    decreases |es|
  {
    hide Inv, Step, Told, Tor, Enabled, Joined;
    if es == [] {
      JoinNothing(Tor(s.book, j), j);
    } else {
      StepTor(c, route, s, es[0], j);
      StepKeepsInv(c, route, s, es[0]);
      var t := Step(c, route, s, es[0]);
      RunTor(c, route, t, es[1..], j);
      JoinReports(Tor(s.book, j), Told(route, s, es[0], j), Reports(c, route, t, es[1..], j), j);
    }
  }

  lemma {:induction false} JoinNothing(known: Option<int>, j: nat)
    ensures Joined(known, [], j) == known
  {
  }

  /** What is put in for field `j` of the last hop of an arriving packet: what it reports itself, else the report that
      counts among all earlier arrivals of any flow. */
  lemma {:induction false} LastHopFilledIn(c: Config, route: int -> seq<nat>, s0: System, es: seq<Event>, flow: int,
                                           j: nat)
    requires Started(c, route, s0) && Runs(c, route, s0, es) && j < STATES && j != 1
    requires Enabled(route, After(c, route, s0, es), Arrive(flow)) && |route(flow)| > 0
    ensures var s := After(c, route, s0, es);
            var xs := Oldest(route, s, flow);
            Writable(xs) && SentRight(c, xs[0]) &&
            var r := Received(s.book, flow, Write(HeadersOf(xs))).value;
            r.Parsed? && |r.value| > 0 && |r.value[0]| == STATES && r.value[0][j].Some? &&
            r.value[0][j] ==
            if xs[0].header[j].Some? then Some(Units(j, xs[0].out[j])) else Counting(Reports(c, route, s0, es, j), j)
  {
    hide Started, Runs, Inv, Step, Enabled, Received, Write, Fits, HeaderOf, Lookup, Tor, TorKnown, TorLearned, Reports;
    StartInv(c, route, s0);
    RunKeepsInv(c, route, s0, es);
    RunTor(c, route, s0, es, j);
    NothingKnown(c, route, s0, j);
    var s := After(c, route, s0, es);
    OldestRight(c, route, s, flow);
    ArriveRight(c, route, s, flow);
    var xs := Oldest(route, s, flow);
    assert SentRight(c, xs[0]);
    var r := Received(s.book, flow, Write(HeadersOf(xs))).value;
    assert FilledIn(s.book, Key(flow, 0), xs[0], r.value[0], 0);
  }

  lemma {:induction false} NothingKnown(c: Config, route: int -> seq<nat>, s: System, j: nat)
    requires Started(c, route, s) && j < STATES
    ensures Tor(s.book, j) == None
  {
  }

  /** In every run the device number, the egress port and the latency that the last hop recorded are recovered exactly
      when the packet reports them or the report that counts, of whatever flow, is the same. */
  lemma {:induction false} LastHopExact(c: Config, route: int -> seq<nat>, s0: System, es: seq<Event>, flow: int,
                                        j: nat)
    requires Started(c, route, s0) && Runs(c, route, s0, es) && j < STATES && j != 1
    requires Enabled(route, After(c, route, s0, es), Arrive(flow)) && |route(flow)| > 0
    ensures var s := After(c, route, s0, es);
            var xs := Oldest(route, s, flow);
            Writable(xs) && SentRight(c, xs[0]) &&
            var r := Received(s.book, flow, Write(HeadersOf(xs))).value;
            r.Parsed? && |r.value| > 0 && |r.value[0]| == STATES &&
            (r.value[0][j] == Some(Units(j, xs[0].out[j])) <==>
             xs[0].header[j].Some? || Counting(Reports(c, route, s0, es, j), j) == Some(Units(j, xs[0].out[j])))
  {
    hide *;
    LastHopFilledIn(c, route, s0, es, flow, j);
  }

  // ---- one value for all flows ----

  /** Field j of the last hop is `v` for every flow. */
  ghost predicate SameAtLast(e: Event, j: nat, v: int) {
    e.Pass? && e.key.hop == 0 && |e.cur| == STATES && j < STATES ==> e.cur[j] == v
  }

  ghost predicate BookSame(b: Book, j: nat, v: int)
    requires j < STATES
  {
    (forall key: Key :: key.hop == 0 ==> Lookup(b, j, key) in {None, Some(Units(j, v))}) &&
    Tor(b, j) in {None, Some(Units(j, v))}
  }

  ghost predicate TransitSame(transit: map<Key, seq<Sent>>, j: nat, v: int)
    requires j < STATES
  {
    forall key: Key, k :: key in transit && key.hop == 0 && 0 <= k < |transit[key]| ==>
      |transit[key][k].out| == STATES && transit[key][k].out[j] == v
  }

  ghost predicate LastSame(s: System, j: nat, v: int)
    requires j < STATES
  {
    BookSame(s.book, j, v) && TransitSame(s.transit, j, v)
  }

  lemma {:induction false} FinalSame(v: Option<int>, xs: seq<Sent>, j: nat, x: int)
    requires j < STATES && v in {None, Some(Units(j, x))} &&
             forall k :: 0 <= k < |xs| ==> |xs[k].out| == STATES && xs[k].out[j] == x
    ensures Final(v, xs, j) in {None, Some(Units(j, x))}
    decreases |xs|
  {
    if xs != [] {
      FinalSame(Some(Units(j, xs[0].out[j])), xs[1..], j, x);
    }
  }

  lemma {:induction false} PassKeepsSame(c: Config, route: int -> seq<nat>, s: System, key: Key, cur: seq<int>,
                                         j: nat, v: int)
    requires Inv(c, route, s) && OnRoute(route, key) && Plausible(cur) && j < STATES
    requires LastSame(s, j, v) && SameAtLast(Pass(key, cur), j, v)
    ensures LastSame(AfterPass(c, route, s, key, cur), j, v)
  {
    hide Output, Report, Store, Load, Shaped, Lookup, Tor;
    var sw := SwitchAt(route, key);
    assert route(key.flow)[|route(key.flow)| - 1 - key.hop] < |s.sketches|;
    if key.hop == 0 {
      assert Agrees(c, route, s, key, j);
      ReportOrRecorded(c, s.sketches[sw], key.flow, cur, j);
      FinalSame(Lookup(s.book, j, key), Transit(s, key), j, v);
    }
  }

  lemma {:induction false} PacketKeepsSame(b: Book, flow: int, xs: seq<Sent>, r: Filled<seq<seq<Option<int>>>>,
                                           j: nat, v: int)
    requires j < STATES && BookSame(b, j, v) && PacketRight(b, flow, xs, |xs|, r)
    requires |xs| > 0 ==> |xs[0].out| == STATES && xs[0].out[j] == v
    ensures BookSame(r.book, j, v)
  {
    hide FilledIn, Lookup, Tor, TorKnown;
    forall key: Key | key.hop == 0 ensures Lookup(r.book, j, key) in {None, Some(Units(j, v))} {
      assert Lookup(b, j, key) in {None, Some(Units(j, v))};
    }
  }

  lemma {:induction false} OldestSame(route: int -> seq<nat>, s: System, flow: int, j: nat, v: int)
    requires j < STATES && TransitSame(s.transit, j, v) && Enabled(route, s, Arrive(flow)) &&
             Writable(Oldest(route, s, flow))
    ensures var xs := Oldest(route, s, flow); |xs| > 0 ==> |xs[0].out| == STATES && xs[0].out[j] == v
    ensures TransitSame(AfterArrive(route, s, flow).transit, j, v)
  {
    hide Received, Write, Writable, HeaderOf;
    var (xs, t) := (Oldest(route, s, flow), AfterArrive(route, s, flow));
    if |xs| > 0 {
      assert Transit(s, Key(flow, 0)) != [];
      assert xs[0] == s.transit[Key(flow, 0)][0];
    }
    forall key: Key, k | key in t.transit && key.hop == 0 && 0 <= k < |t.transit[key]|
      ensures t.transit[key][k] in s.transit[key]
    {
    }
  }

  lemma {:induction false} ArriveKeepsSame(c: Config, route: int -> seq<nat>, s: System, flow: int, j: nat, v: int)
    requires Inv(c, route, s) && Enabled(route, s, Arrive(flow)) && j < STATES && LastSame(s, j, v)
    ensures Writable(Oldest(route, s, flow)) && LastSame(AfterArrive(route, s, flow), j, v)
  {
    ArriveRight(c, route, s, flow);
    hide Received, Write, Writable, HeaderOf, Inv, Enabled, PacketRight, BookSame, TransitSame;
    var xs := Oldest(route, s, flow);
    OldestSame(route, s, flow, j, v);
    PacketKeepsSame(s.book, flow, xs, Received(s.book, flow, Write(HeadersOf(xs))), j, v);
  }

  lemma {:induction false} RunKeepsSame(c: Config, route: int -> seq<nat>, s: System, es: seq<Event>, j: nat, v: int)
    requires Inv(c, route, s) && Runs(c, route, s, es) && j < STATES && LastSame(s, j, v)
    requires forall k :: 0 <= k < |es| ==> SameAtLast(es[k], j, v)
    ensures LastSame(After(c, route, s, es), j, v)
    decreases |es|
  {
    if es != [] {
      hide Inv, LastSame, AfterPass, AfterArrive, SameAtLast, Writable;
      StepKeepsInv(c, route, s, es[0]);
      StepKeepsSame(c, route, s, es[0], j, v);
      RunKeepsSame(c, route, Step(c, route, s, es[0]), es[1..], j, v);
    }
  }

  lemma {:induction false} StepKeepsSame(c: Config, route: int -> seq<nat>, s: System, e: Event, j: nat, v: int)
    requires Inv(c, route, s) && Enabled(route, s, e) && j < STATES && LastSame(s, j, v) && SameAtLast(e, j, v)
    ensures LastSame(Step(c, route, s, e), j, v)
  {
    hide AllAgree, TransitRight, TorKnown, AfterPass, AfterArrive, LastSame, SameAtLast, Writable;
    match e
    case Pass(key, cur) => PassKeepsSame(c, route, s, key, cur, j, v);
    case Arrive(flow) => ArriveKeepsSame(c, route, s, flow, j, v);
  }

  /** A field of the last hop that is the same for all flows, as the device number and the egress port towards one
      receiver are, is recovered too, although it is not kept apart by flow. */
  lemma {:induction false} LastHopRecovers(c: Config, route: int -> seq<nat>, s0: System, es: seq<Event>, flow: int,
                                           j: nat, v: int)
    requires Started(c, route, s0) && Runs(c, route, s0, es) && j < STATES
    requires forall k :: 0 <= k < |es| ==> SameAtLast(es[k], j, v)
    requires Enabled(route, After(c, route, s0, es), Arrive(flow)) && |route(flow)| > 0
    ensures var s := After(c, route, s0, es);
            var xs := Oldest(route, s, flow);
            Writable(xs) &&
            var r := Received(s.book, flow, Write(HeadersOf(xs))).value;
            r.Parsed? && |r.value| > 0 && |r.value[0]| == STATES && |xs[0].cur| == STATES &&
            r.value[0][j] == Some(Units(j, v))
  {
    StartInv(c, route, s0);
    RunKeepsInv(c, route, s0, es);
    RunKeepsSame(c, route, s0, es, j, v);
    var s := After(c, route, s0, es);
    SameRecovered(c, route, s, flow, j, v);
  }

  lemma {:induction false} SameRecovered(c: Config, route: int -> seq<nat>, s: System, flow: int, j: nat, v: int)
    requires Inv(c, route, s) && Enabled(route, s, Arrive(flow)) && j < STATES && LastSame(s, j, v) && |route(flow)| > 0
    ensures var xs := Oldest(route, s, flow);
            Writable(xs) &&
            var r := Received(s.book, flow, Write(HeadersOf(xs))).value;
            r.Parsed? && |r.value| > 0 && |r.value[0]| == STATES && |xs[0].cur| == STATES &&
            r.value[0][j] == Some(Units(j, v))
  {
    OldestRight(c, route, s, flow);
    ArriveRight(c, route, s, flow);
    hide Received, Write, Writable, HeaderOf, Lookup, Tor, Inv, TorKnown, TorLearned;
    var xs := Oldest(route, s, flow);
    assert SentRight(c, xs[0]);
    assert Transit(s, Key(flow, 0)) != [];
    assert xs[0].out == s.transit[Key(flow, 0)][0].out;
    var r := Received(s.book, flow, Write(HeadersOf(xs))).value;
    assert FilledIn(s.book, Key(flow, 0), xs[0], r.value[0], 0);
  }

  // ---- a run that mixes two flows ----

  lemma {:induction false} RunsJoined(c: Config, route: int -> seq<nat>, s: System, a: seq<Event>, b: seq<Event>,
                                      j: nat)
    requires Runs(c, route, s, a) && Runs(c, route, After(c, route, s, a), b) && j < STATES
    ensures Runs(c, route, s, a + b) && After(c, route, s, a + b) == After(c, route, After(c, route, s, a), b)
    ensures Reports(c, route, s, a + b, j) ==
            Reports(c, route, s, a, j) + Reports(c, route, After(c, route, s, a), b, j)
    decreases |a|
  {
    hide Enabled, Step, Told;
    if a == [] {
      assert a + b == b;
    } else {
      assert (a + b)[1..] == a[1..] + b;
      RunsJoined(c, route, Step(c, route, s, a[0]), a[1..], b, j);
    }
  }

  /** A packet of a flow with one hop passes it and arrives at once. */
  ghost function Delivery(flow: int, cur: seq<int>): seq<Event> {
    [Pass(Key(flow, 0), cur), Arrive(flow)]
  }

  /** A flow whose one hop is switch 0, and nothing of it in transit. */
  ghost predicate Ready(c: Config, route: int -> seq<nat>, s: System, flow: int) {
    Inv(c, route, s) && route(flow) == [0] && |s.sketches| > 0 && Transit(s, Key(flow, 0)) == []
  }

  lemma {:induction false} Passes(c: Config, route: int -> seq<nat>, s: System, flow: int, cur: seq<int>)
    requires Ready(c, route, s, flow) && Plausible(cur)
    ensures Runnable(c) && Shaped(c, s.sketches[0]) && Enabled(route, s, Pass(Key(flow, 0), cur))
    ensures var t := Step(c, route, s, Pass(Key(flow, 0), cur));
            var sk := s.sketches[0];
            Inv(c, route, t) && t.sketches == s.sketches[0 := Store(c, sk, flow, Output(c, sk, flow, cur))] &&
            Enabled(route, t, Arrive(flow)) &&
            Transit(t, Key(flow, 0)) == [Added(c, sk, flow, cur)] &&
            forall key: Key :: key != Key(flow, 0) ==> Transit(t, key) == Transit(s, key)
  {
    hide Store, Output, Report, Shaped, AllAgree, TransitRight, TorKnown;
    PassKeepsInv(c, route, s, Key(flow, 0), cur);
  }

  lemma {:induction false} Arrives(c: Config, route: int -> seq<nat>, s: System, flow: int, x: Sent, j: nat)
    requires Inv(c, route, s) && route(flow) == [0] && Transit(s, Key(flow, 0)) == [x] && j < STATES
    ensures Enabled(route, s, Arrive(flow)) && Told(route, s, Arrive(flow), j) == Reported(x, j)
    ensures var t := Step(c, route, s, Arrive(flow));
            Inv(c, route, t) && t.sketches == s.sketches && Transit(t, Key(flow, 0)) == [] &&
            forall key: Key :: key.flow != flow ==> Transit(t, key) == Transit(s, key)
  {
    hide Inv, Received, Write, Writable, Reported;
    ArriveKeepsInv(c, route, s, flow);
  }

  lemma {:induction false} Delivers(c: Config, route: int -> seq<nat>, s: System, flow: int, cur: seq<int>, j: nat)
    requires Ready(c, route, s, flow) && Plausible(cur) && j < STATES
    ensures Runnable(c) && Shaped(c, s.sketches[0]) && Runs(c, route, s, Delivery(flow, cur))
    ensures var t := After(c, route, s, Delivery(flow, cur));
            var sk := s.sketches[0];
            Ready(c, route, t, flow) && t.sketches == s.sketches[0 := Store(c, sk, flow, Output(c, sk, flow, cur))] &&
            (forall key: Key :: key.flow != flow ==> Transit(t, key) == Transit(s, key)) &&
            Reports(c, route, s, Delivery(flow, cur), j) ==
            Reported(Added(c, sk, flow, cur), j)
  {
    hide Store, Output, Report, Shaped, Inv, Enabled, Step, Transit, Reported;
    Passes(c, route, s, flow, cur);
    var sk := s.sketches[0];
    var t := Step(c, route, s, Pass(Key(flow, 0), cur));
    Arrives(c, route, t, flow, Added(c, sk, flow, cur), j);
    var u := Step(c, route, t, Arrive(flow));
    assert Delivery(flow, cur)[1..] == [Arrive(flow)];
    assert [Arrive(flow)][1..] == [];
    assert Told(route, s, Pass(Key(flow, 0), cur), j) == [];
    assert Runs(c, route, t, [Arrive(flow)]) && After(c, route, t, [Arrive(flow)]) == u by {
      assert Runs(c, route, u, []) && After(c, route, u, []) == u;
    }
    assert Reports(c, route, t, [Arrive(flow)], j) == Told(route, t, Arrive(flow), j) by {
      assert Reports(c, route, u, [], j) == [];
    }
  }

  /** A flow that is not remembered is reported in full, one that is remembered as it is now not at all. */
  lemma {:induction false} NewOrOld(c: Config, sk: Sketch, flow: int, cur: seq<int>)
    requires Runnable(c) && Shaped(c, sk) && Plausible(cur) && forall i :: 0 <= i < STATES ==> c.thresholds[i] >= 0
    ensures var (out, h) := (Output(c, sk, flow, cur), Report(c, sk, flow, cur));
            (Load(c, sk, flow) in {None, Some([-1, -1, -1, -1])} ==>
              out == cur && h == [Some(cur[0]), Some(cur[1]), Some(cur[2]), Some(cur[3])]) &&
            (Load(c, sk, flow) == Some(cur) ==> out == cur && h == [None, None, None, None])
  {
    hide Load;
  }

  /** Flow `f` hashes to the first of two columns, every other flow to the second one. */
  ghost function TwoColumns(f: int): Config {
    Config(1, 2, flow => if flow == f then 0 else 1, [0, 0, 0, 10])
  }

  /** Every route is switch 0 alone. */
  ghost function OneHop(flow: int): seq<nat> {
    [0]
  }

  const BEGIN := System([[[EMPTY, EMPTY]]], map[], NOTHING)

  /** Flow `f` reports the states `a` and then flow `g` the states `b`; the next packet of one of them is as before. */
  ghost function Mixing(f: int, g: int, a: seq<int>, b: seq<int>, again: int): seq<Event> {
    (Delivery(f, a) + Delivery(g, b)) + [Pass(Key(again, 0), if again == f then a else b)]
  }

  lemma {:induction false} Begins(f: int)
    ensures Started(TwoColumns(f), OneHop, BEGIN)
  {
  }

  /** What the sketch remembers after the first and after the second delivery. */
  lemma {:induction false} Remembers(f: int, g: int, a: seq<int>, b: seq<int>)
    requires f != g && |a| == |b| == STATES
    ensures var (c, sk0) := (TwoColumns(f), BEGIN.sketches[0]);
            Runnable(c) && Shaped(c, sk0) &&
            var sk1 := Store(c, sk0, f, a);
            Load(c, sk0, f) in {None, Some([-1, -1, -1, -1])} && Load(c, sk1, g) in {None, Some([-1, -1, -1, -1])} &&
            Load(c, Store(c, sk1, g, b), f) == Some(a) && Load(c, Store(c, sk1, g, b), g) == Some(b)
  {
    hide LoadFrom, Store;
    var (c, sk0) := (TwoColumns(f), BEGIN.sketches[0]);
    var sk1 := Store(c, sk0, f, a);
    BlankLoads(c, sk0, f, 0);
    BlankLoads(c, sk0, g, 0);
    LoadAfterStore(c, sk0, f, a, f, 0);
    LoadAfterStore(c, sk0, f, a, g, 0);
    LoadAfterStore(c, sk1, g, b, f, 0);
    LoadAfterStore(c, sk1, g, b, g, 0);
  }

  /** The run up to the two deliveries. */
  lemma {:induction false} MixingDelivered(f: int, g: int, a: seq<int>, b: seq<int>, j: nat)
    requires f != g && Plausible(a) && Plausible(b) && j < STATES
    ensures var (c, es, sk0) := (TwoColumns(f), Delivery(f, a) + Delivery(g, b), BEGIN.sketches[0]);
            Runnable(c) && Shaped(c, sk0) && Runs(c, OneHop, BEGIN, es) &&
            var s := After(c, OneHop, BEGIN, es);
            Ready(c, OneHop, s, f) && Ready(c, OneHop, s, g) && s.sketches == [Store(c, Store(c, sk0, f, a), g, b)] &&
            Reports(c, OneHop, BEGIN, es, j) == [Units(j, a[j]), Units(j, b[j])]
  {
    hide Started, Inv, Runs, After, Reports, Store, Output, Report, Load, Delivery, Units;
    var c := TwoColumns(f);
    Begins(f);
    StartInv(c, OneHop, BEGIN);
    Remembers(f, g, a, b);
    NewOrOld(c, BEGIN.sketches[0], f, a);
    Delivers(c, OneHop, BEGIN, f, a, j);
    var s1 := After(c, OneHop, BEGIN, Delivery(f, a));
    NewOrOld(c, s1.sketches[0], g, b);
    Delivers(c, OneHop, s1, g, b, j);
    RunsJoined(c, OneHop, BEGIN, Delivery(f, a), Delivery(g, b), j);
  }

  lemma {:induction false} OnePass(c: Config, route: int -> seq<nat>, s: System, key: Key, cur: seq<int>, j: nat)
    requires Enabled(route, s, Pass(key, cur)) && j < STATES
    ensures var (e, es) := (Pass(key, cur), [Pass(key, cur)]);
            Runs(c, route, s, es) && After(c, route, s, es) == Step(c, route, s, e) && Reports(c, route, s, es, j) == []
  {
    hide Enabled, Step;
    var t := Step(c, route, s, Pass(key, cur));
    assert [Pass(key, cur)][1..] == [];
    assert Runs(c, route, t, []) && After(c, route, t, []) == t && Reports(c, route, t, [], j) == [];
  }

  /** Runs where the last hop is not recovered: an omitted latency of flow `f` is filled in as that of flow `g`, and an
      omitted device number or egress port of flow `g` as that of flow `f`, however they differ. */
  lemma {:induction false} LastHopMixes(f: int, g: int, a: seq<int>, b: seq<int>, again: int, j: nat)
    requires f != g && Plausible(a) && Plausible(b) && again in {f, g} && j < STATES && j != 1
    ensures var (c, es) := (TwoColumns(f), Mixing(f, g, a, b, again));
            Started(c, OneHop, BEGIN) && Runs(c, OneHop, BEGIN, es) &&
            var s := After(c, OneHop, BEGIN, es);
            Enabled(OneHop, s, Arrive(again)) &&
            var xs := Oldest(OneHop, s, again);
            Writable(xs) && SentRight(c, xs[0]) && xs[0].out == xs[0].cur == (if again == f then a else b) &&
            var r := Received(s.book, again, Write(HeadersOf(xs))).value;
            r.Parsed? && |r.value| > 0 && |r.value[0]| == STATES &&
            r.value[0][j] == Some(Units(j, if j == 3 then b[j] else a[j]))
  {
    hide Started, Inv, Runs, After, Reports, Store, Output, Report, Load, Step, Received, Write, HeaderOf, Fits,
         Delivery, Units;
    var (c, cur) := (TwoColumns(f), if again == f then a else b);
    Begins(f);
    MixingDelivered(f, g, a, b, j);
    Remembers(f, g, a, b);
    var (es, e) := (Delivery(f, a) + Delivery(g, b), Pass(Key(again, 0), cur));
    var s := After(c, OneHop, BEGIN, es);
    NewOrOld(c, s.sketches[0], again, cur);
    Passes(c, OneHop, s, again, cur);
    OnePass(c, OneHop, s, Key(again, 0), cur, j);
    RunsJoined(c, OneHop, BEGIN, es, [e], j);
    LastHopFilledIn(c, OneHop, BEGIN, es + [e], again, j);
  }
}

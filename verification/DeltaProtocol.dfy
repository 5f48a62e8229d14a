/** Switches, wire and receiver together: runs of many flows over fixed routes. */
module DeltaProtocol {
  import opened Lists
  import opened DeltaSwitch
  import opened DeltaWire
  import opened DeltaReceiver

  /** What a hop did to one packet: the reported fields, the states then recorded, the true states, and the states that
      the switch had recorded for the flow. */
  datatype Sent = Sent(header: seq<Option<int>>, out: seq<int>, cur: seq<int>, rec: Option<seq<int>>)

  /** What a switch with the sketch `sk` adds to a packet. */
  ghost function Added(c: Config, sk: Sketch, flow: int, cur: seq<int>): Sent
    requires Runnable(c) && Shaped(c, sk) && |cur| == STATES
  {
    Sent(Report(c, sk, flow, cur), Output(c, sk, flow, cur), cur, Load(c, sk, flow))
  }

  /** `transit[key]` holds, oldest first, what was added at that hop to the packets that have not arrived yet. */
  datatype System = System(sketches: seq<Sketch>, transit: map<Key, seq<Sent>>, book: Book)

  /** A packet of `key.flow` passes its hop `key.hop`, counted from the last one, with the states `cur`; or the oldest
      packet of a flow arrives. */
  datatype Event = Pass(key: Key, cur: seq<int>) | Arrive(flow: int)

  /** Every flow keeps its route, which visits no switch twice and has hop numbers of one byte. */
  ghost predicate FixedRoutes(route: int -> seq<nat>, switches: nat) {
    forall f :: Distinct(route(f)) && |route(f)| <= 256 && forall k :: 0 <= k < |route(f)| ==> route(f)[k] < switches
  }

  ghost predicate OnRoute(route: int -> seq<nat>, key: Key) {
    key.hop < |route(key.flow)|
  }

  ghost function SwitchAt(route: int -> seq<nat>, key: Key): nat
    requires OnRoute(route, key)
  {
    route(key.flow)[|route(key.flow)| - 1 - key.hop]
  }

  ghost predicate Sized(c: Config, route: int -> seq<nat>, s: System) {
    Runnable(c) && FixedRoutes(route, |s.sketches|) && forall k :: 0 <= k < |s.sketches| ==> Shaped(c, s.sketches[k])
  }

  ghost function Transit(s: System, key: Key): seq<Sent> {
    if key in s.transit then s.transit[key] else []
  }

  /** Four states that fit their fields on the wire. */
  ghost predicate Plausible(cur: seq<int>) {
    |cur| == STATES && 0 <= cur[0] < 256 && 0 <= cur[1] < 256 && 0 <= cur[2] < 256 && 0 <= cur[3] < 0x1_0000_0000
  }

  ghost predicate Enabled(route: int -> seq<nat>, s: System, e: Event) {
    match e
    case Pass(key, cur) => OnRoute(route, key) && Plausible(cur)
    case Arrive(flow) => forall i: nat :: i < |route(flow)| ==> Transit(s, Key(flow, i)) != []
  }

  ghost function AfterPass(c: Config, route: int -> seq<nat>, s: System, key: Key, cur: seq<int>): System
    requires Sized(c, route, s) && OnRoute(route, key) && |cur| == STATES
  {
    var sw := SwitchAt(route, key);
    var out := Output(c, s.sketches[sw], key.flow, cur);
    System(s.sketches[sw := Store(c, s.sketches[sw], key.flow, out)],
           s.transit[key := Transit(s, key) + [Added(c, s.sketches[sw], key.flow, cur)]],
           s.book)
  }

  // ---- arrival ----

  ghost function Oldest(route: int -> seq<nat>, s: System, flow: int): (r: seq<Sent>)
    requires Enabled(route, s, Arrive(flow))
    ensures |r| == |route(flow)| && forall i: nat :: i < |r| ==> r[i] == Transit(s, Key(flow, i))[0]
  {
    seq(|route(flow)|, i requires 0 <= i < |route(flow)| => Transit(s, Key(flow, i))[0])
  }

  ghost function HeaderOf(h: seq<Option<int>>): Header {
    if |h| == STATES then Header(h[0], h[1], h[2], h[3]) else Header(None, None, None, None)
  }

  ghost function HeadersOf(xs: seq<Sent>): (r: seq<Header>)
    ensures |r| == |xs| && forall i :: 0 <= i < |r| ==> r[i] == HeaderOf(xs[i].header)
  {
    seq(|xs|, i requires 0 <= i < |xs| => HeaderOf(xs[i].header))
  }

  /** The receiver reads the bytes of a packet and fills in what was omitted. */
  ghost function Received(b: Book, flow: int, bytes: seq<Byte>): Filled<seq<seq<Option<int>>>> {
    match Read(bytes)
    case Exited => Filled(Exited, b)
    case Raised => Filled(Raised, b)
    case Parsed(hs) => FillHops(b, flow, hs, |hs|)
  }

  ghost predicate Writable(xs: seq<Sent>) {
    forall i :: 0 <= i < |xs| ==> Fits(HeaderOf(xs[i].header))
  }

  ghost function Tail(xs: seq<Sent>): seq<Sent> {
    if xs == [] then [] else xs[1..]
  }

  ghost function AfterArrive(route: int -> seq<nat>, s: System, flow: int): System
    requires Enabled(route, s, Arrive(flow)) && Writable(Oldest(route, s, flow))
  {
    System(s.sketches,
           map key | key in s.transit ::
             if key.flow == flow && OnRoute(route, key) then Tail(s.transit[key]) else s.transit[key],
           Received(s.book, flow, Write(HeadersOf(Oldest(route, s, flow)))).book)
  }

  // ---- the invariant ----

  /** The receiver's unit of field j. */
  ghost function Units(j: nat, v: int): int {
    if j == 3 then v * 128 else v
  }

  /** A field is omitted exactly when a state was recorded for it that the true state is within the threshold of; that
      state then stays recorded, and otherwise the true state is reported and recorded. */
  ghost predicate OmittedRight(c: Config, x: Sent, j: nat) {
    |x.header| == |x.out| == |x.cur| == |c.thresholds| == STATES && j < STATES &&
    (x.rec.Some? ==> |x.rec.value| == STATES) &&
    (x.header[j].None? <==> x.rec.Some? && x.rec.value[j] != -1 &&
                            -c.thresholds[j] <= x.cur[j] - x.rec.value[j] <= c.thresholds[j]) &&
    (x.header[j].None? ==> x.out[j] == x.rec.value[j]) &&
    (x.header[j].Some? ==> x.header[j].value == x.out[j] == x.cur[j])
  }

  /** Reported fields carry the true state, and the recorded state is true or within the threshold. */
  ghost predicate SentRight(c: Config, x: Sent) {
    |x.header| == |x.out| == |x.cur| == |c.thresholds| == STATES && Plausible(x.cur) &&
    (forall j: nat :: j < STATES ==> OmittedRight(c, x, j)) &&
    forall j :: 0 <= j < STATES ==>
      (x.header[j].Some? ==> x.header[j].value == x.out[j] == x.cur[j]) &&
      (x.out[j] == x.cur[j] || Abs(x.cur[j] - x.out[j]) <= c.thresholds[j])
  }

  ghost predicate TransitRight(c: Config, s: System) {
    forall key: Key, k :: key in s.transit && 0 <= k < |s.transit[key]| ==> SentRight(c, s.transit[key][k])
  }

  /** From the entry `v` on, everything in transit can be filled in to give the recorded state. */
  ghost predicate Recoverable(v: Option<int>, xs: seq<Sent>, j: nat)
    requires j < STATES
    decreases |xs|
  {
    xs == [] ||
    (|xs[0].header| == |xs[0].out| == STATES && (xs[0].header[j].None? ==> v == Some(Units(j, xs[0].out[j]))) &&
     Recoverable(Some(Units(j, xs[0].out[j])), xs[1..], j))
  }

  /** The entry after everything in transit has arrived. */
  ghost function Final(v: Option<int>, xs: seq<Sent>, j: nat): Option<int>
    requires j < STATES
    decreases |xs|
  {
    if xs == [] then v else Final(if |xs[0].out| == STATES then Some(Units(j, xs[0].out[j])) else None, xs[1..], j)
  }

  /** An owned bucket agrees with what the receiver will know once everything in transit has arrived. */
  ghost predicate Agrees(c: Config, route: int -> seq<nat>, s: System, key: Key, j: nat)
    requires Sized(c, route, s) && OnRoute(route, key) && j < STATES
  {
    var (v, xs, rec) := (Lookup(s.book, j, key), Transit(s, key), Load(c, s.sketches[SwitchAt(route, key)], key.flow));
    Recoverable(v, xs, j) && (rec.Some? && rec.value[j] != -1 ==> Final(v, xs, j) == Some(Units(j, rec.value[j])))
  }

  ghost predicate AllAgree(c: Config, route: int -> seq<nat>, s: System)
    requires Sized(c, route, s)
  {
    forall key: Key, j: nat :: OnRoute(route, key) && j < STATES ==> Agrees(c, route, s, key, j)
  }

  /** Once a field of the last hop is known for one flow, it is known at all. */
  ghost predicate TorKnown(b: Book) {
    forall key: Key, j: nat :: j < STATES && Overlaps(key, j) && Lookup(b, j, key).Some? ==> Tor(b, j).Some?
  }

  ghost predicate Inv(c: Config, route: int -> seq<nat>, s: System) {
    Sized(c, route, s) && TransitRight(c, s) && AllAgree(c, route, s) && TorKnown(s.book)
  }

  // ---- a packet passes a hop ----

  lemma {:induction false} RecoverableAppend(v: Option<int>, xs: seq<Sent>, x: Sent, j: nat)
    requires j < STATES && Recoverable(v, xs, j) && |x.header| == |x.out| == STATES
    requires x.header[j].None? ==> Final(v, xs, j) == Some(Units(j, x.out[j]))
    ensures Recoverable(v, xs + [x], j) && Final(v, xs + [x], j) == Some(Units(j, x.out[j]))
    decreases |xs|
  {
    if xs == [] {
      assert [x][1..] == [];
    } else {
      RecoverableAppend(Some(Units(j, xs[0].out[j])), xs[1..], x, j);
      assert (xs + [x])[1..] == xs[1..] + [x];
    }
  }

  lemma {:induction false} NewSent(c: Config, sk: Sketch, flow: int, cur: seq<int>)
    requires Runnable(c) && Shaped(c, sk) && Plausible(cur)
    ensures SentRight(c, Added(c, sk, flow, cur))
  {
    var x := Added(c, sk, flow, cur);
    forall j: nat | j < STATES ensures OmittedRight(c, x, j) {
      OmittedExactly(c, sk, flow, cur, j);
    }
    hide OmittedRight, Load;
    forall j | 0 <= j < STATES
      ensures x.header[j].Some? ==> x.header[j].value == x.out[j] == x.cur[j]
      ensures x.out[j] == x.cur[j] || Abs(x.cur[j] - x.out[j]) <= c.thresholds[j]
    {
      ReportOrRecorded(c, sk, flow, cur, j);
    }
  }

  /** At the hop itself: what is omitted is recorded, hence known to the receiver by then. */
  lemma {:induction false} PassAgreesHere(c: Config, route: int -> seq<nat>, s: System, key: Key, cur: seq<int>, j: nat)
    requires Inv(c, route, s) && OnRoute(route, key) && Plausible(cur) && j < STATES &&
             Sized(c, route, AfterPass(c, route, s, key, cur))
    ensures Agrees(c, route, AfterPass(c, route, s, key, cur), key, j)
  {
    hide Output, Report, Store, Shaped, Load, LoadFrom, Col;
    var sw := SwitchAt(route, key);
    var sk := s.sketches[sw];
    var x := Added(c, sk, key.flow, cur);
    assert Agrees(c, route, s, key, j);
    ReportOrRecorded(c, sk, key.flow, cur, j);
    RecoverableAppend(Lookup(s.book, j, key), Transit(s, key), x, j);
    StoredHere(c, sk, key.flow, x.out);
  }

  lemma {:induction false} StoredHere(c: Config, sk: Sketch, flow: int, out: seq<int>)
    requires Runnable(c) && Shaped(c, sk) && |out| == STATES
    ensures Load(c, Store(c, sk, flow, out), flow) in {None, Some(out)}
  {
    LoadAfterStore(c, sk, flow, out, flow, 0);
  }

  /** Elsewhere: a bucket of another flow is untouched or evicted, other switches are untouched. */
  lemma {:induction false} PassAgreesThere(c: Config, route: int -> seq<nat>, s: System, key: Key, cur: seq<int>,
                                           other: Key, j: nat)
    requires Inv(c, route, s) && OnRoute(route, key) && Plausible(cur) && j < STATES &&
             Sized(c, route, AfterPass(c, route, s, key, cur))
    requires OnRoute(route, other) && other != key
    ensures Agrees(c, route, AfterPass(c, route, s, key, cur), other, j)
  {
    hide Output, Report, Store, Shaped, Load, LoadFrom, Col;
    var sw := SwitchAt(route, key);
    assert Agrees(c, route, s, other, j);
    if SwitchAt(route, other) == sw {
      assert Distinct(route(key.flow));
      StoredThere(c, s.sketches[sw], key.flow, Output(c, s.sketches[sw], key.flow, cur), other.flow);
    }
  }

  lemma {:induction false} StoredThere(c: Config, sk: Sketch, flow: int, out: seq<int>, other: int)
    requires Runnable(c) && Shaped(c, sk) && |out| == STATES && other != flow
    ensures Load(c, Store(c, sk, flow, out), other) in {None, Load(c, sk, other)}
  {
    LoadAfterStore(c, sk, flow, out, other, 0);
  }

  lemma {:induction false} PassKeepsInv(c: Config, route: int -> seq<nat>, s: System, key: Key, cur: seq<int>)
    requires Inv(c, route, s) && OnRoute(route, key) && Plausible(cur)
    ensures Inv(c, route, AfterPass(c, route, s, key, cur))
  {
    hide Output, Report, Store, Shaped, Agrees, SentRight;
    var sw := SwitchAt(route, key);
    assert route(key.flow)[|route(key.flow)| - 1 - key.hop] < |s.sketches|;
    var t := AfterPass(c, route, s, key, cur);
    NewSent(c, s.sketches[sw], key.flow, cur);
    forall other: Key, j: nat | OnRoute(route, other) && j < STATES ensures Agrees(c, route, t, other, j) {
      if other == key {
        PassAgreesHere(c, route, s, key, cur, j);
      } else {
        PassAgreesThere(c, route, s, key, cur, other, j);
      }
    }
  }

  // ---- a packet arrives ----

  lemma {:induction false} FillLookup(b: Book, key: Key, j: nat, x: Option<int>)
    requires j < FIELDS
    ensures var b1 := Fill(b, key, j, x).book;
            forall i: nat, k: Key :: i < FIELDS ==>
              Lookup(b1, i, k) == (if i == j && k == key && x.Some? then x else Lookup(b, i, k))
    ensures var b1 := Fill(b, key, j, x).book;
            forall i: nat :: i < FIELDS ==>
              Tor(b1, i) == (if i == j && Overlaps(key, j) && x.Some? && (j == 3 || Tor(b, j).None?) then x
                             else Tor(b, i))
  {
  }

  /** The receiver can fill in the header of `x` at `key`. */
  ghost predicate Fillable(b: Book, key: Key, x: Sent) {
    |x.header| == |x.out| == STATES &&
    forall j: nat :: j < STATES ==>
      (x.header[j].Some? ==> x.header[j].value == x.out[j]) &&
      (x.header[j].None? ==> Lookup(b, j, key) == Some(Units(j, x.out[j])))
  }

  /** What is filled in: the recorded states, but for the fields of the last hop that are not kept by flow. */
  ghost predicate FilledIn(b: Book, key: Key, x: Sent, r: seq<Option<int>>, from: nat) {
    |r| == STATES - from && |x.header| == |x.out| == STATES &&
    forall i: nat :: i < |r| ==> FieldFilledIn(b, key, x, r[i], from + i)
  }

  ghost predicate FieldFilledIn(b: Book, key: Key, x: Sent, v: Option<int>, j: nat) {
    j < STATES && |x.header| == |x.out| == STATES &&
    v.Some? && (!Overlaps(key, j) || x.header[j].Some? ==> v == Some(Units(j, x.out[j]))) &&
    (Overlaps(key, j) && x.header[j].None? ==> v == Tor(b, j))
  }

  /** The entries of one hop now are the recorded states, all others are as before. */
  ghost predicate Learned(b: Book, b1: Book, key: Key, x: Sent, from: nat) {
    |x.header| == |x.out| == STATES &&
    forall j: nat, k: Key :: j < STATES ==>
      Lookup(b1, j, k) == if k == key && j >= from then Some(Units(j, x.out[j])) else Lookup(b, j, k)
  }

  ghost predicate TorLearned(b: Book, b1: Book, key: Key, x: Sent, from: nat) {
    |x.header| == |x.out| == STATES &&
    forall j: nat :: j < STATES ==>
      Tor(b1, j) ==
      if j >= from && Overlaps(key, j) && x.header[j].Some? && (j == 3 || Tor(b, j).None?) then Some(Units(j, x.out[j]))
      else Tor(b, j)
  }

  lemma {:induction false} FillFromRight(b: Book, key: Key, x: Sent, from: nat)
    requires Fillable(b, key, x) && TorKnown(b) && from <= STATES
    ensures var r := FillFrom(b, key, Scaled(HeaderOf(x.header)), from);
            r.value.Parsed? && FilledIn(b, key, x, r.value.value, from) && Learned(b, r.book, key, x, from) &&
            TorLearned(b, r.book, key, x, from)
    decreases STATES - from
  {
    hide Lookup, Tor, Fill;
    if from < STATES {
      var h := Scaled(HeaderOf(x.header));
      FillLookup(b, key, from, Field(h, from));
      FillValue(b, key, x, from);
      var first := Fill(b, key, from, Field(h, from));
      FillFromRight(first.book, key, x, from + 1);
    }
  }

  lemma {:induction false} FillValue(b: Book, key: Key, x: Sent, j: nat)
    requires Fillable(b, key, x) && TorKnown(b) && j < STATES
    ensures var h := Field(Scaled(HeaderOf(x.header)), j);
            var r := Fill(b, key, j, h);
            h == (if x.header[j].Some? then Some(Units(j, x.out[j])) else None) &&
            r.value.Parsed? && r.value.value.Some? && TorKnown(r.book) && Fillable(r.book, key, x) &&
            (!Overlaps(key, j) || h.Some? ==> r.value.value == Some(Units(j, x.out[j]))) &&
            (Overlaps(key, j) && h.None? ==> r.value.value == Tor(b, j))
  {
    FillLookup(b, key, j, Field(Scaled(HeaderOf(x.header)), j));
  }

  /** The packet is filled in up to hop `k`, and exactly its entries are renewed. */
  ghost predicate PacketRight(b: Book, flow: int, xs: seq<Sent>, k: nat, r: Filled<seq<seq<Option<int>>>>) {
    k <= |xs| && r.value.Parsed? && |r.value.value| == k && TorKnown(r.book) &&
    (forall i: nat :: i < k ==> FilledIn(b, Key(flow, i), xs[i], r.value.value[i], 0)) &&
    (forall j: nat, key: Key :: j < STATES ==>
      Lookup(r.book, j, key) == if key.flow == flow && key.hop < k then Renewed(xs, key.hop, j)
        else Lookup(b, j, key)) &&
    (if k == 0 then r.book == b else TorLearned(b, r.book, Key(flow, 0), xs[0], 0))
  }

  ghost function Renewed(xs: seq<Sent>, i: nat, j: nat): Option<int>
    requires i < |xs| && j < STATES
  {
    if |xs[i].out| == STATES then Some(Units(j, xs[i].out[j])) else None
  }

  lemma {:induction false} TorStaysKnown(b: Book, b1: Book, key: Key, x: Sent)
    requires TorKnown(b) && Fillable(b, key, x) && Learned(b, b1, key, x, 0) && TorLearned(b, b1, key, x, 0)
    ensures TorKnown(b1)
  {
    hide Lookup, Tor;
  }

  lemma {:induction false} FillHopRight(b: Book, key: Key, x: Sent)
    requires Fillable(b, key, x) && TorKnown(b) && key.hop <= 255
    ensures var r := FillHop(b, key, Scaled(HeaderOf(x.header)));
            r.value.Parsed? && FilledIn(b, key, x, r.value.value, 0) && Learned(b, r.book, key, x, 0) &&
            TorLearned(b, r.book, key, x, 0) && TorKnown(r.book)
  {
    FillFromRight(b, key, x, 0);
    hide FillFrom, Lookup, Tor;
    TorStaysKnown(b, FillFrom(b, key, Scaled(HeaderOf(x.header)), 0).book, key, x);
  }

  lemma {:induction false} FillHopsRight(b: Book, flow: int, xs: seq<Sent>, k: nat)
    requires k <= |xs| <= 256 && TorKnown(b) && forall i: nat :: i < k ==> Fillable(b, Key(flow, i), xs[i])
    ensures PacketRight(b, flow, xs, k, FillHops(b, flow, ScaledAll(HeadersOf(xs)), k))
    decreases k
  {
    hide FillHop, Lookup, Tor, FilledIn, TorKnown, Scaled, HeaderOf;
    var hs := ScaledAll(HeadersOf(xs));
    if k > 0 {
      var key := Key(flow, k - 1);
      FillHopRight(b, key, xs[k-1]);
      var last := FillHop(b, key, hs[k-1]);
      forall i: nat | i < k - 1 ensures Fillable(last.book, Key(flow, i), xs[i]) {
        assert Fillable(b, Key(flow, i), xs[i]);
      }
      FillHopsRight(last.book, flow, xs, k - 1);
      var rest := FillHops(last.book, flow, hs, k - 1);
      PacketStep(b, flow, xs, k, last, rest);
    }
  }

  lemma {:induction false} SameTor(b: Book, b1: Book, key: Key, x: Sent, r: seq<Option<int>>)
    requires FilledIn(b, key, x, r, 0) && forall j: nat :: j < STATES ==> Tor(b1, j) == Tor(b, j)
    ensures FilledIn(b1, key, x, r, 0)
  {
  }

  lemma {:induction false} PacketStep(b: Book, flow: int, xs: seq<Sent>, k: nat, last: Filled<seq<Option<int>>>,
                                      rest: Filled<seq<seq<Option<int>>>>)
    requires 0 < k <= |xs| && last.value.Parsed? && PacketRight(last.book, flow, xs, k - 1, rest)
    requires var key := Key(flow, k - 1);
             FilledIn(b, key, xs[k-1], last.value.value, 0) && Learned(b, last.book, key, xs[k-1], 0) &&
             TorLearned(b, last.book, key, xs[k-1], 0)
    ensures PacketRight(b, flow, xs, k, rest.(value := Appended(rest.value, [last.value.value])))
  {
    hide Lookup, Tor, TorKnown;
    var r := rest.(value := Appended(rest.value, [last.value.value]));
    assert forall j: nat :: j < STATES && k > 1 ==> Tor(last.book, j) == Tor(b, j);
    forall i: nat | i < k ensures FilledIn(b, Key(flow, i), xs[i], r.value.value[i], 0) {
      if i < k - 1 {
        assert r.value.value[i] == rest.value.value[i];
        SameTor(last.book, b, Key(flow, i), xs[i], rest.value.value[i]);
      }
    }
  }

  lemma {:induction false} OldestRight(c: Config, route: int -> seq<nat>, s: System, flow: int)
    requires Inv(c, route, s) && Enabled(route, s, Arrive(flow))
    ensures var xs := Oldest(route, s, flow);
            Writable(xs) && |xs| <= 256 &&
            forall i: nat :: i < |xs| ==> SentRight(c, xs[i]) && Fillable(s.book, Key(flow, i), xs[i])
  {
    hide Lookup;
    var xs := Oldest(route, s, flow);
    forall i: nat | i < |xs| ensures SentRight(c, xs[i]) && Fillable(s.book, Key(flow, i), xs[i]) &&
      Fits(HeaderOf(xs[i].header)) {
      var key := Key(flow, i);
      assert key in s.transit && s.transit[key] == Transit(s, key);
      assert SentRight(c, s.transit[key][0]);
      forall j: nat | j < STATES ensures xs[i].header[j].None? ==>
        Lookup(s.book, j, key) == Some(Units(j, xs[i].out[j])) {
        assert Agrees(c, route, s, key, j);
      }
    }
  }

  /** The arriving bytes are read as the headers that were added, and filled in right. */
  lemma {:induction false} ArriveRight(c: Config, route: int -> seq<nat>, s: System, flow: int)
    requires Inv(c, route, s) && Enabled(route, s, Arrive(flow))
    ensures var xs := Oldest(route, s, flow);
            Writable(xs) && PacketRight(s.book, flow, xs, |xs|, Received(s.book, flow, Write(HeadersOf(xs))))
  {
    hide Inv, Enabled, PacketRight, FillHops, Fits, HeaderOf, Fillable, SentRight, Write, Read, TorKnown;
    OldestRight(c, route, s, flow);
    var xs := Oldest(route, s, flow);
    WireRoundTrip(HeadersOf(xs));
    BookKnown(c, route, s);
    FillHopsRight(s.book, flow, xs, |xs|);
  }

  lemma {:induction false} BookKnown(c: Config, route: int -> seq<nat>, s: System)
    requires Inv(c, route, s)
    ensures TorKnown(s.book)
  {
  }

  lemma {:induction false} ArriveAgrees(c: Config, route: int -> seq<nat>, s: System, flow: int, key: Key, j: nat)
    requires Inv(c, route, s) && Enabled(route, s, Arrive(flow)) && OnRoute(route, key) && j < STATES
    requires Writable(Oldest(route, s, flow)) && Sized(c, route, AfterArrive(route, s, flow))
    requires var xs := Oldest(route, s, flow); PacketRight(s.book, flow, xs, |xs|,
                                                           Received(s.book, flow, Write(HeadersOf(xs))))
    ensures Agrees(c, route, AfterArrive(route, s, flow), key, j)
  {
    hide Lookup, Load, Received, TorKnown, FilledIn, TorLearned, Shaped, Write, HeaderOf, Writable;
    assert Agrees(c, route, s, key, j);
    if key.flow == flow {
      assert Transit(s, Key(flow, key.hop)) != [];
      assert key in s.transit && SentRight(c, s.transit[key][0]);
    }
  }

  lemma {:induction false} ArriveKeepsTransit(c: Config, route: int -> seq<nat>, s: System, flow: int)
    requires TransitRight(c, s) && Enabled(route, s, Arrive(flow)) && Writable(Oldest(route, s, flow))
    ensures TransitRight(c, AfterArrive(route, s, flow))
  {
    hide SentRight, Received, Write, Writable, HeaderOf, Enabled;
    var t := AfterArrive(route, s, flow);
    forall key: Key, k | key in t.transit && 0 <= k < |t.transit[key]| ensures SentRight(c, t.transit[key][k]) {
      assert t.transit[key][k] in s.transit[key];
    }
  }

  lemma {:induction false} ArriveKeepsInv(c: Config, route: int -> seq<nat>, s: System, flow: int)
    requires Inv(c, route, s) && Enabled(route, s, Arrive(flow))
    ensures Writable(Oldest(route, s, flow)) && Inv(c, route, AfterArrive(route, s, flow))
  {
    ArriveRight(c, route, s, flow);
    ArriveKeepsTransit(c, route, s, flow);
    hide Agrees, Received, Write, Writable, Shaped, HeaderOf, FilledIn, TorLearned, Lookup, Enabled, TransitRight;
    var t := AfterArrive(route, s, flow);
    forall key: Key, j: nat | OnRoute(route, key) && j < STATES ensures Agrees(c, route, t, key, j) {
      ArriveAgrees(c, route, s, flow, key, j);
    }
  }

  // ---- runs ----

  ghost function Step(c: Config, route: int -> seq<nat>, s: System, e: Event): System {
    match e
    case Pass(key, cur) => if Sized(c, route, s) && Enabled(route, s, e) then AfterPass(c, route, s, key, cur) else s
    case Arrive(flow) => if Enabled(route, s, e) && Writable(Oldest(route, s, flow)) then AfterArrive(route, s, flow)
         else s
  }

  ghost predicate Runs(c: Config, route: int -> seq<nat>, s: System, es: seq<Event>)
    decreases |es|
  {
    es == [] || (Enabled(route, s, es[0]) && Runs(c, route, Step(c, route, s, es[0]), es[1..]))
  }

  ghost function After(c: Config, route: int -> seq<nat>, s: System, es: seq<Event>): System
    decreases |es|
  {
    if es == [] then s else After(c, route, Step(c, route, s, es[0]), es[1..])
  }

  /** All sketches blank, nothing in transit, nothing received. */
  ghost predicate Started(c: Config, route: int -> seq<nat>, s: System) {
    Sized(c, route, s) && s.transit == map[] && s.book == NOTHING &&
    forall k :: 0 <= k < |s.sketches| ==> Blank(s.sketches[k])
  }

  lemma {:induction false} BlankLoads(c: Config, sk: Sketch, flow: int, row: nat)
    requires Runnable(c) && Shaped(c, sk) && Blank(sk) && row <= |sk|
    ensures LoadFrom(c, sk, flow, row) in {None, Some([-1, -1, -1, -1])}
    decreases |sk| - row
  {
    if row < |sk| {
      BlankLoads(c, sk, flow, row + 1);
    }
  }

  lemma {:induction false} StartInv(c: Config, route: int -> seq<nat>, s: System)
    requires Started(c, route, s)
    ensures Inv(c, route, s)
  {
    forall key: Key, j: nat | OnRoute(route, key) && j < STATES ensures Agrees(c, route, s, key, j) {
      assert route(key.flow)[|route(key.flow)| - 1 - key.hop] < |s.sketches|;
      BlankLoads(c, s.sketches[SwitchAt(route, key)], key.flow, 0);
    }
  }

  lemma {:induction false} RunKeepsInv(c: Config, route: int -> seq<nat>, s: System, es: seq<Event>)
    requires Inv(c, route, s) && Runs(c, route, s, es)
    ensures Inv(c, route, After(c, route, s, es))
    decreases |es|
  {
    hide Inv, Writable;
    if es != [] {
      StepKeepsInv(c, route, s, es[0]);
      RunKeepsInv(c, route, Step(c, route, s, es[0]), es[1..]);
    }
  }

  lemma {:induction false} StepKeepsInv(c: Config, route: int -> seq<nat>, s: System, e: Event)
    requires Inv(c, route, s) && Enabled(route, s, e)
    ensures Inv(c, route, Step(c, route, s, e))
  {
    hide AllAgree, TransitRight, TorKnown, AfterPass, AfterArrive, Writable;
    match e
    case Pass(key, cur) => PassKeepsInv(c, route, s, key, cur);
    case Arrive(flow) => ArriveKeepsInv(c, route, s, flow);
  }

  /** One hop as it was delivered: exactly the fields within the threshold of what was recorded were omitted, and every
      field is filled in; those kept by flow with exactly the recorded state, which is the true state or within its
      threshold. */
  ghost predicate HopDelivered(c: Config, key: Key, x: Sent, r: seq<Option<int>>) {
    |r| == |x.out| == |x.cur| == |c.thresholds| == STATES &&
    forall j: nat :: j < STATES ==>
      OmittedRight(c, x, j) && r[j].Some? && (!Overlaps(key, j) ==> r[j] == Some(Units(j, x.out[j]))) &&
      (x.out[j] == x.cur[j] || Abs(x.cur[j] - x.out[j]) <= c.thresholds[j])
  }

  ghost predicate PacketDelivered(c: Config, flow: int, xs: seq<Sent>, r: Parsed<seq<seq<Option<int>>>>) {
    r.Parsed? && |r.value| == |xs| && forall i: nat :: i < |xs| ==> HopDelivered(c, Key(flow, i), xs[i], r.value[i])
  }

  lemma {:induction false} PacketRightDelivers(c: Config, b: Book, flow: int, xs: seq<Sent>,
                                               r: Filled<seq<seq<Option<int>>>>)
    requires PacketRight(b, flow, xs, |xs|, r) && forall i: nat :: i < |xs| ==> SentRight(c, xs[i])
    ensures PacketDelivered(c, flow, xs, r.value)
  {
    hide Lookup, TorKnown, TorLearned;
    forall i: nat | i < |xs| ensures HopDelivered(c, Key(flow, i), xs[i], r.value.value[i]) {
      assert SentRight(c, xs[i]) && FilledIn(b, Key(flow, i), xs[i], r.value.value[i], 0);
    }
  }

  /** In every run, whatever the hash function and the interleaving, every packet that arrives is parsed, no omitted
      field lacks an entry, and the recorded states are recovered. */
  lemma {:induction false} RunsRecover(c: Config, route: int -> seq<nat>, s0: System, es: seq<Event>, flow: int)
    requires Started(c, route, s0) && Runs(c, route, s0, es)
    requires Enabled(route, After(c, route, s0, es), Arrive(flow))
    ensures var s := After(c, route, s0, es);
            var xs := Oldest(route, s, flow);
            Writable(xs) && PacketDelivered(c, flow, xs, Received(s.book, flow, Write(HeadersOf(xs))).value)
  {
    hide Started, Runs, After, Step, Inv, Enabled, PacketRight, PacketDelivered, SentRight, Fillable, Received, Write,
         HeaderOf, Fits;
    StartInv(c, route, s0);
    RunKeepsInv(c, route, s0, es);
    var s := After(c, route, s0, es);
    OldestRight(c, route, s, flow);
    ArriveRight(c, route, s, flow);
    var xs := Oldest(route, s, flow);
    PacketRightDelivers(c, s.book, flow, xs, Received(s.book, flow, Write(HeadersOf(xs))));
  }
}

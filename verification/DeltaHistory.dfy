/** What a switch reports, from the events of the run alone: which packets passed it before, and in which column. */
module DeltaHistory {
  import opened Lists
  import opened DeltaSwitch
  import opened DeltaReceiver
  import opened DeltaProtocol

  /** What is recorded after a packet with the states `cur` when `rec` was recorded before. */
  ghost function Outputs(c: Config, cur: seq<int>, rec: Option<seq<int>>): (r: seq<int>)
    requires |cur| == |c.thresholds| == STATES
    ensures |r| == STATES
  {
    seq(STATES, j requires 0 <= j < STATES =>
          if rec.Some? && |rec.value| == STATES && rec.value[j] != -1 &&
             -c.thresholds[j] <= cur[j] - rec.value[j] <= c.thresholds[j]
          then rec.value[j] else cur[j])
  }

  /** What is recorded for `key` after one more event: a packet of the same flow at the same switch renews it, one of
      another flow in the same column of that switch evicts it, anything else leaves it. */
  ghost function RecordedNext(c: Config, route: int -> seq<nat>, key: Key, rec: Option<seq<int>>, e: Event):
    Option<seq<int>>
    requires Runnable(c) && OnRoute(route, key)
  {
    if e.Arrive? || !OnRoute(route, e.key) || !Plausible(e.cur) || SwitchAt(route, e.key) != SwitchAt(route, key) ||
       c.hash(e.key.flow) % c.width != c.hash(key.flow) % c.width then rec
    else if e.key.flow == key.flow && c.hashnum > 0 then Some(Outputs(c, e.cur, rec))
    else None
  }

  /** What is recorded for `key` after the events `es`. */
  ghost function Recorded(c: Config, route: int -> seq<nat>, key: Key, rec: Option<seq<int>>, es: seq<Event>):
    Option<seq<int>>
    requires Runnable(c) && OnRoute(route, key)
    decreases |es|
  {
    if es == [] then rec else Recorded(c, route, key, RecordedNext(c, route, key, rec, es[0]), es[1..])
  }

  /** At the start a flow owns a bucket only when its key is the -1 of an empty one, and nothing is recorded in it. */
  ghost function AtStart(c: Config, flow: int): Option<seq<int>> {
    if c.hashnum > 0 && flow == -1 then Some([-1, -1, -1, -1]) else None
  }

  /** What the switch of `key` has for its flow. */
  ghost function Held(c: Config, route: int -> seq<nat>, s: System, key: Key): (r: Option<seq<int>>)
    requires Sized(c, route, s) && OnRoute(route, key)
    ensures r.Some? ==> |r.value| == STATES
  {
    assert route(key.flow)[|route(key.flow)| - 1 - key.hop] < |s.sketches|;
    Load(c, s.sketches[SwitchAt(route, key)], key.flow)
  }

  lemma {:induction false} OutputIs(c: Config, sk: Sketch, flow: int, cur: seq<int>)
    requires Runnable(c) && Shaped(c, sk) && |cur| == STATES
    ensures Output(c, sk, flow, cur) == Outputs(c, cur, Load(c, sk, flow))
  {
    forall j: nat | j < STATES ensures Output(c, sk, flow, cur)[j] == Outputs(c, cur, Load(c, sk, flow))[j] {
      OmittedExactly(c, sk, flow, cur, j);
    }
  }

  lemma {:induction false} StepHeld(c: Config, route: int -> seq<nat>, s: System, key: Key, e: Event)
    requires Inv(c, route, s) && Enabled(route, s, e) && OnRoute(route, key)
    ensures Inv(c, route, Step(c, route, s, e))
    ensures Held(c, route, Step(c, route, s, e), key) == RecordedNext(c, route, key, Held(c, route, s, key), e)
  {
    hide AllAgree, TransitRight, TorKnown, Output, Store, Load, Shaped, Outputs, Writable, Received;
    StepKeepsInv(c, route, s, e);
    if e.Pass? && SwitchAt(route, e.key) == SwitchAt(route, key) {
      var sk := s.sketches[SwitchAt(route, key)];
      OutputIs(c, sk, e.key.flow, e.cur);
      Stored(c, sk, e.key.flow, Output(c, sk, e.key.flow, e.cur), key.flow);
    }
  }

  lemma {:induction false} Stored(c: Config, sk: Sketch, flow: int, out: seq<int>, other: int)
    requires Runnable(c) && Shaped(c, sk) && |out| == STATES
    ensures Load(c, Store(c, sk, flow, out), other) ==
            if c.hash(other) % c.width != c.hash(flow) % c.width then Load(c, sk, other)
            else if c.hashnum > 0 && other == flow then Some(out) else None
  {
    LoadAfterStore(c, sk, flow, out, other, 0);
  }

  lemma {:induction false} RunHeld(c: Config, route: int -> seq<nat>, s: System, key: Key, es: seq<Event>)
    requires Inv(c, route, s) && Runs(c, route, s, es) && OnRoute(route, key)
    ensures Inv(c, route, After(c, route, s, es))
    ensures Held(c, route, After(c, route, s, es), key) == Recorded(c, route, key, Held(c, route, s, key), es)
    decreases |es|
  {
    hide AllAgree, TransitRight, TorKnown, Step, Held, RecordedNext, Enabled;
    if es != [] {
      StepHeld(c, route, s, key, es[0]);
      RunHeld(c, route, Step(c, route, s, es[0]), key, es[1..]);
    }
  }

  lemma {:induction false} StartHeld(c: Config, route: int -> seq<nat>, s: System, key: Key)
    requires Started(c, route, s) && OnRoute(route, key)
    ensures Held(c, route, s, key) == AtStart(c, key.flow)
  {
    assert route(key.flow)[|route(key.flow)| - 1 - key.hop] < |s.sketches|;
    hide Held, Blank;
    BlankHeld(c, s.sketches[SwitchAt(route, key)], key.flow);
    HeldIs(c, route, s, key);
  }

  lemma {:induction false} HeldIs(c: Config, route: int -> seq<nat>, s: System, key: Key)
    requires Sized(c, route, s) && OnRoute(route, key)
    ensures SwitchAt(route, key) < |s.sketches|
    ensures Held(c, route, s, key) == Load(c, s.sketches[SwitchAt(route, key)], key.flow)
  {
    assert route(key.flow)[|route(key.flow)| - 1 - key.hop] < |s.sketches|;
  }

  lemma {:induction false} BlankHeld(c: Config, sk: Sketch, flow: int)
    requires Runnable(c) && Shaped(c, sk) && Blank(sk)
    ensures Load(c, sk, flow) == AtStart(c, flow)
  {
    forall r | 0 <= r < |sk| ensures sk[r][c.hash(flow) % c.width] == EMPTY {
    }
    LoadFirst(c, sk, flow);
    if |sk| > 0 && flow == -1 {
      assert FirstOwned(c, sk, flow, 0);
    }
  }

  /** In every run a packet that passes a hop omits exactly the fields that are within the threshold of what the earlier
      events left recorded there; those stay recorded, all others are reported and recorded as they are. */
  lemma {:induction false} ReportsByHistory(c: Config, route: int -> seq<nat>, s0: System, es: seq<Event>, key: Key,
                                            cur: seq<int>, j: nat)
    requires Started(c, route, s0) && Runs(c, route, s0, es) && OnRoute(route, key) && Plausible(cur) && j < STATES
    ensures var (s, rec) := (After(c, route, s0, es), Recorded(c, route, key, AtStart(c, key.flow), es));
            var xs := Transit(Step(c, route, s, Pass(key, cur)), key);
            (rec.Some? ==> |rec.value| == STATES) && |c.thresholds| == STATES && |xs| == |Transit(s, key)| + 1 &&
            var x := xs[|xs|-1];
            x.cur == cur && |x.header| == |x.out| == STATES &&
            (x.header[j].None? <==> rec.Some? && rec.value[j] != -1 &&
                                    -c.thresholds[j] <= cur[j] - rec.value[j] <= c.thresholds[j]) &&
            (x.header[j].None? ==> x.out[j] == rec.value[j]) &&
            (x.header[j].Some? ==> x.header[j].value == x.out[j] == cur[j])
  {
    hide Started, AllAgree, TransitRight, TorKnown, Recorded, Held, Runs, After, AtStart, Report, Output, Load, Store,
         Shaped;
    StartInv(c, route, s0);
    StartHeld(c, route, s0, key);
    RunHeld(c, route, s0, key, es);
    var s := After(c, route, s0, es);
    HeldIs(c, route, s, key);
    OmittedExactly(c, s.sketches[SwitchAt(route, key)], key.flow, cur, j);
  }
}

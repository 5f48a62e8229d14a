/** The switch side of the state protocol: hash-indexed sketches that remember the last reported states of a flow. */
module DeltaSwitch {
  import opened Lists

  /** Device number, ingress port, egress port, latency. */
  const STATES := 4

  datatype Bucket = Bucket(flowkey: int, states: seq<int>)

  type Sketch = seq<seq<Bucket>>

  /** `hash` may be any function; every row of a sketch uses the same column. */
  datatype Config = Config(hashnum: nat, width: nat, hash: int -> nat, thresholds: seq<int>)

  predicate Runnable(c: Config) {
    c.width > 0 && |c.thresholds| == STATES
  }

  predicate Shaped(c: Config, sk: Sketch) {
    |sk| == c.hashnum && (forall r :: 0 <= r < |sk| ==> |sk[r]| == c.width) &&
    forall r, k :: 0 <= r < |sk| && 0 <= k < c.width ==> |sk[r][k].states| == STATES
  }

  function Col(c: Config, flow: int): (r: nat)
    requires Runnable(c)
    ensures r < c.width
  {
    c.hash(flow) % c.width
  }

  /** The states in the first bucket, from `row` on, that the flow owns. */
  function LoadFrom(c: Config, sk: Sketch, flow: int, row: nat): (r: Option<seq<int>>)
    requires Runnable(c) && Shaped(c, sk)
    ensures r.Some? ==> |r.value| == STATES
    decreases |sk| - row
  {
    if row >= |sk| then None
    else if sk[row][Col(c, flow)].flowkey == flow then Some(sk[row][Col(c, flow)].states)
    else LoadFrom(c, sk, flow, row + 1)
  }

  function Load(c: Config, sk: Sketch, flow: int): (r: Option<seq<int>>)
    requires Runnable(c) && Shaped(c, sk)
    ensures r.Some? ==> |r.value| == STATES
  {
    LoadFrom(c, sk, flow, 0)
  }

  function Abs(x: int): (r: int)
    ensures r >= 0 && (r == x || r == -x)
  {
    if x < 0 then -x else x
  }

  /** State `i` is recorded and has changed by no more than its threshold. */
  predicate Suppressed(c: Config, cur: seq<int>, rec: seq<int>, i: nat)
    requires |cur| == |rec| == |c.thresholds| && i < |cur|
  {
    rec[i] != -1 && Abs(cur[i] - rec[i]) <= c.thresholds[i]
  }

  function Delta(c: Config, cur: seq<int>, rec: seq<int>): (r: seq<int>)
    requires |cur| == |rec| == |c.thresholds|
    ensures |r| == |cur| && forall i :: 0 <= i < |cur| ==>
              r[i] == if rec[i] != -1 && -c.thresholds[i] <= cur[i] - rec[i] <= c.thresholds[i] then rec[i] else cur[i]
  {
    seq(|cur|, i requires 0 <= i < |cur| => if Suppressed(c, cur, rec, i) then rec[i] else cur[i])
  }

  /** What the switch records, and what the receiver is meant to know, after the packet. */
  function Output(c: Config, sk: Sketch, flow: int, cur: seq<int>): (r: seq<int>)
    requires Runnable(c) && Shaped(c, sk) && |cur| == STATES
    ensures |r| == STATES
  {
    match Load(c, sk, flow)
    case None => cur
    case Some(rec) => Delta(c, cur, rec)
  }

  /** The reported fields: all that are not suppressed. */
  function Report(c: Config, sk: Sketch, flow: int, cur: seq<int>): (h: seq<Option<int>>)
    requires Runnable(c) && Shaped(c, sk) && |cur| == STATES
    ensures |h| == STATES
  {
    var rec := Load(c, sk, flow);
    seq(STATES, i requires 0 <= i < STATES => if rec.Some? && Suppressed(c, cur, rec.value, i) then None
        else Some(cur[i]))
  }

  /** Every row is overwritten at the column of the flow. */
  function Store(c: Config, sk: Sketch, flow: int, outputs: seq<int>): (r: Sketch)
    requires Runnable(c) && Shaped(c, sk) && |outputs| == STATES
    ensures Shaped(c, r)
  {
    StoreTo(c, sk, flow, outputs, |sk|)
  }

  function StoreRow(row: seq<Bucket>, col: nat, b: Bucket): (r: seq<Bucket>)
    requires col < |row|
    ensures |r| == |row|
  {
    row[col := b]
  }

  function StoreTo(c: Config, sk: Sketch, flow: int, outputs: seq<int>, rows: nat): (r: Sketch)
    requires Runnable(c) && Shaped(c, sk) && |outputs| == STATES && rows <= |sk|
    ensures Shaped(c, r)
  {
    seq(|sk|, i requires 0 <= i < |sk| => if i < rows then StoreRow(sk[i], Col(c, flow), Bucket(flow, outputs))
        else sk[i])
  }

  /** After a flow is stored it is found with what was stored, flows of the same column are evicted, others are
      untouched. */
  lemma {:induction false} LoadAfterStore(c: Config, sk: Sketch, flow: int, outputs: seq<int>, other: int, row: nat)
    requires Runnable(c) && Shaped(c, sk) && |outputs| == STATES && row <= |sk|
    ensures LoadFrom(c, Store(c, sk, flow, outputs), other, row) ==
            if c.hash(other) % c.width != c.hash(flow) % c.width then LoadFrom(c, sk, other, row)
            else if row < |sk| && other == flow then Some(outputs) else None
    decreases |sk| - row
  {
    if row < |sk| {
      LoadAfterStore(c, sk, flow, outputs, other, row + 1);
    }
  }

  /** Row `r` is the first one whose bucket the flow owns. */
  ghost predicate FirstOwned(c: Config, sk: Sketch, flow: int, r: nat)
    requires Runnable(c) && Shaped(c, sk)
  {
    r < |sk| && sk[r][c.hash(flow) % c.width].flowkey == flow &&
    forall k :: 0 <= k < r ==> sk[k][c.hash(flow) % c.width].flowkey != flow
  }

  /** What is loaded is what the first bucket of the flow holds, and nothing exactly when the flow owns none. */
  lemma {:induction false} LoadFirst(c: Config, sk: Sketch, flow: int)
    requires Runnable(c) && Shaped(c, sk)
    ensures Load(c, sk, flow).Some? <==> exists r: nat :: FirstOwned(c, sk, flow, r)
    ensures forall r: nat :: FirstOwned(c, sk, flow, r) ==>
              Load(c, sk, flow) == Some(sk[r][c.hash(flow) % c.width].states)
  {
    LoadFromFirst(c, sk, flow, 0);
  }

  lemma {:induction false} LoadFromFirst(c: Config, sk: Sketch, flow: int, row: nat)
    requires Runnable(c) && Shaped(c, sk) && row <= |sk|
    requires forall k :: 0 <= k < row ==> sk[k][c.hash(flow) % c.width].flowkey != flow
    ensures LoadFrom(c, sk, flow, row).Some? <==> exists r: nat :: FirstOwned(c, sk, flow, r)
    ensures forall r: nat :: FirstOwned(c, sk, flow, r) ==>
              LoadFrom(c, sk, flow, row) == Some(sk[r][c.hash(flow) % c.width].states)
    decreases |sk| - row
  {
    if row < |sk| {
      if sk[row][c.hash(flow) % c.width].flowkey == flow {
        assert FirstOwned(c, sk, flow, row);
      } else {
        LoadFromFirst(c, sk, flow, row + 1);
      }
    }
  }

  /** A field is omitted exactly when the flow owns a bucket with a recorded state within the threshold; the switch then
      keeps the recorded state, and otherwise reports and records the current one. */
  lemma {:induction false} OmittedExactly(c: Config, sk: Sketch, flow: int, cur: seq<int>, i: nat)
    requires Runnable(c) && Shaped(c, sk) && |cur| == STATES && i < STATES
    ensures var out, h, rec := Output(c, sk, flow, cur), Report(c, sk, flow, cur), Load(c, sk, flow);
            (h[i].None? <==> rec.Some? && rec.value[i] != -1 &&
                             -c.thresholds[i] <= cur[i] - rec.value[i] <= c.thresholds[i]) &&
            (h[i].None? ==> out[i] == rec.value[i]) && (h[i].Some? ==> h[i].value == out[i] == cur[i])
  {
  }

  /** A field is either reported as it is, or recorded already and within its threshold. */
  lemma {:induction false} ReportOrRecorded(c: Config, sk: Sketch, flow: int, cur: seq<int>, i: nat)
    requires Runnable(c) && Shaped(c, sk) && |cur| == STATES && i < STATES
    ensures var out, h, rec := Output(c, sk, flow, cur), Report(c, sk, flow, cur), Load(c, sk, flow);
            if h[i].Some? then h[i].value == out[i] == cur[i]
            else rec.Some? && out[i] == rec.value[i] && rec.value[i] != -1 && Abs(cur[i] - out[i]) <= c.thresholds[i]
  {
  }

  /** The sketches after the first `k` hops of a packet whose hop number `n` is at sketch `path[n]`. */
  ghost function Passed(c: Config, sketches: seq<Sketch>, flow: int, path: seq<nat>, intlist: seq<seq<int>>,
                        k: nat): (r: seq<Sketch>)
    requires Runnable(c) && PacketFits(c, sketches, path, intlist) && k <= |path|
    ensures |r| == |sketches| && forall s :: 0 <= s < |r| ==> Shaped(c, r[s])
  {
    if k == 0 then
      sketches
    else
      var before := Passed(c, sketches, flow, path, intlist, k - 1);
      before[path[k-1] := Store(c, before[path[k-1]], flow, Output(c, before[path[k-1]], flow, intlist[k-1]))]
  }

  ghost predicate PacketFits(c: Config, sketches: seq<Sketch>, path: seq<nat>, intlist: seq<seq<int>>) {
    (forall s :: 0 <= s < |sketches| ==> Shaped(c, sketches[s])) && |intlist| == |path| &&
    (forall k :: 0 <= k < |path| ==> path[k] < |sketches|) && forall k :: 0 <= k < |intlist| ==> |intlist[k]| == STATES
  }

  ghost predicate Outputs(c: Config, sketches: seq<Sketch>, flow: int, path: seq<nat>, intlist: seq<seq<int>>,
                          outputs: seq<seq<int>>, n: nat)
    requires Runnable(c) && PacketFits(c, sketches, path, intlist) && n <= |path|
  {
    |outputs| == n &&
    forall k :: 0 <= k < n ==>
      outputs[k] == Output(c, Passed(c, sketches, flow, path, intlist, k)[path[k]], flow, intlist[k])
  }

  lemma {:induction false} PassedNone(c: Config, sketches: seq<Sketch>, flow: int, path: seq<nat>,
                                      intlist: seq<seq<int>>)
    requires Runnable(c) && PacketFits(c, sketches, path, intlist)
    ensures Passed(c, sketches, flow, path, intlist, 0) == sketches
  {
  }

  lemma {:induction false} PassedNext(c: Config, sketches: seq<Sketch>, flow: int, path: seq<nat>,
                                      intlist: seq<seq<int>>, k: nat)
    requires Runnable(c) && PacketFits(c, sketches, path, intlist) && k < |path|
    ensures var before := Passed(c, sketches, flow, path, intlist, k);
            Passed(c, sketches, flow, path, intlist, k + 1) ==
            before[path[k] := Store(c, before[path[k]], flow, Output(c, before[path[k]], flow, intlist[k]))]
  {
  }

  /** On a path without repeated switches each hop sees the sketch as the packet found it, and changes it once. */
  lemma {:induction false} PassedOnce(c: Config, sketches: seq<Sketch>, flow: int, path: seq<nat>,
                                      intlist: seq<seq<int>>, k: nat)
    requires Runnable(c) && PacketFits(c, sketches, path, intlist) && Distinct(path) && k <= |path|
    ensures forall s :: 0 <= s < |sketches| && s !in path[..k] ==>
            Passed(c, sketches, flow, path, intlist, k)[s] == sketches[s]
    ensures forall n :: 0 <= n < k ==>
              Passed(c, sketches, flow, path, intlist, k)[path[n]] ==
                Store(c, sketches[path[n]], flow, Output(c, sketches[path[n]], flow, intlist[n]))
  {
    if k > 0 {
      PassedOnce(c, sketches, flow, path, intlist, k - 1);
      assert path[..k] == path[..k-1] + [path[k-1]];
      hide Store, Output, Shaped;
    }
  }

  class Switches {
    const c: Config
    var sketches: seq<Sketch>

    /** `init_sketches`. */
    constructor (c: Config, hopnum: nat)
      requires Runnable(c)
      ensures this.c == c && |sketches| == hopnum &&
              forall s :: 0 <= s < hopnum ==> Shaped(c, sketches[s]) && Blank(sketches[s])
    {
      this.c := c;
      sketches := [];
      new;
      for s := 0 to hopnum
        invariant |sketches| == s && forall t :: 0 <= t < s ==> Shaped(c, sketches[t]) && Blank(sketches[t])
      {
        var sketch: Sketch := [];
        for i := 0 to c.hashnum
          invariant |sketch| == i && forall r, k :: 0 <= r < i && 0 <= k < |sketch[r]| ==> sketch[r][k] == EMPTY
          invariant forall r :: 0 <= r < i ==> |sketch[r]| == c.width
        {
          var row: seq<Bucket> := [];
          for j := 0 to c.width
            invariant |row| == j && forall k :: 0 <= k < j ==> row[k] == EMPTY
          {
            row := row + [EMPTY];
          }
          sketch := sketch + [row];
        }
        sketches := sketches + [sketch];
      }
    }

    /** `state_load`. */
    method StateLoad(s: nat, flow: int) returns (r: Option<seq<int>>)
      requires Runnable(c) && s < |sketches| && Shaped(c, sketches[s])
      ensures r == Load(c, sketches[s], flow)
    {
      var sketch := sketches[s];
      for row := 0 to c.hashnum
        invariant Load(c, sketch, flow) == LoadFrom(c, sketch, flow, row)
      {
        var bucket := sketch[row][Col(c, flow)];
        if bucket.flowkey == flow {
          return Some(bucket.states);
        }
      }
      r := None;
    }

    /** `delta_calc`. */
    method DeltaCalc(cur: seq<int>, rec: seq<int>) returns (results: seq<int>)
      requires |cur| == |rec| == |c.thresholds|
      ensures results == Delta(c, cur, rec)
      ensures |results| == |cur| && forall i :: 0 <= i < |cur| ==>
                results[i] == if rec[i] != -1 && -c.thresholds[i] <= cur[i] - rec[i] <= c.thresholds[i] then rec[i]
                              else cur[i]
    {
      results := [];
      for i := 0 to |cur|
        invariant results == Delta(c, cur, rec)[..i]
      {
        if rec[i] != -1 && Abs(cur[i] - rec[i]) <= c.thresholds[i] {
          results := results + [rec[i]];
        } else {
          results := results + [cur[i]];
        }
      }
    }

    /** `state_update`. */
    method StateUpdate(s: nat, flow: int, outputs: seq<int>)
      requires Runnable(c) && s < |sketches| && Shaped(c, sketches[s]) && |outputs| == STATES
      modifies this`sketches
      ensures sketches == old(sketches)[s := Store(c, old(sketches[s]), flow, outputs)]
    {
      ghost var sk := sketches[s];
      assert StoreTo(c, sk, flow, outputs, 0) == sk;
      for row := 0 to c.hashnum
        invariant sketches == old(sketches)[s := StoreTo(c, sk, flow, outputs, row)]
      {
        sketches := sketches[s := sketches[s][row := sketches[s][row][Col(c, flow) := Bucket(flow, outputs)]]];
        assert sketches[s] == StoreTo(c, sk, flow, outputs, row + 1);
      }
    }

    /** The loop body for one hop. */
    method OneHop(s: nat, flow: int, cur: seq<int>) returns (output: seq<int>)
      requires Runnable(c) && s < |sketches| && Shaped(c, sketches[s]) && |cur| == STATES
      modifies this`sketches
      ensures output == Output(c, old(sketches[s]), flow, cur)
      ensures sketches == old(sketches)[s := Store(c, old(sketches[s]), flow, output)]
    {
      var recstates := StateLoad(s, flow);
      if recstates.Some? {
        output := DeltaCalc(cur, recstates.value);
      } else {
        output := cur;
      }
      StateUpdate(s, flow, output);
    }

    /** The hop loop for one packet; hop number `n` is at sketch `path[n]`. */
    method Packet(flow: int, path: seq<nat>, intlist: seq<seq<int>>) returns (outputs: seq<seq<int>>)
      requires Runnable(c) && PacketFits(c, sketches, path, intlist)
      modifies this`sketches
      ensures sketches == Passed(c, old(sketches), flow, path, intlist, |path|)
      ensures Outputs(c, old(sketches), flow, path, intlist, outputs, |path|)
    {
      hide Runnable, Shaped, Output, Store, Load, Passed, Col;
      PassedNone(c, sketches, flow, path, intlist);
      outputs := [];
      for idx := 0 to |path|
        invariant sketches == Passed(c, old(sketches), flow, path, intlist, idx)
        invariant Outputs(c, old(sketches), flow, path, intlist, outputs, idx)
      {
        PassedNext(c, old(sketches), flow, path, intlist, idx);
        var output := OneHop(path[idx], flow, intlist[idx]);
        outputs := outputs + [output];
      }
    }
  }

  const EMPTY := Bucket(-1, [-1, -1, -1, -1])

  predicate Blank(sk: Sketch) {
    forall r, k :: 0 <= r < |sk| && 0 <= k < |sk[r]| ==> sk[r][k] == EMPTY
  }
}

/** The receiver side: fields that were omitted are filled in from what was last received for the flow and hop. */
module DeltaReceiver {
  import opened Lists
  import opened DeltaWire

  const FIELDS := 4

  /** A flow and a hop, counted from the last one. */
  datatype Key = Key(flow: int, hop: nat)

  /** One map per field; the `tor` values are what is known of the last switch, whatever the flow. */
  datatype Book = Book(device: map<Key, int>, iport: map<Key, int>, eport: map<Key, int>, timedelta: map<Key, int>,
                       torDevice: Option<int>, torEport: Option<int>, torTimedelta: Option<int>)

  const NOTHING := Book(map[], map[], map[], map[], None, None, None)

  /** The map of field j. */
  function Map(b: Book, j: nat): map<Key, int>
    requires j < FIELDS
  {
    if j == 0 then b.device else if j == 1 then b.iport else if j == 2 then b.eport else b.timedelta
  }

  /** What is known of field j of the last switch; nothing is kept for the ingress port. */
  function Tor(b: Book, j: nat): Option<int>
    requires j < FIELDS
  {
    if j == 0 then b.torDevice else if j == 1 then None else if j == 2 then b.torEport else b.torTimedelta
  }

  function Put(b: Book, j: nat, key: Key, v: int): Book
    requires j < FIELDS
  {
    if j == 0 then b.(device := b.device[key := v]) else if j == 1 then b.(iport := b.iport[key := v])
    else if j == 2 then b.(eport := b.eport[key := v]) else b.(timedelta := b.timedelta[key := v])
  }

  function PutTor(b: Book, j: nat, v: int): Book
    requires j < FIELDS
  {
    if j == 0 then b.(torDevice := Some(v)) else if j == 1 then b
    else if j == 2 then b.(torEport := Some(v)) else b.(torTimedelta := Some(v))
  }

  function Lookup(b: Book, j: nat, key: Key): Option<int>
    requires j < FIELDS
  {
    if key in Map(b, j) then Some(Map(b, j)[key]) else None
  }

  /** Field j of the last hop is not kept apart by flow. */
  predicate Overlaps(key: Key, j: nat) {
    key.hop == 0 && j != 1
  }

  function Field(h: Header, j: nat): Option<int>
    requires j < FIELDS
  {
    if j == 0 then h.device else if j == 1 then h.iport else if j == 2 then h.eport else h.timedelta
  }

  datatype Filled<+T> = Filled(value: Parsed<T>, book: Book)

  /** One field of one hop. */
  function Fill(b: Book, key: Key, j: nat, x: Option<int>): Filled<Option<int>>
    requires j < FIELDS
  {
    match x
    case None =>
      if Overlaps(key, j) then Filled(Parsed(Tor(b, j)), b)
      else if key !in Map(b, j) then Filled(if j == 3 then Parsed(None) else Exited, b)
      else Filled(Parsed(Some(Map(b, j)[key])), b)
    case Some(v) =>
      var b1 := if Overlaps(key, j) && (j == 3 || Tor(b, j).None?) then PutTor(b, j, v) else b;
      Filled(Parsed(Some(v)), Put(b1, j, key, v))
  }

  /** Fields j and up of one hop. */
  function FillFrom(b: Book, key: Key, h: Header, j: nat): (r: Filled<seq<Option<int>>>)
    requires j <= FIELDS
    ensures r.value.Parsed? ==> |r.value.value| == FIELDS - j
    decreases FIELDS - j
  {
    if j == FIELDS then Filled(Parsed([]), b) else
    var first := Fill(b, key, j, Field(h, j));
    if !first.value.Parsed? then Filled(Exited, first.book) else
    var rest := FillFrom(first.book, key, h, j + 1);
    rest.(value := Consed(first.value.value, rest.value))
  }

  function Consed<T>(x: T, xs: Parsed<seq<T>>): Parsed<seq<T>> {
    if xs.Parsed? then Parsed([x] + xs.value) else xs
  }

  function Appended<T>(xs: Parsed<seq<T>>, tail: seq<T>): Parsed<seq<T>> {
    if xs.Parsed? then Parsed(xs.value + tail) else xs
  }

  /** One hop: the key holds the hop in one byte, and a missing latency cannot be compared with the threshold. */
  function FillHop(b: Book, key: Key, h: Header): (r: Filled<seq<Option<int>>>)
    ensures r.value.Parsed? ==> |r.value.value| == FIELDS
  {
    if key.hop > 255 then Filled(Raised, b) else
    var all := FillFrom(b, key, h, 0);
    if all.value.Parsed? && all.value.value[3].None? then Filled(Raised, all.book) else all
  }

  /** The hops `k` - 1 down to 0 of a packet; the result is in hop order. */
  function FillHops(b: Book, flow: int, hs: seq<Header>, k: nat): (r: Filled<seq<seq<Option<int>>>>)
    requires k <= |hs|
    ensures r.value.Parsed? ==> |r.value.value| == k
    decreases k
  {
    if k == 0 then Filled(Parsed([]), b) else
    var last := FillHop(b, Key(flow, k - 1), hs[k-1]);
    if last.value.Exited? then Filled(Exited, last.book) else if last.value.Raised? then Filled(Raised, last.book) else
    var rest := FillHops(last.book, flow, hs, k - 1);
    rest.(value := Appended(rest.value, [last.value.value]))
  }

  class Receiver {
    var deviceMap: map<Key, int>
    var iportMap: map<Key, int>
    var eportMap: map<Key, int>
    var timedeltaMap: map<Key, int>
    var torDevice: Option<int>
    var torEport: Option<int>
    var torTimedelta: Option<int>

    constructor ()
      ensures View() == NOTHING
    {
      deviceMap, iportMap, eportMap, timedeltaMap := map[], map[], map[], map[];
      torDevice, torEport, torTimedelta := None, None, None;
    }

    function View(): Book
      reads this
    {
      Book(deviceMap, iportMap, eportMap, timedeltaMap, torDevice, torEport, torTimedelta)
    }

    /** The device number of one hop; this and the next three are the four parts of the loop body. */
    method RecoverDevice(key: Key, x: Option<int>) returns (r: Parsed<Option<int>>)
      modifies this`deviceMap, this`torDevice
      ensures Filled(r, View()) == Fill(old(View()), key, 0, x)
    {
      if x.None? {
        if key.hop == 0 {
          r := Parsed(torDevice);
        } else if key !in deviceMap {
          r := Exited;
        } else {
          r := Parsed(Some(deviceMap[key]));
        }
      } else {
        if key.hop == 0 && torDevice.None? {
          torDevice := x;
        }
        deviceMap := deviceMap[key := x.value];
        r := Parsed(x);
      }
    }

    method RecoverIport(key: Key, x: Option<int>) returns (r: Parsed<Option<int>>)
      modifies this`iportMap
      ensures Filled(r, View()) == Fill(old(View()), key, 1, x)
    {
      if x.None? {
        if key !in iportMap {
          r := Exited;
        } else {
          r := Parsed(Some(iportMap[key]));
        }
      } else {
        iportMap := iportMap[key := x.value];
        r := Parsed(x);
      }
    }

    method RecoverEport(key: Key, x: Option<int>) returns (r: Parsed<Option<int>>)
      modifies this`eportMap, this`torEport
      ensures Filled(r, View()) == Fill(old(View()), key, 2, x)
    {
      if x.None? {
        if key.hop == 0 {
          r := Parsed(torEport);
        } else if key !in eportMap {
          r := Exited;
        } else {
          r := Parsed(Some(eportMap[key]));
        }
      } else {
        if key.hop == 0 && torEport.None? {
          torEport := x;
        }
        eportMap := eportMap[key := x.value];
        r := Parsed(x);
      }
    }

    method RecoverTimedelta(key: Key, x: Option<int>) returns (r: Parsed<Option<int>>)
      modifies this`timedeltaMap, this`torTimedelta
      ensures Filled(r, View()) == Fill(old(View()), key, 3, x)
    {
      if x.None? {
        if key.hop == 0 {
          r := Parsed(torTimedelta);
        } else if key !in timedeltaMap {
          r := Parsed(None);
        } else {
          r := Parsed(Some(timedeltaMap[key]));
        }
      } else {
        if key.hop == 0 {
          torTimedelta := x;
        }
        timedeltaMap := timedeltaMap[key := x.value];
        r := Parsed(x);
      }
    }

    /** The loop body for one hop. */
    method RecoverHop(key: Key, h: Header) returns (r: Parsed<seq<Option<int>>>)
      modifies this
      ensures Filled(r, View()) == FillHop(old(View()), key, h)
    {
      hide Fill, View, FillFrom;
      if key.hop > 255 {
        return Raised;
      }
      ghost var b0 := View();
      var device := RecoverDevice(key, h.device);
      ghost var b1 := View();
      Next(b0, key, h, 0, device, b1);
      if !device.Parsed? {
        return Exited;
      }
      var iport := RecoverIport(key, h.iport);
      ghost var b2 := View();
      Next(b1, key, h, 1, iport, b2);
      if !iport.Parsed? {
        return Exited;
      }
      var eport := RecoverEport(key, h.eport);
      ghost var b3 := View();
      Next(b2, key, h, 2, eport, b3);
      if !eport.Parsed? {
        return Exited;
      }
      var timedelta := RecoverTimedelta(key, h.timedelta);
      Next(b3, key, h, 3, timedelta, View());
      Last(View(), key, h);
      LatencyParsed(b3, key, h.timedelta);
      assert [device.value] + ([iport.value] + ([eport.value] + ([timedelta.value] + []))) ==
             [device.value, iport.value, eport.value, timedelta.value];
      if timedelta.value.None? {
        return Raised;
      }
      r := Parsed([device.value, iport.value, eport.value, timedelta.value]);
    }

    /** The per-hop loop for one packet. */
    method Receive(flow: int, intlist: seq<Header>) returns (r: Parsed<seq<seq<Option<int>>>>)
      modifies this
      ensures Filled(r, View()) == FillHops(old(View()), flow, intlist, |intlist|)
    {
      hide FillHop, View;
      var list: seq<seq<Option<int>>> := [];
      var i: nat := |intlist|;
      AppendedNone(FillHops(View(), flow, intlist, i).value);
      while i > 0
        invariant i + |list| == |intlist|
        invariant var rest := FillHops(View(), flow, intlist, i);
                  FillHops(old(View()), flow, intlist, |intlist|) == rest.(value := Appended(rest.value, list))
        decreases i
      {
        ghost var before := View();
        var x := RecoverHop(Key(flow, i - 1), intlist[i-1]);
        if x.Exited? {
          return Exited;
        }
        if x.Raised? {
          return Raised;
        }
        AppendedNext(before, View(), flow, intlist, i, x.value, list);
        list, i := [x.value] + list, i - 1;
      }
      assert [] + list == list;
      r := Parsed(list);
    }
  }

  lemma {:induction false} Next(b: Book, key: Key, h: Header, j: nat, x: Parsed<Option<int>>, b1: Book)
    requires j < FIELDS && Fill(b, key, j, Field(h, j)) == Filled(x, b1)
    ensures FillFrom(b, key, h, j) ==
            if x.Parsed? then var rest := FillFrom(b1, key, h, j + 1); rest.(value := Consed(x.value, rest.value))
              else Filled(Exited, b1)
  {
    hide Fill;
  }

  lemma {:induction false} Last(b: Book, key: Key, h: Header)
    ensures FillFrom(b, key, h, FIELDS) == Filled(Parsed([]), b)
  {
  }

  lemma {:induction false} LatencyParsed(b: Book, key: Key, x: Option<int>)
    ensures Fill(b, key, 3, x).value.Parsed?
  {
  }

  lemma {:induction false} AppendedNone<T>(xs: Parsed<seq<T>>)
    ensures Appended(xs, []) == xs
  {
    assert xs.Parsed? ==> xs.value + [] == xs.value;
  }

  lemma {:induction false} AppendedNext(b: Book, b1: Book, flow: int, hs: seq<Header>, i: nat, x: seq<Option<int>>,
                                        list: seq<seq<Option<int>>>)
    requires 0 < i <= |hs| && FillHop(b, Key(flow, i - 1), hs[i-1]) == Filled(Parsed(x), b1)
    ensures var (now, rest) := (FillHops(b, flow, hs, i), FillHops(b1, flow, hs, i - 1));
            now.(value := Appended(now.value, list)) == rest.(value := Appended(rest.value, [x] + list))
  {
    hide FillHop;
    var rest := FillHops(b1, flow, hs, i - 1);
    if rest.value.Parsed? {
      assert (rest.value.value + [x]) + list == rest.value.value + ([x] + list);
    }
  }
}

/** The metadata headers on the wire: a bitmap byte and only the fields that are reported. */
module DeltaWire {
  import opened Lists

  type Byte = x: int | 0 <= x < 256

  /** Device number, ingress port, egress port, latency; `None` for an omitted field. */
  datatype Header = Header(device: Option<int>, iport: Option<int>, eport: Option<int>, timedelta: Option<int>)

  /** A parse ends well, by `exit(-1)`, or by the exception of `struct.unpack`. */
  datatype Parsed<+T> = Parsed(value: T) | Exited | Raised

  // ---- reading ----

  /** The big-endian number in the first four bytes. */
  function BigEndian(b: seq<Byte>): (r: nat)
    requires |b| >= 4
  {
    var (b0: int, b1: int, b2: int, b3: int) := (b[0], b[1], b[2], b[3]);
    ((b0 * 256 + b1) * 256 + b2) * 256 + b3
  }

  function Bit(bitmap: Byte, weight: nat): (r: nat)
    requires weight > 0
    ensures r < 2
  {
    bitmap / weight % 2
  }

  function TakeByte(present: bool, b: seq<Byte>): (Option<int>, seq<Byte>)
    requires present ==> |b| > 0
  {
    if present then (Some(b[0]), b[1..]) else (None, b)
  }

  /** One header and the bytes after it. */
  function ReadHeader(pkt: seq<Byte>): (r: Parsed<(Header, seq<Byte>)>)
    requires |pkt| > 0
    ensures r.Parsed? ==> |r.value.1| < |pkt|
  {
    var (bitmap, rest) := (pkt[0], pkt[1..]);
    var (d, i, e, t) := (Bit(bitmap, 128), Bit(bitmap, 64), Bit(bitmap, 32), Bit(bitmap, 16));
    if |rest| < d + i + e + t then Exited else
    var (device, rest1) := TakeByte(d == 1, rest);
    var (iport, rest2) := TakeByte(i == 1, rest1);
    var (eport, rest3) := TakeByte(e == 1, rest2);
    if t == 1 then
      if |rest3| < 4 then Raised
      else Parsed((Header(device, iport, eport, Some(BigEndian(rest3) * 128)), rest3[4..]))
    else Parsed((Header(device, iport, eport, None), rest3))
  }

  /** What `int_process` returns. */
  function Read(pkt: seq<Byte>): Parsed<seq<Header>>
    decreases |pkt|
  {
    if pkt == [] then Parsed([]) else
    match ReadHeader(pkt)
    case Exited => Exited
    case Raised => Raised
    case Parsed((h, rest)) =>
      match Read(rest)
      case Exited => Exited
      case Raised => Raised
      case Parsed(hs) => Parsed([h] + hs)
  }

  /** Put the headers read so far in front. */
  function Prefixed(hs: seq<Header>, r: Parsed<seq<Header>>): Parsed<seq<Header>> {
    if r.Parsed? then Parsed(hs + r.value) else r
  }

  method IntProcess(bytes: seq<Byte>) returns (r: Parsed<seq<Header>>)
    ensures r == Read(bytes)
  {
    var pkt, headers := bytes, [];
    assert Read(bytes).Parsed? ==> headers + Read(bytes).value == Read(bytes).value;
    while |pkt| >= 1
      invariant Read(bytes) == Prefixed(headers, Read(pkt))
      decreases |pkt|
    {
      match ReadHeader(pkt)
      case Exited => return Exited;
      case Raised => return Raised;
      case Parsed((h, rest)) =>
        if Read(rest).Parsed? {
          assert headers + ([h] + Read(rest).value) == headers + [h] + Read(rest).value;
        }
        headers, pkt := headers + [h], rest;
    }
    assert headers + [] == headers;
    r := Parsed(headers);
  }

  // ---- writing ----

  /** The fields fit their one byte, or four for the latency. */
  predicate Fits(h: Header) {
    (h.device.Some? ==> 0 <= h.device.value < 256) && (h.iport.Some? ==> 0 <= h.iport.value < 256) &&
    (h.eport.Some? ==> 0 <= h.eport.value < 256) && (h.timedelta.Some? ==> 0 <= h.timedelta.value < 0x1_0000_0000)
  }

  function Weight(f: Option<int>, weight: nat): nat {
    if f.Some? then weight else 0
  }

  function PutByte(f: Option<int>): seq<Byte>
    requires f.Some? ==> 0 <= f.value < 256
  {
    if f.Some? then [f.value] else []
  }

  function PutLatency(f: Option<int>): seq<Byte>
    requires f.Some? ==> 0 <= f.value < 0x1_0000_0000
  {
    if f.Some? then [f.value / 0x100_0000, f.value / 0x1_0000 % 256, f.value / 0x100 % 256, f.value % 256] else []
  }

  /** The header a switch adds. */
  function WriteHeader(h: Header): (r: seq<Byte>)
    requires Fits(h)
    ensures |r| > 0
  {
    [Weight(h.device, 128) + Weight(h.iport, 64) + Weight(h.eport, 32) + Weight(h.timedelta, 16)] +
    PutByte(h.device) + PutByte(h.iport) + PutByte(h.eport) + PutLatency(h.timedelta)
  }

  function Write(hs: seq<Header>): seq<Byte>
    requires forall k :: 0 <= k < |hs| ==> Fits(hs[k])
  {
    if hs == [] then [] else WriteHeader(hs[0]) + Write(hs[1..])
  }

  /** The reader gives the latency in units of 1/128. */
  function Scaled(h: Header): Header {
    h.(timedelta := if h.timedelta.Some? then Some(h.timedelta.value * 128) else None)
  }

  function ScaledAll(hs: seq<Header>): (r: seq<Header>)
    ensures |r| == |hs| && forall k :: 0 <= k < |hs| ==> r[k] == Scaled(hs[k])
  {
    seq(|hs|, k requires 0 <= k < |hs| => Scaled(hs[k]))
  }

  // ---- round trips ----

  lemma {:induction false} TakePut(f: Option<int>, rest: seq<Byte>)
    requires f.Some? ==> 0 <= f.value < 256
    ensures TakeByte(f.Some?, PutByte(f) + rest) == (f, rest)
  {
    assert f.Some? ==> (PutByte(f) + rest)[1..] == rest;
    assert f.None? ==> PutByte(f) + rest == rest;
  }

  lemma {:induction false} Bits(h: Header)
    requires Fits(h)
    ensures var bitmap := WriteHeader(h)[0];
            Bit(bitmap, 128) == Weight(h.device, 1) && Bit(bitmap, 64) == Weight(h.iport, 1) &&
            Bit(bitmap, 32) == Weight(h.eport, 1) && Bit(bitmap, 16) == Weight(h.timedelta, 1)
  {
  }

  lemma {:induction false} Fields(h: Header)
    requires Fits(h)
    ensures WriteHeader(h)[1..] == PutByte(h.device) + (PutByte(h.iport) + (PutByte(h.eport) + PutLatency(h.timedelta)))
  {
    hide PutByte, PutLatency;
  }

  /** A written header is read back, with the latency scaled, whatever follows it. */
  lemma {:induction false} HeaderRoundTrip(h: Header, tail: seq<Byte>)
    requires Fits(h)
    ensures ReadHeader(WriteHeader(h) + tail) == Parsed((Scaled(h), tail))
  {
    hide BigEndian, TakeByte, PutByte, PutLatency, Bit, WriteHeader;
    Bits(h);
    Fields(h);
    var pkt := WriteHeader(h) + tail;
    var rest3 := PutLatency(h.timedelta) + tail;
    var rest2 := PutByte(h.eport) + rest3;
    var rest1 := PutByte(h.iport) + rest2;
    assert pkt[1..] == PutByte(h.device) + rest1;
    PutLength(h.device);
    PutLength(h.iport);
    PutLength(h.eport);
    TakePut(h.device, rest1);
    TakePut(h.iport, rest2);
    TakePut(h.eport, rest3);
    LatencyPut(h.timedelta, tail);
  }

  lemma {:induction false} Digits(v: int)
    requires 0 <= v < 0x1_0000_0000
    ensures v / 0x100_0000 < 256
    ensures v == ((v / 0x100_0000 * 256 + v / 0x1_0000 % 256) * 256 + v / 0x100 % 256) * 256 + v % 256
  {
    var (a, b) := (v / 0x100, v / 0x1_0000);
    assert v == a * 256 + v % 256;
    assert a / 256 == b && a == b * 256 + a % 256;
    assert b / 256 == v / 0x100_0000 && b == b / 256 * 256 + b % 256;
  }

  lemma {:induction false} LatencyPut(f: Option<int>, tail: seq<Byte>)
    requires f.Some? ==> 0 <= f.value < 0x1_0000_0000
    ensures var rest := PutLatency(f) + tail;
            if f.Some? then |rest| >= 4 && BigEndian(rest) == f.value && rest[4..] == tail else rest == tail
  {
    if f.Some? {
      Digits(f.value);
      FourInFront(PutLatency(f), tail);
    }
  }

  /** The number in four bytes does not depend on what follows. */
  lemma {:induction false} FourInFront(b: seq<Byte>, tail: seq<Byte>)
    requires |b| == 4
    ensures BigEndian(b + tail) == BigEndian(b) && (b + tail)[4..] == tail
  {
  }

  lemma {:induction false} PutLength(f: Option<int>)
    requires f.Some? ==> 0 <= f.value < 256
    ensures |PutByte(f)| == Weight(f, 1)
  {
  }

  lemma {:induction false} WireRoundTrip(hs: seq<Header>)
    requires forall k :: 0 <= k < |hs| ==> Fits(hs[k])
    ensures Read(Write(hs)) == Parsed(ScaledAll(hs))
  {
    hide ReadHeader, WriteHeader, Scaled, Fits;
    if hs != [] {
      HeaderRoundTrip(hs[0], Write(hs[1..]));
      WireRoundTrip(hs[1..]);
      assert ScaledAll(hs) == [Scaled(hs[0])] + ScaledAll(hs[1..]);
    }
  }

  /** The header that was written, given that `pkt` is read as a header and `rest`. */
  ghost function Source(pkt: seq<Byte>): (w: Header)
    requires |pkt| > 0 && ReadHeader(pkt).Parsed?
    ensures Scaled(w) == ReadHeader(pkt).value.0
  {
    var h := ReadHeader(pkt).value.0;
    h.(timedelta := if h.timedelta.Some? then Some(h.timedelta.value / 128) else None)
  }

  lemma {:induction false} SourceFields(pkt: seq<Byte>)
    requires |pkt| > 0 && ReadHeader(pkt).Parsed?
    ensures var w := Source(pkt);
            Fits(w) && Bit(pkt[0], 128) == Weight(w.device, 1) && Bit(pkt[0], 64) == Weight(w.iport, 1) &&
            Bit(pkt[0], 32) == Weight(w.eport, 1) && Bit(pkt[0], 16) == Weight(w.timedelta, 1) &&
            pkt[1..] == PutByte(w.device) +
              (PutByte(w.iport) + (PutByte(w.eport) + (PutLatency(w.timedelta) + ReadHeader(pkt).value.1)))
  {
    hide BigEndian, Bit, PutByte, PutLatency;
    var rest := pkt[1..];
    var (d, i, e, t) := (Bit(pkt[0], 128), Bit(pkt[0], 64), Bit(pkt[0], 32), Bit(pkt[0], 16));
    var (device, rest1) := TakeByte(d == 1, rest);
    var (iport, rest2) := TakeByte(i == 1, rest1);
    var (eport, rest3) := TakeByte(e == 1, rest2);
    PutTake(d == 1, rest);
    PutTake(i == 1, rest1);
    PutTake(e == 1, rest2);
    if t == 1 {
      LatencyOf(rest3);
    } else {
      NoLatency(rest3);
    }
  }

  lemma {:induction false} NoLatency(b: seq<Byte>)
    ensures PutLatency(None) + b == b
  {
  }

  /** Whatever is read was written that way, but for the low four bits of the bitmap, which the reader ignores. */
  lemma {:induction false} ReadIsWritten(pkt: seq<Byte>)
    requires |pkt| > 0 && ReadHeader(pkt).Parsed?
    ensures Fits(Source(pkt))
    ensures var rest := ReadHeader(pkt).value.1; [pkt[0] - pkt[0] % 16] + pkt[1..] == WriteHeader(Source(pkt)) + rest
  {
    SourceFields(pkt);
    var (w, rest) := (Source(pkt), ReadHeader(pkt).value.1);
    hide Bit, PutByte, PutLatency, ReadHeader, Source, BigEndian, Fits;
    Nibble(pkt[0]);
    Fields(w);
    Bitmap(w);
    hide WriteHeader;
    Regroup(WriteHeader(w), PutByte(w.device), PutByte(w.iport), PutByte(w.eport), PutLatency(w.timedelta), rest);
  }

  lemma {:induction false} Bitmap(h: Header)
    requires Fits(h)
    ensures WriteHeader(h)[0] == 128 * Weight(h.device, 1) + 64 * Weight(h.iport, 1) + 32 * Weight(h.eport, 1) +
            16 * Weight(h.timedelta, 1)
  {
  }

  lemma {:induction false} Regroup(w: seq<Byte>, a: seq<Byte>, b: seq<Byte>, c: seq<Byte>, d: seq<Byte>,
                                   rest: seq<Byte>)
    requires |w| > 0 && w[1..] == a + (b + (c + d))
    ensures [w[0]] + (a + (b + (c + (d + rest)))) == w + rest
  {
    assert w == [w[0]] + w[1..];
    assert a + (b + (c + (d + rest))) == w[1..] + rest;
  }

  lemma {:induction false} PutTake(present: bool, b: seq<Byte>)
    requires present ==> |b| > 0
    ensures PutByte(TakeByte(present, b).0) + TakeByte(present, b).1 == b
  {
  }

  lemma {:induction false} LatencyOf(b: seq<Byte>)
    requires |b| >= 4
    ensures BigEndian(b) < 0x1_0000_0000 && PutLatency(Some(BigEndian(b))) + b[4..] == b
  {
    var v := BigEndian(b);
    DigitsOf(b[0], b[1], b[2], b[3]);
    assert PutLatency(Some(v)) == [b[0], b[1], b[2], b[3]];
    hide BigEndian, PutLatency;
    assert b == [b[0], b[1], b[2], b[3]] + b[4..];
  }

  lemma {:induction false} DigitsOf(b0: Byte, b1: Byte, b2: Byte, b3: Byte)
    ensures var v := ((b0 as int * 256 + b1) * 256 + b2) * 256 + b3;
            v / 0x100_0000 == b0 && v / 0x1_0000 % 256 == b1 && v / 0x100 % 256 == b2 && v % 256 == b3
  {
    var v := ((b0 as int * 256 + b1) * 256 + b2) * 256 + b3;
    assert v / 0x100 == (b0 as int * 256 + b1) * 256 + b2;
    assert v / 0x1_0000 == b0 as int * 256 + b1;
  }

  /** The bytes of a field that is there, and none for one that is not. */
  ghost function Present(there: bool, b: seq<Byte>): seq<Byte> {
    if there then b else []
  }

  /** The layout of a header: the bits 128, 64, 32 and 16 of the first byte say which of device number, ingress port,
      egress port and latency follow, in that order; the latency takes four bytes, the highest one first, in units
      of 128; the four low bits are ignored. */
  lemma {:induction false} Layout(d: bool, i: bool, e: bool, t: bool, low: nat, device: Byte, iport: Byte, eport: Byte,
                                  l: seq<Byte>, rest: seq<Byte>)
    requires low < 16 && |l| == 4
    ensures var bitmap := (if d then 128 else 0) + (if i then 64 else 0) + (if e then 32 else 0) +
                          (if t then 16 else 0) + low;
            0 <= bitmap < 256 &&
            var latency := l[0] as int * 0x100_0000 + l[1] as int * 0x1_0000 + l[2] as int * 0x100 + l[3];
            var tail := Present(i, [iport]) + (Present(e, [eport]) + (Present(t, l) + rest));
            ReadHeader([bitmap] + (Present(d, [device]) + tail)) ==
            Parsed((Header(if d then Some(device) else None, if i then Some(iport) else None,
                           if e then Some(eport) else None, if t then Some(latency * 128) else None), rest))
  {
    var bitmap := (if d then 128 else 0) + (if i then 64 else 0) + (if e then 32 else 0) + (if t then 16 else 0) + low;
    BitmapBits(d, i, e, t, low);
    var rest3 := Present(t, l) + rest;
    var rest2 := Present(e, [eport]) + rest3;
    var rest1 := Present(i, [iport]) + rest2;
    var tail := Present(d, [device]) + rest1;
    assert ([bitmap] + tail)[1..] == tail;
    TakeWhen(d, device, rest1);
    TakeWhen(i, iport, rest2);
    TakeWhen(e, eport, rest3);
    LatencyWhen(t, l, rest);
    hide Bit, TakeByte, Present, BigEndian;
  }

  lemma {:induction false} BitmapBits(d: bool, i: bool, e: bool, t: bool, low: nat)
    requires low < 16
    ensures var bitmap := (if d then 128 else 0) + (if i then 64 else 0) + (if e then 32 else 0) +
                          (if t then 16 else 0) + low;
            bitmap < 256 && (Bit(bitmap, 128) == 1 <==> d) && (Bit(bitmap, 64) == 1 <==> i) &&
            (Bit(bitmap, 32) == 1 <==> e) && (Bit(bitmap, 16) == 1 <==> t)
  {
  }

  lemma {:induction false} TakeWhen(there: bool, b: Byte, rest: seq<Byte>)
    ensures |Present(there, [b]) + rest| == |rest| + if there then 1 else 0
    ensures TakeByte(there, Present(there, [b]) + rest) == (if there then Some(b as int) else None, rest)
  {
    assert [] + rest == rest;
  }

  lemma {:induction false} LatencyWhen(there: bool, l: seq<Byte>, rest: seq<Byte>)
    requires |l| == 4
    ensures var b := Present(there, l) + rest;
            if there then
              |b| >= 4 && b[4..] == rest &&
              BigEndian(b) == l[0] as int * 0x100_0000 + l[1] as int * 0x1_0000 + l[2] as int * 0x100 + l[3]
            else b == rest
  {
  }

  lemma {:induction false} Nibble(x: Byte)
    ensures x - x % 16 == 128 * Bit(x, 128) + 64 * Bit(x, 64) + 32 * Bit(x, 32) + 16 * Bit(x, 16)
  {
  }
}

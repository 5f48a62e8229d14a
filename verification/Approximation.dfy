/** Approximating a latency by a power and suppressing small changes of the approximation. */
module Approximation {
  import opened Powers

  lemma {:induction false} Scale(k: real, w: real, x: real)
    requires k >= 0.0 && w <= x
    ensures k * w <= k * x
  {
  }

  lemma {:induction false} Unscale(k: real, w: real, x: real)
    requires k > 0.0 && k * w < k * x
    ensures w < x
  {
    if x <= w {
      Scale(k, x, w);
    }
  }

  lemma {:induction false} Quotient(k: real, x: real, y: real)
    requires k > 0.0 && k * x <= y
    ensures x <= y / k
  {
    assert y == k * (y / k);
    if y / k < x {
      Unscale(k, y / k, x);
    }
  }

  /** `r` is the integer part of the logarithm of `y` to the base c^2. */
  ghost predicate IsLog(c: real, y: real, r: nat) {
    Pow(c, 2 * r) <= y < Pow(c, 2 * r + 2)
  }

  lemma {:induction false} PowGrows(c: real, n: nat)
    requires c > 1.0
    ensures Pow(c, n) >= 1.0 + (c - 1.0) * n as real
  {
    if n > 0 {
      PowGrows(c, n - 1);
      Bernoulli(c, Pow(c, n - 1), (n - 1) as real);
    }
  }

  lemma {:induction false} Bernoulli(c: real, p: real, m: real)
    requires c > 1.0 && m >= 0.0 && p >= 1.0 + (c - 1.0) * m
    ensures c * p >= 1.0 + (c - 1.0) * (m + 1.0)
  {
    Scale(c - 1.0, 0.0, m);
    Scale(c - 1.0, 1.0, p);
    assert c * p == p + (c - 1.0) * p;
  }

  lemma {:induction false} PowMonotone(c: real, m: nat, n: nat)
    requires c > 1.0 && m <= n
    ensures 0.0 < Pow(c, m) <= Pow(c, n)
  {
    if n > 0 {
      if m == n {
        PowMonotone(c, m - 1, n - 1);
      } else {
        PowMonotone(c, m, n - 1);
        assert Pow(c, n) == Pow(c, n - 1) + (c - 1.0) * Pow(c, n - 1);
      }
    }
  }

  lemma {:induction false} LogUnique(c: real, y: real, r: nat, s: nat)
    requires c > 1.0 && IsLog(c, y, r) && IsLog(c, y, s)
    ensures r == s
  {
    if r < s {
      PowMonotone(c, 2 * r + 2, 2 * s);
    } else if s < r {
      PowMonotone(c, 2 * s + 2, 2 * r);
    }
  }

  /** `int(math.log(y, c**2))`, with exact logarithms. */
  method Log(c: real, y: real) returns (r: nat)
    requires c > 1.0 && y >= 1.0
    ensures IsLog(c, y, r)
  {
    ghost var bound := (y / (c - 1.0)).Floor + 1;
    r := 0;
    while Pow(c, 2 * r + 2) <= y
      invariant Pow(c, 2 * r) <= y
      decreases bound - r
    {
      LogBound(c, y, r + 1);
      r := r + 1;
    }
  }

  lemma {:induction false} LogBound(c: real, y: real, r: nat)
    requires c > 1.0 && Pow(c, 2 * r) <= y
    ensures r <= (y / (c - 1.0)).Floor + 1
  {
    PowGrows(c, 2 * r);
    Scale(c - 1.0, r as real, (2 * r) as real);
    Quotient(c - 1.0, r as real, y);
  }

  /** The relative error `ap` of x. */
  function Error(ap: real, x: real): real {
    ap * x
  }

  function Abs(x: real): (r: real)
    ensures r >= 0.0 && (r == x || r == -x)
  {
    if x < 0.0 then -x else x
  }

  /** The nearer of the powers for the logarithm rounded down and rounded to the nearest integer; adding one half to
      the logarithm is multiplying by c. */
  ghost predicate Chosen(c: real, x: real, v: real) {
    exists r: nat, s: nat :: IsLog(c, x, r) && IsLog(c, c * x, s) && v == Nearer(x, Pow(c, 2 * r), Pow(c, 2 * s))
  }

  function Nearer(x: real, v: real, w: real): real {
    if Abs(x - v) <= Abs(x - w) then v else w
  }

  /** A power within the factor c of x. */
  lemma {:induction false} RoundedWithin(c: real, x: real, w: real)
    requires c > 1.0 && x >= 1.0 && w <= c * x < c * (c * w)
    ensures Abs(x - w) <= Error(c - 1.0, x)
  {
    Unscale(c, x, c * w);
    assert x - w < (c - 1.0) * w;
    if w <= x {
      Scale(c - 1.0, w, x);
    }
  }

  /** The rounded power is within the factor c of x, so the chosen one is within (c - 1) * x. */
  lemma {:induction false} ChosenWithin(c: real, x: real, v: real)
    requires c > 1.0 && x >= 1.0 && Chosen(c, x, v)
    ensures v >= 1.0 && Abs(x - v) <= Error(c - 1.0, x)
  {
    var r: nat, s: nat :| IsLog(c, x, r) && IsLog(c, c * x, s) && v == Nearer(x, Pow(c, 2 * r), Pow(c, 2 * s));
    LogWithin(c, x, s);
    PowMonotone(c, 0, 2 * r);
    PowMonotone(c, 0, 2 * s);
    assert Pow(c, 0) == 1.0;
    hide Pow, IsLog, Error;
  }

  lemma {:induction false} LogWithin(c: real, x: real, s: nat)
    requires c > 1.0 && x >= 1.0 && IsLog(c, c * x, s)
    ensures Abs(x - Pow(c, 2 * s)) <= Error(c - 1.0, x)
  {
    PowTwo(c, 2 * s);
    RoundedWithin(c, x, Pow(c, 2 * s));
  }

  lemma {:induction false} PowTwo(c: real, n: nat)
    ensures Pow(c, n + 2) == c * (c * Pow(c, n))
  {
  }

  // ---- the nearest power ----

  ghost predicate IsPower(c: real, v: real, n: nat) {
    v == Pow(c, 2 * n)
  }

  /** The power for the exponent `n` is no nearer to x than `v`, and not below it when it is as near. */
  ghost predicate NotNearer(c: real, x: real, v: real, n: nat) {
    var w := Pow(c, 2 * n);
    Abs(x - v) < Abs(x - w) || (Abs(x - v) == Abs(x - w) && v <= w)
  }

  /** `v` is the power of c^2 that is nearest to x, the lower one of two. */
  ghost predicate Nearest(c: real, x: real, v: real) {
    (exists n: nat :: IsPower(c, v, n)) && forall n: nat :: NotNearer(c, x, v, n)
  }

  lemma {:induction false} NearestUnique(c: real, x: real, v: real, w: real)
    requires Nearest(c, x, v) && Nearest(c, x, w)
    ensures v == w
  {
    var m: nat, n: nat :| IsPower(c, v, m) && IsPower(c, w, n);
    assert NotNearer(c, x, v, n) && NotNearer(c, x, w, m);
  }

  /** The rounded logarithm is the integer part or one more; in the first case x lies below the geometric mean. */
  lemma {:induction false} RoundedLog(c: real, x: real, r: nat, s: nat)
    requires c > 1.0 && x >= 1.0 && IsLog(c, x, r) && IsLog(c, c * x, s)
    ensures s == r || s == r + 1
    ensures s == r ==> x < c * Pow(c, 2 * r)
  {
    NotLower(c, x, r, s);
    NotHigher(c, x, r, s);
    if s == r {
      PowTwo(c, 2 * r);
      hide Pow;
      Unscale(c, x, c * Pow(c, 2 * r));
    }
  }

  lemma {:induction false} NotLower(c: real, x: real, r: nat, s: nat)
    requires c > 1.0 && x >= 1.0 && IsLog(c, x, r) && IsLog(c, c * x, s)
    ensures s >= r
  {
    hide Pow;
    Enlarge(c, x);
    if s < r {
      PowMonotone(c, 2 * s + 2, 2 * r);
    }
  }

  lemma {:induction false} NotHigher(c: real, x: real, r: nat, s: nat)
    requires c > 1.0 && x >= 1.0 && IsLog(c, x, r) && IsLog(c, c * x, s)
    ensures s <= r + 1
  {
    PowTwo(c, 2 * r + 2);
    hide Pow;
    PowMonotone(c, 2 * r + 2, 2 * r + 2);
    if s > r + 1 {
      PowMonotone(c, 2 * r + 4, 2 * s);
      TwoBeyond(c, x, Pow(c, 2 * r + 2), Pow(c, 2 * s));
    }
  }

  lemma {:induction false} TwoBeyond(c: real, x: real, p: real, w: real)
    requires c > 1.0 && p > 0.0 && x < p && c * (c * p) <= w
    ensures c * x < w
  {
    var q := c * p;
    assert p < q by {
      Enlarge(c, p);
    }
    Larger(c, x, p, q);
  }

  lemma {:induction false} Enlarge(c: real, x: real)
    requires c > 1.0 && x > 0.0
    ensures x < c * x
  {
    assert c * x == x + (c - 1.0) * x;
  }

  lemma {:induction false} Larger(c: real, x: real, p: real, q: real)
    requires c > 1.0 && x < p < q
    ensures c * x < c * q
  {
    Enlarge(c, q - x);
    assert c * q == c * x + c * (q - x);
  }

  /** `q` is the power after `p`, and x lies below their geometric mean if `below`. */
  ghost predicate Neighbours(c: real, x: real, p: real, q: real, below: bool) {
    0.0 < p <= x && q == c * (c * p) && (below ==> x < c * p)
  }

  lemma {:induction false} NeighboursAt(c: real, x: real, r: nat, s: nat)
    requires c > 1.0 && x >= 1.0 && IsLog(c, x, r) && IsLog(c, c * x, s)
    ensures Neighbours(c, x, Pow(c, 2 * r), Pow(c, 2 * r + 2), s == r) && (s == r || s == r + 1)
  {
    RoundedLog(c, x, r, s);
    PowMonotone(c, 2 * r, 2 * r);
    PowTwo(c, 2 * r);
    hide Pow;
  }

  /** Below the geometric mean of two powers the lower one is the nearer one. */
  lemma {:induction false} BelowMean(c: real, x: real, p: real)
    requires c > 1.0 && 0.0 < p <= x < c * p
    ensures Abs(x - p) < Abs(x - c * (c * p))
  {
    Square(c, p);
    Mean(x, p, c * p, c * (c * p));
  }

  lemma {:induction false} Mean(x: real, p: real, m: real, q: real)
    requires p <= x < m && 2.0 * m <= p + q
    ensures Abs(x - p) < Abs(x - q)
  {
  }

  lemma {:induction false} Square(c: real, p: real)
    requires c > 1.0 && p > 0.0
    ensures 2.0 * (c * p) <= p + c * (c * p)
  {
    Enlarge(c, p);
    var d := c * p - p;
    Scale(c - 1.0, 0.0, d);
    assert (c - 1.0) * d == c * (c * p) - c * p - (c * p - p);
  }

  /** The nearer of the two neighbouring powers is the nearest of all. */
  lemma {:induction false} NeighbourIsNearest(c: real, x: real, v: real, r: nat, n: nat)
    requires c > 1.0 && IsLog(c, x, r) && NearerOf(x, Pow(c, 2 * r), Pow(c, 2 * r + 2), v)
    ensures NotNearer(c, x, v, n)
  {
    hide Pow;
    PowMonotone(c, 2 * r, 2 * r + 2);
    if n <= r {
      PowMonotone(c, 2 * n, 2 * r);
    } else {
      PowMonotone(c, 2 * r + 2, 2 * n);
    }
  }

  /** Of the two neighbouring powers of c^2, `p` and the next one, the nearer one is taken. */
  ghost predicate NearerOf(x: real, p: real, q: real, v: real) {
    (v == p || v == q) && Abs(x - v) <= Abs(x - p) && Abs(x - v) <= Abs(x - q) &&
    (v == q && v != p ==> Abs(x - v) < Abs(x - p))
  }

  lemma {:induction false} PickNearer(c: real, x: real, p: real, q: real, same: bool, v: real)
    requires c > 1.0 && Neighbours(c, x, p, q, same) && v == Nearer(x, p, if same then p else q)
    ensures NearerOf(x, p, q, v)
  {
    if same {
      BelowMean(c, x, p);
    }
    hide Abs;
  }

  lemma {:induction false} NearestOfAll(c: real, x: real, v: real, r: nat)
    requires c > 1.0 && IsLog(c, x, r) && NearerOf(x, Pow(c, 2 * r), Pow(c, 2 * r + 2), v)
    ensures Nearest(c, x, v)
  {
    hide Pow, Abs, NotNearer;
    assert 2 * (r + 1) == 2 * r + 2;
    assert IsPower(c, v, r) || IsPower(c, v, r + 1);
    forall n: nat ensures NotNearer(c, x, v, n) {
      NeighbourIsNearest(c, x, v, r, n);
    }
  }

  lemma {:induction false} NearerNeighbour(c: real, x: real, r: nat, s: nat, v: real)
    requires c > 1.0 && x >= 1.0 && IsLog(c, x, r) && IsLog(c, c * x, s)
    requires v == Nearer(x, Pow(c, 2 * r), Pow(c, 2 * s))
    ensures NearerOf(x, Pow(c, 2 * r), Pow(c, 2 * r + 2), v)
  {
    hide *;
    NeighboursAt(c, x, r, s);
    assert s != r ==> 2 * s == 2 * r + 2;
    PickNearer(c, x, Pow(c, 2 * r), Pow(c, 2 * r + 2), s == r, v);
  }

  /** What the script chooses is the nearest power. */
  lemma {:induction false} ChosenNearest(c: real, x: real, v: real)
    requires c > 1.0 && x >= 1.0 && Chosen(c, x, v)
    ensures Nearest(c, x, v)
  {
    var r: nat, s: nat :| IsLog(c, x, r) && IsLog(c, c * x, s) && v == Nearer(x, Pow(c, 2 * r), Pow(c, 2 * s));
    hide *;
    NearerNeighbour(c, x, r, s, v);
    NearestOfAll(c, x, v, r);
  }

  /** The value the script chooses for x. */
  method Choose(c: real, x: real) returns (v: real)
    requires c > 1.0 && x >= 1.0
    ensures Chosen(c, x, v) && Nearest(c, x, v)
  {
    hide Pow, IsLog, Nearest;
    var range1 := Log(c, x);
    Scale(x, 1.0, c);
    var range2 := Log(c, c * x);
    v := Nearer(x, Pow(c, 2 * range1), Pow(c, 2 * range2));
    ChosenNearest(c, x, v);
  }

  /** A stored value: 0 for 0, otherwise within the error of the approximation, of rounding down, and the threshold. */
  ghost predicate Close(ap: real, threshold: nat, x: nat, stored: int) {
    if x == 0 then stored == 0 else Abs(stored as real - x as real) <= Error(ap, x as real) + 1.0 + threshold as real
  }

  /** Rounding down, and keeping the old value when it is within the threshold. */
  lemma {:induction false} StoredClose(ap: real, threshold: nat, x: nat, v: real, stored: int)
    requires x >= 1 && Abs(x as real - v) <= Error(1.0 + ap - 1.0, x as real) &&
             -(threshold as int) <= stored - v.Floor <= threshold
    ensures Close(ap, threshold, x, stored)
  {
    assert 1.0 + ap - 1.0 == ap;
    hide Error;
    assert v.Floor as real <= v < v.Floor as real + 1.0;
    assert stored as real - v.Floor as real == (stored - v.Floor) as real;
  }

  class Recorder {
    const threshold: nat
    const prev: array<int>

    constructor (hops: nat, threshold: nat)
      ensures fresh(prev) && prev.Length == hops && this.threshold == threshold &&
              forall k :: 0 <= k < hops ==> prev[k] == 0
    {
      this.threshold := threshold;
      prev := new int[hops](_ => 0);
    }

    /** One digest of hop i for one approximation error; the same `prev` serves all errors. */
    method Store(i: nat, x: nat, ap: real) returns (stored: int)
      requires i < prev.Length && ap > 0.0
      modifies prev
      ensures Close(ap, threshold, x, stored) && prev[i] == stored
      ensures x > 0 ==> exists v ::
                Nearest(1.0 + ap, x as real, v) &&
                stored == if -(threshold as int) <= v.Floor - old(prev[i]) <= threshold then old(prev[i]) else v.Floor
      ensures forall k :: 0 <= k < prev.Length && k != i ==> prev[k] == old(prev[k])
    {
      if x == 0 {
        prev[i] := 0;
        return 0;
      }
      var value := Choose(1.0 + ap, x as real);
      ChosenWithin(1.0 + ap, x as real, value);
      hide Chosen, Nearest, Error, Close;
      if (if value.Floor - prev[i] < 0 then prev[i] - value.Floor else value.Floor - prev[i]) > threshold {
        prev[i] := value.Floor;
      }
      stored := prev[i];
      StoredClose(ap, threshold, x, value, stored);
    }

    /** All digests of one packet, for all approximation errors. */
    method Packet(digests: seq<nat>, aps: seq<real>) returns (approx: seq<seq<int>>)
      requires |digests| <= prev.Length && forall a :: 0 <= a < |aps| ==> aps[a] > 0.0
      modifies prev
      ensures |approx| == |digests| && forall i :: 0 <= i < |approx| ==> |approx[i]| == |aps|
      ensures forall i, a :: 0 <= i < |approx| && 0 <= a < |aps| ==> Close(aps[a], threshold, digests[i], approx[i][a])
      ensures |aps| > 0 ==> forall i :: 0 <= i < |approx| ==> prev[i] == approx[i][|aps|-1]
    {
      hide Close;
      approx := [];
      for i := 0 to |digests|
        invariant |approx| == i && forall k :: 0 <= k < i ==> |approx[k]| == |aps|
        invariant forall k, a :: 0 <= k < i && 0 <= a < |aps| ==> Close(aps[a], threshold, digests[k], approx[k][a])
        invariant |aps| > 0 ==> forall k :: 0 <= k < i ==> prev[k] == approx[k][|aps|-1]
      {
        var row := Row(i, digests[i], aps);
        approx := approx + [row];
      }
    }

    method Row(i: nat, x: nat, aps: seq<real>) returns (row: seq<int>)
      requires i < prev.Length && forall a :: 0 <= a < |aps| ==> aps[a] > 0.0
      modifies prev
      ensures |row| == |aps| && forall a :: 0 <= a < |aps| ==> Close(aps[a], threshold, x, row[a])
      ensures |aps| > 0 ==> prev[i] == row[|aps|-1]
      ensures forall k :: 0 <= k < prev.Length && k != i ==> prev[k] == old(prev[k])
    {
      hide Close;
      row := [];
      for a := 0 to |aps|
        invariant |row| == a && forall b :: 0 <= b < a ==> Close(aps[b], threshold, x, row[b])
        invariant a > 0 ==> prev[i] == row[a-1]
        invariant forall k :: 0 <= k < prev.Length && k != i ==> prev[k] == old(prev[k])
      {
        var stored := Store(i, x, aps[a]);
        row := row + [stored];
      }
    }
  }
}

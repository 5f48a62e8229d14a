/** The sketch as a value: a list of levels, where an item at height h stands for 2^h inserted items. */
module KllSketch {
  import opened KllSorting
  import opened Powers

  type Levels = seq<seq<int>>

  // ---- weighted sums over heights ----

  /** The sum of 2^h * cs[h]. */
  function WSum(cs: seq<nat>): nat {
    if cs == [] then 0 else WSum(cs[..|cs|-1]) + Pow2(|cs|-1) * cs[|cs|-1]
  }

  lemma {:induction false} WSumUpdate(cs: seq<nat>, h: nat, x: nat)
    requires h < |cs|
    ensures WSum(cs[h := x]) + Pow2(h) * cs[h] == WSum(cs) + Pow2(h) * x
  {
    var n, ds := |cs|, cs[h := x];
    if h == n - 1 {
      assert ds[..n-1] == cs[..n-1];
    } else {
      WSumUpdate(cs[..n-1], h, x);
      assert ds[..n-1] == cs[..n-1][h := x];
    }
  }

  lemma {:induction false} WSumAppend(cs: seq<nat>, x: nat)
    ensures WSum(cs + [x]) == WSum(cs) + Pow2(|cs|) * x
  {
    assert (cs + [x])[..|cs|] == cs;
  }

  lemma {:induction false} WSumPrefix(cs: seq<nat>, i: nat)
    requires i <= |cs|
    ensures WSum(cs[..i]) <= WSum(cs)
    decreases |cs|
  {
    if i < |cs| {
      WSumPrefix(cs[..|cs|-1], i);
      assert cs[..|cs|-1][..i] == cs[..i];
    } else {
      assert cs[..i] == cs;
    }
  }

  /** One height alone. */
  lemma {:induction false} WSumTerm(cs: seq<nat>, h: nat)
    requires h < |cs|
    ensures Pow2(h) * cs[h] <= WSum(cs)
  {
    assert cs[..h+1][..h] == cs[..h];
    WSumPrefix(cs, h + 1);
  }

  lemma {:induction false} WSumAdd(cs: seq<nat>, ds: seq<nat>, es: seq<nat>)
    requires |ds| <= |cs| == |es|
    requires forall h :: 0 <= h < |es| ==> es[h] == cs[h] + if h < |ds| then ds[h] else 0
    ensures WSum(es) == WSum(cs) + WSum(ds)
    decreases |cs|
  {
    if cs != [] {
      var n := |cs| - 1;
      if |ds| == |cs| {
        WSumAdd(cs[..n], ds[..n], es[..n]);
        Distribute(Pow2(n), cs[n], ds[n]);
      } else {
        WSumAdd(cs[..n], ds, es[..n]);
      }
    }
  }

  lemma {:induction false} Distribute(p: nat, a: nat, b: nat)
    ensures p * (a + b) == p * a + p * b
  {
  }

  function Sum(cs: seq<nat>): nat {
    if cs == [] then 0 else Sum(cs[..|cs|-1]) + cs[|cs|-1]
  }

  lemma {:induction false} SumUpdate(cs: seq<nat>, h: nat, x: nat)
    requires h < |cs|
    ensures Sum(cs[h := x]) + cs[h] == Sum(cs) + x
  {
    var n, ds := |cs|, cs[h := x];
    if h == n - 1 {
      assert ds[..n-1] == cs[..n-1];
    } else {
      SumUpdate(cs[..n-1], h, x);
      assert ds[..n-1] == cs[..n-1][h := x];
    }
  }

  lemma {:induction false} SumAppend(cs: seq<nat>, x: nat)
    ensures Sum(cs + [x]) == Sum(cs) + x
  {
    assert (cs + [x])[..|cs|] == cs;
  }

  // ---- measures of a sketch ----

  function Counts(L: Levels, v: int): (cs: seq<nat>)
    ensures |cs| == |L| && forall h :: 0 <= h < |L| ==> cs[h] == CountLe(L[h], v)
  {
    seq(|L|, h requires 0 <= h < |L| => CountLe(L[h], v))
  }

  function Lens(L: Levels): (cs: seq<nat>)
    ensures |cs| == |L| && forall h :: 0 <= h < |L| ==> cs[h] == |L[h]|
  {
    seq(|L|, h requires 0 <= h < |L| => |L[h]|)
  }

  /** The estimated number of inserted items up to `v`. */
  function Rank(L: Levels, v: int): nat {
    WSum(Counts(L, v))
  }

  /** The number of inserted items the sketch stands for. */
  function Weight(L: Levels): nat {
    WSum(Lens(L))
  }

  function Size(L: Levels): nat {
    Sum(Lens(L))
  }

  // ---- one compaction ----

  /** The sorted items that take part: all of them, or all but the last of an odd number. */
  function Body(s: seq<int>): (r: seq<int>)
    ensures |r| % 2 == 0 && |r| == 2 * (|s| / 2) && Sorted(r)
  {
    Sort(s)[..2 * (|s| / 2)]
  }

  /** The item that stays behind, if any. */
  function Kept(s: seq<int>): (r: seq<int>)
    ensures |r| == |s| % 2
  {
    Sort(s)[2 * (|s| / 2)..]
  }

  /** Nothing is lost, and the item left behind is a largest one. */
  lemma {:induction false} KeptIsLargest(s: seq<int>)
    ensures multiset(Body(s)) + multiset(Kept(s)) == multiset(s)
    ensures forall x, y :: x in Kept(s) && y in s ==> y <= x
  {
    var (t, n) := (Sort(s), 2 * (|s| / 2));
    SortPermutes(s);
    hide Sort;
    assert t == t[..n] + t[n..];
    LastIsLargest(t, n);
    forall y | y in s ensures y in t {
      assert y in multiset(s);
    }
  }

  lemma {:induction false} LastIsLargest(t: seq<int>, n: nat)
    requires Sorted(t) && n <= |t| <= n + 1
    ensures forall x, y :: x in t[n..] && y in t ==> y <= x
  {
    forall x, y | x in t[n..] && y in t ensures y <= x {
      var i :| 0 <= i < |t| && t[i] == y;
      assert x == t[n] && |t| == n + 1;
    }
  }

  function Emitted(s: seq<int>, offset: nat): (r: seq<int>)
    requires offset <= 1
    ensures |r| == |s| / 2
  {
    EverySecond(Body(s), offset)
  }

  /** Room for what height `h` emits. */
  function Grown(L: Levels, h: nat): Levels
    requires h < |L|
  {
    if h + 1 == |L| then L + [[]] else L
  }

  /** The levels after compacting height `h`. */
  function Step(L: Levels, h: nat, offset: nat): (r: Levels)
    requires h < |L| && offset <= 1
    ensures |r| == |Grown(L, h)|
  {
    Grown(L, h)[h := Kept(L[h])][h + 1 := Grown(L, h)[h + 1] + Emitted(L[h], offset)]
  }

  lemma {:induction false} SplitCount(s: seq<int>, v: int)
    ensures CountLe(s, v) == CountLe(Body(s), v) + CountLe(Kept(s), v)
  {
    CountLeSort(s, v);
    CountLeConcat(Body(s), Kept(s), v);
    assert Body(s) + Kept(s) == Sort(s);
  }

  lemma {:induction false} GrownMeasures(L: Levels, h: nat, v: int)
    requires h < |L|
    ensures WSum(Counts(Grown(L, h), v)) == Rank(L, v)
    ensures WSum(Lens(Grown(L, h))) == Weight(L) && Sum(Lens(Grown(L, h))) == Size(L)
  {
    if h + 1 == |L| {
      assert Counts(Grown(L, h), v) == Counts(L, v) + [0];
      assert Lens(Grown(L, h)) == Lens(L) + [0];
      WSumAppend(Counts(L, v), 0);
      WSumAppend(Lens(L), 0);
      SumAppend(Lens(L), 0);
    }
  }

  /** Moving counts between neighbouring heights: `a` leave height h, `b` arrive one height up. */
  lemma {:induction false} WSumMove(cs: seq<nat>, h: nat, a: int, b: int)
    requires h + 1 < |cs| && 0 <= a <= cs[h] && 0 <= b
    ensures WSum(cs[h := cs[h] - a][h + 1 := cs[h + 1] + b]) == WSum(cs) + Pow2(h) * (2 * b - a)
  {
    var ds := cs[h := cs[h] - a];
    WSumUpdate(cs, h, cs[h] - a);
    WSumUpdate(ds, h + 1, cs[h + 1] + b);
    MoveArithmetic(Pow2(h), cs[h], a, cs[h + 1], b);
  }

  /** Half as many at twice the weight: nothing changes. */
  lemma {:induction false} WSumHalve(cs: seq<nat>, h: nat, half: nat)
    requires h + 1 < |cs| && 2 * half <= cs[h]
    ensures WSum(cs[h := cs[h] - 2 * half][h + 1 := cs[h + 1] + half]) == WSum(cs)
  {
    WSumMove(cs, h, 2 * half, half);
    assert 2 * half - 2 * half == 0;
  }

  lemma {:induction false} MoveArithmetic(p: int, x: int, a: int, y: int, b: int)
    ensures p * (x - a) - p * x == -(p * a)
    ensures (2 * p) * (y + b) - (2 * p) * y == p * (2 * b)
    ensures p * (2 * b - a) == p * (2 * b) - p * a
  {
  }

  lemma {:induction false} StepCounts(L: Levels, h: nat, offset: nat, v: int)
    requires h < |L| && offset <= 1
    ensures CountLe(Body(L[h]), v) <= CountLe(L[h], v)
    ensures var cs, a, b := Counts(Grown(L, h), v), CountLe(Body(L[h]), v), CountLe(Emitted(L[h], offset), v);
            Counts(Step(L, h, offset), v) == cs[h := cs[h] - a][h + 1 := cs[h + 1] + b]
  {
    hide CountLe, EverySecond;
    SplitCount(L[h], v);
    CountLeConcat(Grown(L, h)[h + 1], Emitted(L[h], offset), v);
    var cs, a, b := Counts(Grown(L, h), v), CountLe(Body(L[h]), v), CountLe(Emitted(L[h], offset), v);
    var ds, S := cs[h := cs[h] - a][h + 1 := cs[h + 1] + b], Step(L, h, offset);
    forall i | 0 <= i < |S| ensures CountLe(S[i], v) == ds[i] {
    }
    assert Counts(S, v) == ds;
  }

  /** A compaction moves the rank of any value by at most the weight of one item of its height. */
  lemma {:induction false} StepRank(L: Levels, h: nat, offset: nat, v: int)
    requires h < |L| && offset <= 1
    ensures Rank(L, v) - Pow2(h) <= Rank(Step(L, h, offset), v) <= Rank(L, v) + Pow2(h)
  {
    hide CountLe, EverySecond, WSum, Pow2;
    var cs := Counts(Grown(L, h), v);
    var a: int, b: int := CountLe(Body(L[h]), v), CountLe(Emitted(L[h], offset), v);
    GrownMeasures(L, h, v);
    StepCounts(L, h, offset, v);
    WSumMove(cs, h, a, b);
    EverySecondCount(Body(L[h]), offset, v);
    UnitTimes(Pow2(h), 2 * b - a);
  }

  lemma {:induction false} UnitTimes(p: int, x: int)
    requires p >= 0 && -1 <= x <= 1
    ensures -p <= p * x <= p
  {
  }

  /** A compaction conserves the total weight and frees half of its items. */
  lemma {:induction false} StepWeight(L: Levels, h: nat, offset: nat)
    requires h < |L| && offset <= 1
    ensures Weight(Step(L, h, offset)) == Weight(L)
    ensures Size(Step(L, h, offset)) == Size(L) - |L[h]| / 2
  {
    hide Step, WSum, Sum;
    var cs, half := Lens(Grown(L, h)), |L[h]| / 2;
    GrownMeasures(L, h, 0);
    StepLens(L, h, offset);
    WSumHalve(cs, h, half);
    SumUpdate(cs, h, cs[h] - 2 * half);
    SumUpdate(cs[h := cs[h] - 2 * half], h + 1, cs[h + 1] + half);
  }

  lemma {:induction false} StepLens(L: Levels, h: nat, offset: nat)
    requires h < |L| && offset <= 1
    ensures var cs, half := Lens(Grown(L, h)), |L[h]| / 2;
            Lens(Step(L, h, offset)) == cs[h := cs[h] - 2 * half][h + 1 := cs[h + 1] + half]
  {
  }

  // ---- weight that has passed a height ----

  /** The weight held above height `h`. */
  function Above(L: Levels, h: nat): nat
    requires h < |L|
  {
    WSumPrefix(Lens(L), h + 1);
    Weight(L) - WSum(Lens(L)[..h+1])
  }

  /** Compacting height `g` lifts the weight of its body above `g` and leaves what lies above any other height. */
  lemma {:induction false} StepAbove(L: Levels, g: nat, offset: nat, h: nat)
    requires g < |L| && offset <= 1 && h < |L|
    ensures Above(Step(L, g, offset), h) == Above(L, h) + if h == g then Pow2(g) * (2 * (|L[g]| / 2)) else 0
  {
    var half, cs := |L[g]| / 2, Lens(L)[..h+1];
    StepWeight(L, g, offset);
    StepPrefix(L, g, offset, h);
    if h == g {
      WSumUpdate(cs, g, cs[g] - 2 * half);
      MoveArithmetic(Pow2(g), cs[g], 2 * half, 0, 0);
    } else if h > g {
      WSumHalve(cs, g, half);
    }
  }

  lemma {:induction false} StepPrefix(L: Levels, g: nat, offset: nat, h: nat)
    requires g < |L| && offset <= 1 && h < |L|
    ensures var half, cs := |L[g]| / 2, Lens(L)[..h+1];
            Lens(Step(L, g, offset))[..h+1] ==
              if h < g then cs else if h == g then cs[g := cs[g] - 2 * half]
              else cs[g := cs[g] - 2 * half][g + 1 := cs[g + 1] + half]
  {
    StepLens(L, g, offset);
  }

  // ---- capacities ----

  /** `math.ceil`. */
  function Ceil(x: real): (n: int)
    ensures n as real - 1.0 < x <= n as real
  {
    -((-x).Floor)
  }

  /** The parameters the constructor accepts. */
  predicate Accepted(k: int, c: real) {
    k > 0 && 0.5 < c <= 1.0
  }

  /** The capacity `d` levels below the top. */
  function CapAt(k: int, c: real, d: nat): int {
    Ceil(Pow(c, d) * k as real) + 1
  }

  function Capacity(k: int, c: real, H: nat, h: nat): int
    requires h < H
  {
    CapAt(k, c, H - h - 1)
  }

  /** A capacity is one more than the least integer that reaches the geometrically shrinking share of k. */
  lemma {:induction false} CapacityIs(k: int, c: real, H: nat, h: nat, n: int)
    requires h < H
    ensures Capacity(k, c, H, h) == n + 1 <==>
            Pow(c, H - h - 1) * k as real <= n as real < Pow(c, H - h - 1) * k as real + 1.0
  {
    var m := Capacity(k, c, H, h) - 1;
    assert m as real - 1.0 < Pow(c, H - h - 1) * k as real <= m as real;
    hide Pow, Capacity;
    if m < n {
      assert (m + 1) as real <= n as real;
    } else if n < m {
      assert (n + 1) as real <= m as real;
    }
  }

  lemma {:induction false} PowBounds(c: real, d: nat)
    requires 0.5 < c <= 1.0
    ensures 0.0 < Pow(c, d) <= 1.0 && Pow(c, d + 1) <= Pow(c, d)
  {
    if d > 0 {
      PowBounds(c, d - 1);
      Shrink(c, Pow(c, d - 1));
    }
    Shrink(c, Pow(c, d));
  }

  lemma {:induction false} Shrink(c: real, x: real)
    requires 0.0 < c <= 1.0 && 0.0 < x
    ensures 0.0 < c * x <= x
  {
    assert c * x <= 1.0 * x;
  }

  /** Capacities are at least 2, k + 1 at the top, and never grow with the depth. */
  lemma {:induction false} CapBounds(k: int, c: real, d: nat)
    requires Accepted(k, c)
    ensures CapAt(k, c, d) >= 2 && CapAt(k, c, d + 1) <= CapAt(k, c, d) && CapAt(k, c, 0) == k + 1
  {
    PowBounds(c, d);
    var x, y := Pow(c, d), Pow(c, d + 1);
    Scale(x, y, k as real);
    assert Pow(c, 0) * k as real == k as real;
  }

  lemma {:induction false} Scale(x: real, y: real, k: real)
    requires 0.0 < x && y <= x && 0.0 < k
    ensures 0.0 < x * k && y * k <= x * k
  {
  }

  /** The sum of the capacities of the lowest `n` of `H` heights. */
  function SumCap(k: int, c: real, H: nat, n: nat): int
    requires n <= H
  {
    if n == 0 then 0 else SumCap(k, c, H, n - 1) + Capacity(k, c, H, n - 1)
  }

  function MaxSize(k: int, c: real, H: nat): int {
    SumCap(k, c, H, H)
  }

  lemma {:induction false} SumCapShift(k: int, c: real, H: nat, n: nat)
    requires n <= H
    ensures SumCap(k, c, H + 1, n + 1) == CapAt(k, c, H) + SumCap(k, c, H, n)
  {
    if n > 0 {
      SumCapShift(k, c, H, n - 1);
    }
  }

  /** Growing raises the size limit. */
  lemma {:induction false} MaxSizeGrows(k: int, c: real, H: nat)
    requires Accepted(k, c)
    ensures MaxSize(k, c, H + 1) >= MaxSize(k, c, H) + 2
  {
    SumCapShift(k, c, H, H);
    CapBounds(k, c, H);
  }

  /** `m` is at most a geometric sum with the next term `k * p`, and two more for each of `h` heights. */
  ghost predicate Geometric(m: real, k: real, c: real, p: real, h: real) {
    m * (1.0 - c) <= k * (1.0 - p) + 2.0 * h * (1.0 - c)
  }

  lemma {:induction false} MaxSizeSum(k: int, c: real, H: nat)
    requires Accepted(k, c)
    ensures Geometric(MaxSize(k, c, H) as real, k as real, c, Pow(c, H), H as real)
  {
    hide Geometric, CapAt, Capacity, MaxSize, SumCap;
    if H == 0 {
      NoHeights(k, c, H);
    } else {
      MaxSizeSum(k, c, H - 1);
      OneHeightMore(k, c, H - 1);
      CapCeiling(k, c, H - 1);
      Accepts(k, c);
      SumStep(k as real, c, Pow(c, H - 1), MaxSize(k, c, H - 1) as real, CapAt(k, c, H - 1) as real, (H - 1) as real,
              Pow(c, H), MaxSize(k, c, H) as real, H as real);
    }
  }

  lemma {:induction false} Accepts(k: int, c: real)
    ensures Accepted(k, c) <==> k > 0 && 0.5 < c <= 1.0
  {
  }

  lemma {:induction false} NoHeights(k: int, c: real, H: nat)
    requires H == 0
    ensures Geometric(MaxSize(k, c, H) as real, k as real, c, Pow(c, H), H as real)
  {
    assert k as real * (1.0 - 1.0) == 0.0;
  }

  lemma {:induction false} OneHeightMore(k: int, c: real, H: nat)
    ensures MaxSize(k, c, H + 1) == CapAt(k, c, H) + MaxSize(k, c, H)
    ensures Pow(c, H + 1) == c * Pow(c, H)
  {
    SumCapShift(k, c, H, H);
  }

  lemma {:induction false} CapCeiling(k: int, c: real, d: nat)
    ensures CapAt(k, c, d) as real <= Pow(c, d) * k as real + 2.0
  {
    hide Pow;
  }

  lemma {:induction false} SumStep(k: real, c: real, p: real, rest: real, cap: real, h: real, p': real, m: real,
                                   h': real)
    requires c <= 1.0 && cap <= p * k + 2.0 && Geometric(rest, k, c, p, h)
    requires p' == c * p && m == cap + rest && h' == h + 1.0
    ensures Geometric(m, k, c, p', h')
  {
    ScaleUp(cap, p * k + 2.0, 1.0 - c);
    assert (p * k + 2.0) * (1.0 - c) == k * p - k * (c * p) + 2.0 * (1.0 - c);
    assert (cap + rest) * (1.0 - c) == cap * (1.0 - c) + rest * (1.0 - c);
    assert k * (1.0 - p) + (k * p - k * (c * p)) == k * (1.0 - c * p);
    assert 2.0 * h * (1.0 - c) + 2.0 * (1.0 - c) == 2.0 * (h + 1.0) * (1.0 - c);
  }

  lemma {:induction false} ScaleUp(x: real, y: real, k: real)
    requires x <= y && 0.0 <= k
    ensures x * k <= y * k
  {
  }

  /** The space of a sketch: the limit is linear in k and in the number of heights. */
  lemma {:induction false} SpaceBound(k: int, c: real, H: nat)
    requires Accepted(k, c)
    ensures c < 1.0 ==> MaxSize(k, c, H) as real < k as real / (1.0 - c) + 2.0 * H as real
    ensures c == 1.0 ==> MaxSize(k, c, H) == (k + 1) * H
  {
    if c < 1.0 {
      MaxSizeSum(k, c, H);
      PowBounds(c, H);
      hide Pow, MaxSize;
      Less(k as real, Pow(c, H));
      Divide(MaxSize(k, c, H) as real, k as real, 2.0 * H as real, 1.0 - c);
    } else {
      FlatSum(k, H, H);
    }
  }

  lemma {:induction false} Less(k: real, p: real)
    requires 0.0 < k && 0.0 < p
    ensures k * (1.0 - p) < k
  {
    assert k * (1.0 - p) == k - k * p;
  }

  lemma {:induction false} Divide(m: real, a: real, b: real, e: real)
    requires 0.0 < e && m * e < a + b * e
    ensures m < a / e + b
  {
    assert (a / e + b) * e == a + b * e;
    if m >= a / e + b {
      ScaleUp(a / e + b, m, e);
    }
  }

  lemma {:induction false} FlatSum(k: int, H: nat, n: nat)
    requires k > 0 && n <= H
    ensures SumCap(k, 1.0, H, n) == (k + 1) * n
  {
    if n > 0 {
      FlatSum(k, H, n - 1);
      PowOne(H - n);
      assert Capacity(k, 1.0, H, n - 1) == k + 1;
      assert (k + 1) * (n - 1) + (k + 1) == (k + 1) * n;
    }
  }

  lemma {:induction false} PowOne(n: nat)
    ensures Pow(1.0, n) == 1.0
  {
    if n > 0 {
      PowOne(n - 1);
    }
  }

  /** A height is at or over its capacity. */
  ghost predicate Over(L: Levels, k: int, c: real, h: nat) {
    h < |L| && |L[h]| >= Capacity(k, c, |L|, h)
  }

  /** A full sketch has a height that `compress` will pick. */
  lemma {:induction false} FullHasOver(L: Levels, k: int, c: real, n: nat)
    requires n <= |L| && forall h :: 0 <= h < n ==> !Over(L, k, c, h)
    ensures Sum(Lens(L)[..n]) <= SumCap(k, c, |L|, n)
    ensures n > 0 ==> Sum(Lens(L)[..n]) < SumCap(k, c, |L|, n)
  {
    if n > 0 {
      FullHasOver(L, k, c, n - 1);
      assert Lens(L)[..n][..n-1] == Lens(L)[..n-1];
      assert !Over(L, k, c, n - 1);
    }
  }
}

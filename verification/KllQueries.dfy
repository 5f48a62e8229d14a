/** Reading a sketch: ranks, and the sorted lists behind `ranks()` and `cdf()`. */
module KllQueries {
  import opened KllSorting
  import opened KllSketch
  import opened KllInvariant
  import opened Powers

  /** An item and the number of inserted items it stands for. */
  datatype Weighted = Weighted(item: int, weight: nat)

  /** The order of Python tuples. */
  predicate Le(a: Weighted, b: Weighted) {
    a.item < b.item || (a.item == b.item && a.weight <= b.weight)
  }

  ghost predicate Ordered(ps: seq<Weighted>) {
    forall i, j :: 0 <= i < j < |ps| ==> Le(ps[i], ps[j])
  }

  function InsertPair(p: Weighted, ps: seq<Weighted>): (r: seq<Weighted>)
    requires Ordered(ps)
    ensures |r| == |ps| + 1 && Ordered(r) && r[0] == if ps == [] || Le(p, ps[0]) then p else ps[0]
  {
    if ps == [] || Le(p, ps[0]) then [p] + ps else [ps[0]] + InsertPair(p, ps[1..])
  }

  function SortPairs(ps: seq<Weighted>): (r: seq<Weighted>)
    ensures |r| == |ps| && Ordered(r)
  {
    if ps == [] then [] else InsertPair(ps[0], SortPairs(ps[1..]))
  }

  /** The weight of the pairs with an item up to `v`. */
  function WeightLe(ps: seq<Weighted>, v: int): nat {
    if ps == [] then 0 else (if ps[0].item <= v then ps[0].weight else 0) + WeightLe(ps[1..], v)
  }

  function Total(ps: seq<Weighted>): nat {
    if ps == [] then 0 else ps[0].weight + Total(ps[1..])
  }

  lemma {:induction false} InsertPairWeights(p: Weighted, ps: seq<Weighted>, v: int)
    requires Ordered(ps)
    ensures WeightLe(InsertPair(p, ps), v) == WeightLe(ps, v) + if p.item <= v then p.weight else 0
    ensures Total(InsertPair(p, ps)) == Total(ps) + p.weight
  {
    if ps == [] || Le(p, ps[0]) {
      assert ([p] + ps)[1..] == ps;
    } else {
      InsertPairWeights(p, ps[1..], v);
      assert ([ps[0]] + InsertPair(p, ps[1..]))[1..] == InsertPair(p, ps[1..]);
    }
  }

  lemma {:induction false} SortPairsWeights(ps: seq<Weighted>, v: int)
    ensures WeightLe(SortPairs(ps), v) == WeightLe(ps, v) && Total(SortPairs(ps)) == Total(ps)
  {
    if ps != [] {
      SortPairsWeights(ps[1..], v);
      InsertPairWeights(ps[0], SortPairs(ps[1..]), v);
    }
  }

  lemma {:induction false} ConcatWeights(ps: seq<Weighted>, qs: seq<Weighted>, v: int)
    ensures WeightLe(ps + qs, v) == WeightLe(ps, v) + WeightLe(qs, v) && Total(ps + qs) == Total(ps) + Total(qs)
  {
    if ps == [] {
      assert ps + qs == qs;
    } else {
      ConcatWeights(ps[1..], qs, v);
      assert (ps + qs)[1..] == ps[1..] + qs;
    }
  }

  // ---- the pairs of a sketch ----

  /** `(item, 2**h) for item in items`. */
  function Pairs(s: seq<int>, w: nat): (r: seq<Weighted>)
    ensures |r| == |s| && forall i :: 0 <= i < |s| ==> r[i] == Weighted(s[i], w)
  {
    seq(|s|, i requires 0 <= i < |s| => Weighted(s[i], w))
  }

  /** The pairs of all heights, lowest first. */
  function Flatten(L: Levels): seq<Weighted> {
    if L == [] then [] else Flatten(L[..|L|-1]) + Pairs(L[|L|-1], Pow2(|L|-1))
  }

  lemma {:induction false} PairsWeights(s: seq<int>, w: nat, v: int)
    ensures WeightLe(Pairs(s, w), v) == w * CountLe(s, v) && Total(Pairs(s, w)) == w * |s|
  {
    if s != [] {
      PairsWeights(s[1..], w, v);
      assert Pairs(s, w)[1..] == Pairs(s[1..], w);
      Distribute(w, 1, CountLe(s[1..], v));
      Distribute(w, 1, |s| - 1);
    }
  }

  /** The pairs up to `v` weigh what `rank(v)` says. */
  lemma {:induction false} FlattenWeights(L: Levels, v: int)
    ensures WeightLe(Flatten(L), v) == Rank(L, v) && Total(Flatten(L)) == Weight(L)
  {
    if L != [] {
      var n := |L| - 1;
      FlattenWeights(L[..n], v);
      PairsWeights(L[n], Pow2(n), v);
      ConcatWeights(Flatten(L[..n]), Pairs(L[n], Pow2(n)), v);
      assert Counts(L, v)[..n] == Counts(L[..n], v);
      assert Lens(L)[..n] == Lens(L[..n]);
    }
  }

  lemma {:induction false} FlattenPositive(L: Levels)
    ensures |Flatten(L)| == Size(L) && forall i :: 0 <= i < |Flatten(L)| ==> Flatten(L)[i].weight > 0
  {
    if L != [] {
      var n := |L| - 1;
      FlattenPositive(L[..n]);
      assert Lens(L)[..n] == Lens(L[..n]);
    }
  }

  /** The sorted list that `ranks()` and `cdf()` walk through. */
  function Listing(L: Levels): seq<Weighted> {
    SortPairs(Flatten(L))
  }

  // ---- running totals ----

  /** Up to the last entry for an item, the running total is the weight up to that item. */
  lemma {:induction false} RunningTotal(ps: seq<Weighted>, i: nat)
    requires Ordered(ps) && i < |ps| && (i + 1 == |ps| || ps[i].item < ps[i+1].item)
    ensures Total(ps[..i+1]) == WeightLe(ps, ps[i].item)
  {
    var v := ps[i].item;
    assert ps == ps[..i+1] + ps[i+1..];
    ConcatWeights(ps[..i+1], ps[i+1..], v);
    AllLe(ps[..i+1], v);
    NoneLe(ps[i+1..], v);
  }

  lemma {:induction false} AllLe(ps: seq<Weighted>, v: int)
    requires forall i :: 0 <= i < |ps| ==> ps[i].item <= v
    ensures WeightLe(ps, v) == Total(ps)
  {
    if ps != [] {
      AllLe(ps[1..], v);
    }
  }

  lemma {:induction false} NoneLe(ps: seq<Weighted>, v: int)
    requires forall i :: 0 <= i < |ps| ==> ps[i].item > v
    ensures WeightLe(ps, v) == 0
  {
    if ps != [] {
      NoneLe(ps[1..], v);
    }
  }

  lemma {:induction false} TotalNext(ps: seq<Weighted>, i: nat)
    requires i < |ps|
    ensures Total(ps[..i+1]) == Total(ps[..i]) + ps[i].weight
  {
    assert ps[..i+1] == ps[..i] + [ps[i]];
    ConcatWeights(ps[..i], [ps[i]], 0);
    assert Total([ps[i]]) == ps[i].weight + Total([ps[i]][1..]);
  }

  lemma {:induction false} TotalGrows(ps: seq<Weighted>, i: nat, j: nat)
    requires i <= j <= |ps|
    ensures Total(ps[..i]) <= Total(ps[..j])
    decreases j
  {
    if i < j {
      TotalGrows(ps, i, j - 1);
      TotalNext(ps, j - 1);
    }
  }

  /** Every entry of `ranks()` that is the last for its item carries the rank of that item. */
  lemma {:induction false} ListingRank(L: Levels, i: nat)
    requires i < |Listing(L)| && (i + 1 == |Listing(L)| || Listing(L)[i].item < Listing(L)[i+1].item)
    ensures Total(Listing(L)[..i+1]) == Rank(L, Listing(L)[i].item)
  {
    var v := Listing(L)[i].item;
    RunningTotal(Listing(L), i);
    SortPairsWeights(Flatten(L), v);
    FlattenWeights(L, v);
  }

  /** The whole listing weighs as many items as were inserted. */
  lemma {:induction false} ListingTotal(L: Levels)
    ensures Total(Listing(L)) == Weight(L) && |Listing(L)| == Size(L)
  {
    SortPairsWeights(Flatten(L), 0);
    FlattenWeights(L, 0);
    FlattenPositive(L);
  }

  /** Items with running totals. */
  function Running(ps: seq<Weighted>): (r: seq<(int, nat)>)
    ensures |r| == |ps| && forall i :: 0 <= i < |ps| ==> r[i] == (ps[i].item, Total(ps[..i+1]))
  {
    seq(|ps|, i requires 0 <= i < |ps| => (ps[i].item, Total(ps[..i+1])))
  }

  /** `i` is the last entry for its item. */
  ghost predicate LastFor<T>(r: seq<(int, T)>, i: int) {
    0 <= i < |r| && (i + 1 == |r| || r[i].0 < r[i+1].0)
  }

  lemma {:induction false} RunningGrows(L: Levels, i: nat, j: nat)
    requires i < j < |Running(Listing(L))|
    ensures var r := Running(Listing(L)); r[i].0 <= r[j].0 && r[i].1 <= r[j].1
  {
    hide Flatten, SortPairs, Total, Running;
    var ps := Listing(L);
    ListingOrdered(L);
    assert Le(ps[i], ps[j]);
    hide Listing;
    TotalGrows(ps, i + 1, j + 1);
  }

  lemma {:induction false} ListingOrdered(L: Levels)
    ensures Ordered(Listing(L))
  {
    hide Flatten;
  }

  lemma {:induction false} RunningRank(L: Levels, i: nat)
    requires LastFor(Running(Listing(L)), i)
    ensures Running(Listing(L))[i].1 == Rank(L, Running(Listing(L))[i].0)
  {
    hide Listing, Total, Running;
    ListingRank(L, i);
  }

  /** What `ranks()` returns: sorted items, growing totals, and at the last entry for an item its rank. */
  lemma {:induction false} RanksAgree(L: Levels)
    ensures var r := Running(Listing(L));
            |r| == Size(L) && (forall i, j :: 0 <= i < j < |r| ==> r[i].0 <= r[j].0 && r[i].1 <= r[j].1) &&
            forall i :: LastFor(r, i) ==> r[i].1 == Rank(L, r[i].0)
  {
    hide Listing, Total, Running, Rank, Size;
    var r := Running(Listing(L));
    ListingTotal(L);
    forall i, j | 0 <= i < j < |r| ensures r[i].0 <= r[j].0 && r[i].1 <= r[j].1 {
      RunningGrows(L, i, j);
    }
    forall i | LastFor(r, i) ensures r[i].1 == Rank(L, r[i].0) {
      RunningRank(L, i);
    }
  }

  /** The running totals as shares of `t`. */
  function AsShares(r: seq<(int, nat)>, t: nat): (c: seq<(int, real)>)
    requires r != [] ==> t > 0
    ensures |c| == |r| && forall i :: 0 <= i < |r| ==> c[i] == (r[i].0, r[i].1 as real / t as real)
  {
    seq(|r|, i requires 0 <= i < |r| => (r[i].0, r[i].1 as real / t as real))
  }

  lemma {:induction false} ListingPositive(L: Levels)
    ensures Running(Listing(L)) != [] ==> Weight(L) > 0
  {
    ListingTotal(L);
    if Size(L) > 0 {
      WeightPositive(L);
    }
  }

  lemma {:induction false} Shares(a: nat, b: nat, t: nat)
    requires a <= b && t > 0
    ensures a as real / t as real <= b as real / t as real
  {
  }

  /** What `cdf()` returns: never decreasing, ending at exactly 1, and the share of the rank at the last entry for an
      item. */
  lemma {:induction false} CdfAgrees(L: Levels)
    requires Listing(L) != []
    ensures Weight(L) > 0
    ensures var c := AsShares(Running(Listing(L)), Weight(L));
            (forall i, j :: 0 <= i < j < |c| ==> c[i].0 <= c[j].0 && c[i].1 <= c[j].1) && c[|c|-1].1 == 1.0 &&
            forall i :: LastFor(c, i) ==> c[i].1 == Rank(L, c[i].0) as real / Weight(L) as real
  {
    hide Listing, Rank, Weight, Size, Total;
    ListingPositive(L);
    RanksAgree(L);
    ListingTotal(L);
    assert Listing(L)[..|Listing(L)|] == Listing(L);
    SharesAgree(L, Running(Listing(L)), Weight(L));
  }

  lemma {:induction false} SharesAgree(L: Levels, r: seq<(int, nat)>, t: nat)
    requires r != [] && t > 0 && r[|r|-1].1 == t
    requires forall i, j :: 0 <= i < j < |r| ==> r[i].0 <= r[j].0 && r[i].1 <= r[j].1
    requires forall i :: LastFor(r, i) ==> r[i].1 == Rank(L, r[i].0)
    ensures var c := AsShares(r, t);
            (forall i, j :: 0 <= i < j < |c| ==> c[i].0 <= c[j].0 && c[i].1 <= c[j].1) && c[|c|-1].1 == 1.0 &&
            forall i :: LastFor(c, i) ==> c[i].1 == Rank(L, c[i].0) as real / t as real
  {
    hide Rank;
    var c := AsShares(r, t);
    WholeShare(t);
    forall i, j | 0 <= i < j < |c| ensures c[i].0 <= c[j].0 && c[i].1 <= c[j].1 {
      Shares(r[i].1, r[j].1, t);
    }
    forall i | LastFor(c, i) ensures c[i].1 == Rank(L, c[i].0) as real / t as real {
      assert LastFor(r, i);
    }
  }

  lemma {:induction false} WholeShare(t: nat)
    requires t > 0
    ensures t as real / t as real == 1.0
  {
  }

  lemma {:induction false} WeightPositive(L: Levels)
    requires Size(L) > 0
    ensures Weight(L) > 0
  {
    FlattenPositive(L);
    FlattenWeights(L, 0);
    var ps := Flatten(L);
    assert Total(ps) >= ps[0].weight;
  }

  // ---- the error in terms of the number of insertions alone ----

  /** The sum of 1 / (capacity - 1) over the lowest `n` of `H` heights. */
  ghost function InverseCaps(k: int, c: real, H: nat, n: nat): real
    requires n <= H && Accepted(k, c)
  {
    if n == 0 then 0.0 else
      CapBounds(k, c, H - n);
      InverseCaps(k, c, H, n - 1) + 1.0 / (Capacity(k, c, H, n - 1) - 1) as real
  }

  lemma {:induction false} Quotient(p: nat, d: int, m: nat)
    requires d > 0 && p * d <= m
    ensures p as real <= m as real * (1.0 / d as real)
  {
    assert p as real * d as real == (p * d) as real <= m as real;
    assert p as real == (p as real * d as real) * (1.0 / d as real);
  }

  lemma {:induction false} ErrorPrefix(L: Levels, N: seq<nat>, k: int, c: real, inserted: seq<int>, inherited: nat,
                                       n: nat)
    requires Sound(L, N, k, c, inserted, inherited) && n <= |L|
    ensures WSum(N[..n]) as real <= |inserted| as real * InverseCaps(k, c, |L|, n)
  {
    hide WSum, Pow2, Capacity, RankOk, Lifted, Weight;
    if n == 0 {
      EmptySum(N);
    } else {
      ErrorPrefix(L, N, k, c, inserted, inherited, n - 1);
      ErrorTerm(L, N, k, c, inserted, inherited, n - 1);
      AddBounds(N, n, |inserted|, InverseCaps(k, c, |L|, n - 1), 1.0 / (Capacity(k, c, |L|, n - 1) - 1) as real);
    }
  }

  lemma {:induction false} EmptySum(N: seq<nat>)
    ensures WSum(N[..0]) == 0
  {
  }

  lemma {:induction false} ErrorTerm(L: Levels, N: seq<nat>, k: int, c: real, inserted: seq<int>, inherited: nat,
                                     h: nat)
    requires Sound(L, N, k, c, inserted, inherited) && h < |L|
    ensures Capacity(k, c, |L|, h) > 1
    ensures (Pow2(h) * N[h]) as real <= |inserted| as real * (1.0 / (Capacity(k, c, |L|, h) - 1) as real)
  {
    hide Pow2, WSum, CapAt, RankOk, Lifted, Weight;
    var d := Capacity(k, c, |L|, h) - 1;
    CompactionBound(L, N, k, c, inserted, inherited, h);
    CapBounds(k, c, |L| - h - 1);
    Regroup(Pow2(h), N[h], d);
    Quotient(Pow2(h) * N[h], d, |inserted|);
  }

  lemma {:induction false} AddBounds(N: seq<nat>, n: nat, m: nat, x: real, y: real)
    requires 0 < n <= |N|
    requires WSum(N[..n-1]) as real <= m as real * x && (Pow2(n - 1) * N[n-1]) as real <= m as real * y
    ensures WSum(N[..n]) as real <= m as real * (x + y)
  {
    assert N[..n][..n-1] == N[..n-1];
    assert m as real * (x + y) == m as real * x + m as real * y;
  }

  lemma {:induction false} Regroup(p: nat, n: nat, d: int)
    ensures p * (n * d) == (p * n) * d
  {
  }

  /** However the offsets fell, the estimate errs by at most the number of inserted items times the sum of
      1 / (capacity - 1), when nothing was merged. */
  lemma {:induction false} ErrorBound(L: Levels, N: seq<nat>, k: int, c: real, inserted: seq<int>, v: int)
    requires Sound(L, N, k, c, inserted, 0)
    ensures var e := |inserted| as real * InverseCaps(k, c, |L|, |L|);
            CountLe(inserted, v) as real - e <= Rank(L, v) as real <= CountLe(inserted, v) as real + e
  {
    InheritedBound(L, N, k, c, inserted, 0, 0.0, v);
  }

  /** After a merge with a sketch that had merged nothing, the same sum for that sketch, over its own items, adds up. */
  lemma {:induction false} MergedErrorBound(L: Levels, N: seq<nat>, k: int, c: real, all: seq<int>,
                                            R: Levels, M: seq<nat>, k': int, c': real, inserted': seq<int>, v: int)
    requires Sound(L, N, k, c, all, WSum(M)) && Sound(R, M, k', c', inserted', 0)
    ensures var e := |all| as real * InverseCaps(k, c, |L|, |L|) + |inserted'| as real * InverseCaps(k', c', |R|, |R|);
            CountLe(all, v) as real - e <= Rank(L, v) as real <= CountLe(all, v) as real + e
  {
    hide WSum, CountLe, Rank, InverseCaps, Lifted, RankOk, Weight;
    OwnError(R, M, k', c', inserted', 0);
    InheritedBound(L, N, k, c, all, WSum(M), |inserted'| as real * InverseCaps(k', c', |R|, |R|), v);
  }

  lemma {:induction false} OwnError(L: Levels, N: seq<nat>, k: int, c: real, inserted: seq<int>, inherited: nat)
    requires Sound(L, N, k, c, inserted, inherited)
    ensures WSum(N) as real <= |inserted| as real * InverseCaps(k, c, |L|, |L|)
  {
    hide WSum, Weight, Lifted, RankOk, InverseCaps;
    ErrorPrefix(L, N, k, c, inserted, inherited, |L|);
    assert N[..|L|] == N;
  }

  /** The error of the sketch itself on top of what it inherited. */
  lemma {:induction false} InheritedBound(L: Levels, N: seq<nat>, k: int, c: real, inserted: seq<int>, inherited: nat,
                                          x: real, v: int)
    requires Sound(L, N, k, c, inserted, inherited) && inherited as real <= x
    ensures var e := |inserted| as real * InverseCaps(k, c, |L|, |L|) + x;
            CountLe(inserted, v) as real - e <= Rank(L, v) as real <= CountLe(inserted, v) as real + e
  {
    hide WSum, CountLe, Rank, Weight, InverseCaps, Lifted;
    OwnError(L, N, k, c, inserted, inherited);
    assert RankOk(L, N, inserted, inherited, v);
    Between(CountLe(inserted, v), Rank(L, v), inherited + WSum(N),
            |inserted| as real * InverseCaps(k, c, |L|, |L|) + x);
  }

  lemma {:induction false} Between(t: nat, r: nat, w: nat, e: real)
    requires r <= t + w && t <= r + w && w as real <= e
    ensures t as real - e <= r as real <= t as real + e
  {
  }
}

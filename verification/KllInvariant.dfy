/** What every reachable sketch satisfies, and that each of its operations keeps it. */
module KllInvariant {
  import opened KllSorting
  import opened KllSketch
  import opened Powers

  /** The rank of `v` is off by at most the inherited error plus 2^h for every compaction at height h. */
  ghost predicate RankOk(L: Levels, N: seq<nat>, inserted: seq<int>, inherited: nat, v: int) {
    Rank(L, v) <= CountLe(inserted, v) + inherited + WSum(N) &&
    CountLe(inserted, v) <= Rank(L, v) + inherited + WSum(N)
  }

  /** Each of the N[h] compactions lifted at least capacity - 1 items of weight 2^h above height h. */
  ghost predicate Lifted(L: Levels, N: seq<nat>, k: int, c: real, h: nat)
    requires |N| == |L| && h < |L|
  {
    Pow2(h) * (N[h] * (Capacity(k, c, |L|, h) - 1)) <= Above(L, h)
  }

  /** `N` holds the numbers of compactions, `inserted` the history of inserted items, and `inherited` the error
      bound that merged sketches brought along. */
  ghost predicate Sound(L: Levels, N: seq<nat>, k: int, c: real, inserted: seq<int>, inherited: nat) {
    |L| == |N| > 0 && Accepted(k, c) && Weight(L) == |inserted| &&
    (forall v :: RankOk(L, N, inserted, inherited, v)) &&
    forall h :: 0 <= h < |L| ==> Lifted(L, N, k, c, h)
  }

  /** The height is logarithmic in the number of items the sketch stands for. */
  ghost predicate HeightOk(L: Levels, k: int) {
    |L| >= 2 ==> (k + 1) * Pow2(|L| - 2) <= Weight(L)
  }

  lemma {:induction false} InitSound(k: int, c: real)
    requires Accepted(k, c)
    ensures Sound([[]], [0], k, c, [], 0) && Size([[]]) == 0
  {
    var L: Levels := [[]];
    assert Lens(L) == [0];
    assert WSum([0]) == WSum([]) + Pow2(0) * 0;
    assert Sum([0]) == Sum([]) + 0;
    forall v ensures RankOk(L, [0], [], 0, v) {
      assert Counts(L, v) == [0];
    }
    assert Lifted(L, [0], k, c, 0);
  }

  // ---- update ----

  lemma {:induction false} InsertMeasures(L: Levels, x: int, v: int)
    requires |L| > 0
    ensures var S := L[0 := L[0] + [x]];
            Rank(S, v) == Rank(L, v) + (if x <= v then 1 else 0) && Weight(S) == Weight(L) + 1 && Size(S) == Size(L) + 1
  {
    var S := L[0 := L[0] + [x]];
    CountLeConcat(L[0], [x], v);
    assert CountLe([x], v) == (if x <= v then 1 else 0) + CountLe([x][1..], v);
    assert Counts(S, v) == Counts(L, v)[0 := CountLe(S[0], v)];
    assert Lens(S) == Lens(L)[0 := |L[0]| + 1];
    WSumUpdate(Counts(L, v), 0, CountLe(S[0], v));
    WSumUpdate(Lens(L), 0, |L[0]| + 1);
    SumUpdate(Lens(L), 0, |L[0]| + 1);
    assert Pow2(0) == 1;
  }

  lemma {:induction false} InsertAbove(L: Levels, x: int, h: nat)
    requires h < |L|
    ensures Above(L[0 := L[0] + [x]], h) == Above(L, h)
  {
    InsertMeasures(L, x, 0);
    var S := L[0 := L[0] + [x]];
    assert Lens(S)[..h+1] == Lens(L)[..h+1][0 := |L[0]| + 1];
    WSumUpdate(Lens(L)[..h+1], 0, |L[0]| + 1);
    assert Pow2(0) == 1;
  }

  lemma {:induction false} InsertSound(L: Levels, N: seq<nat>, k: int, c: real, inserted: seq<int>, inherited: nat,
                                       x: int)
    requires Sound(L, N, k, c, inserted, inherited)
    ensures Sound(L[0 := L[0] + [x]], N, k, c, inserted + [x], inherited)
    ensures HeightOk(L, k) ==> HeightOk(L[0 := L[0] + [x]], k)
  {
    var S := L[0 := L[0] + [x]];
    InsertMeasures(L, x, 0);
    forall v ensures RankOk(S, N, inserted + [x], inherited, v) {
      assert RankOk(L, N, inserted, inherited, v);
      InsertMeasures(L, x, v);
      CountLeConcat(inserted, [x], v);
      assert CountLe([x], v) == (if x <= v then 1 else 0) + CountLe([x][1..], v);
    }
    forall h | 0 <= h < |L| ensures Lifted(S, N, k, c, h) {
      assert Lifted(L, N, k, c, h);
      InsertAbove(L, x, h);
    }
  }

  // ---- compaction ----

  function GrownCounters(N: seq<nat>, h: nat): seq<nat>
    requires h < |N|
  {
    if h + 1 == |N| then N + [0] else N
  }

  /** The compaction counters after a compaction at height `h`. */
  function Counted(N: seq<nat>, h: nat): seq<nat>
    requires h < |N|
  {
    GrownCounters(N, h)[h := N[h] + 1]
  }

  lemma {:induction false} CountedSum(N: seq<nat>, h: nat)
    requires h < |N|
    ensures WSum(Counted(N, h)) == WSum(N) + Pow2(h)
  {
    var G := GrownCounters(N, h);
    WSumAppend(N, 0);
    WSumUpdate(G, h, N[h] + 1);
    Distribute(Pow2(h), N[h], 1);
  }

  lemma {:induction false} CapacityShrinks(k: int, c: real, H: nat, h: nat)
    requires Accepted(k, c) && h < H
    ensures 2 <= Capacity(k, c, H + 1, h) <= Capacity(k, c, H, h)
  {
    CapBounds(k, c, H - h - 1);
    CapBounds(k, c, H - h);
  }

  lemma {:induction false} TermShrinks(p: nat, n: nat, a: int, b: int)
    requires a <= b
    ensures p * (n * a) <= p * (n * b)
  {
    assert n * a <= n * b;
  }

  lemma {:induction false} OneMore(p: nat, n: nat, a: int, b: int)
    requires a <= b
    ensures p * ((n + 1) * a) <= p * (n * a) + p * b
  {
    assert (n + 1) * a == n * a + a;
    assert p * (n * a + a) == p * (n * a) + p * a;
    assert p * a <= p * b;
  }

  /** The compaction itself lifts enough. */
  lemma {:induction false} StepLifted(L: Levels, N: seq<nat>, k: int, c: real, h: nat, offset: nat, g: nat)
    requires |N| == |L| && h < |L| && g < |L| && offset <= 1 && Accepted(k, c)
    requires Over(L, k, c, h) && Lifted(L, N, k, c, g)
    ensures Lifted(Step(L, h, offset), Counted(N, h), k, c, g)
  {
    var S, H := Step(L, h, offset), |L|;
    var cap, cap' := Capacity(k, c, H, g), Capacity(k, c, |S|, g);
    CapacityShrinks(k, c, H, g);
    StepAbove(L, h, offset, g);
    TermShrinks(Pow2(g), N[g], cap' - 1, cap - 1);
    if g == h {
      OneMore(Pow2(g), N[g], cap' - 1, 2 * (|L[g]| / 2));
    }
  }

  lemma {:induction false} StepSound(L: Levels, N: seq<nat>, k: int, c: real, inserted: seq<int>, inherited: nat,
                                     h: nat, offset: nat)
    requires Sound(L, N, k, c, inserted, inherited) && Over(L, k, c, h) && offset <= 1
    ensures Sound(Step(L, h, offset), Counted(N, h), k, c, inserted, inherited)
    ensures HeightOk(L, k) ==> HeightOk(Step(L, h, offset), k)
  {
    var S, M := Step(L, h, offset), Counted(N, h);
    StepWeight(L, h, offset);
    CountedSum(N, h);
    forall v ensures RankOk(S, M, inserted, inherited, v) {
      assert RankOk(L, N, inserted, inherited, v);
      StepRank(L, h, offset, v);
    }
    forall g | 0 <= g < |S| ensures Lifted(S, M, k, c, g) {
      if g < |L| {
        assert Lifted(L, N, k, c, g);
        StepLifted(L, N, k, c, h, offset, g);
      } else {
        assert M[g] == 0;
      }
    }
    StepHeight(L, k, c, h, offset);
  }

  lemma {:induction false} StepHeight(L: Levels, k: int, c: real, h: nat, offset: nat)
    requires Over(L, k, c, h) && offset <= 1 && Accepted(k, c)
    ensures HeightOk(L, k) ==> HeightOk(Step(L, h, offset), k)
  {
    hide Step, WSum, Lens, Pow2, Weight, Capacity;
    StepWeight(L, h, offset);
    if h + 1 == |L| {
      TopHeight(L, k, c, h);
    }
  }

  /** A full top height holds enough weight for one more height. */
  lemma {:induction false} TopHeight(L: Levels, k: int, c: real, h: nat)
    requires Over(L, k, c, h) && Accepted(k, c) && h + 1 == |L|
    ensures (k + 1) * Pow2(h) <= Weight(L)
  {
    hide WSum, Lens, Pow2;
    CapBounds(k, c, 0);
    WSumTerm(Lens(L), h);
    MulMono(Pow2(h), k + 1, |L[h]|);
  }

  // ---- growing and merging ----

  lemma {:induction false} GrowSound(L: Levels, N: seq<nat>, k: int, c: real, inserted: seq<int>, inherited: nat)
    requires Sound(L, N, k, c, inserted, inherited)
    ensures Sound(L + [[]], N + [0], k, c, inserted, inherited)
    ensures Size(L + [[]]) == Size(L) && Weight(L + [[]]) == Weight(L)
  {
    hide WSum, Sum, Pow2, CountLe;
    var S, M := L + [[]], N + [0];
    assert Lens(S) == Lens(L) + [0];
    WSumAppend(Lens(L), 0);
    SumAppend(Lens(L), 0);
    WSumAppend(N, 0);
    forall v ensures RankOk(S, M, inserted, inherited, v) {
      assert RankOk(L, N, inserted, inherited, v);
      assert Counts(S, v) == Counts(L, v) + [0];
      WSumAppend(Counts(L, v), 0);
    }
    forall h | 0 <= h < |S| ensures Lifted(S, M, k, c, h) {
      if h < |L| {
        assert Lifted(L, N, k, c, h);
        assert Lens(S)[..h+1] == Lens(L)[..h+1];
        CapacityShrinks(k, c, |L|, h);
        TermShrinks(Pow2(h), N[h], Capacity(k, c, |L| + 1, h) - 1, Capacity(k, c, |L|, h) - 1);
      } else {
        assert M[h] == 0;
      }
    }
  }

  /** Appending the items of the same heights. */
  function Joined(L: Levels, R: Levels): (S: Levels)
    requires |R| <= |L|
    ensures |S| == |L| && forall h :: 0 <= h < |L| ==> S[h] == L[h] + if h < |R| then R[h] else []
  {
    seq(|L|, h requires 0 <= h < |L| => L[h] + if h < |R| then R[h] else [])
  }

  lemma {:induction false} JoinedMeasures(L: Levels, R: Levels, v: int)
    requires |R| <= |L|
    ensures Rank(Joined(L, R), v) == Rank(L, v) + Rank(R, v)
    ensures Weight(Joined(L, R)) == Weight(L) + Weight(R)
  {
    var S := Joined(L, R);
    forall h | 0 <= h < |L| ensures Counts(S, v)[h] == Counts(L, v)[h] + if h < |R| then Counts(R, v)[h] else 0 {
      if h < |R| {
        CountLeConcat(L[h], R[h], v);
      } else {
        assert L[h] + [] == L[h];
      }
    }
    WSumAdd(Counts(L, v), Counts(R, v), Counts(Joined(L, R), v));
    WSumAdd(Lens(L), Lens(R), Lens(Joined(L, R)));
  }

  lemma {:induction false} JoinedAbove(L: Levels, R: Levels, h: nat)
    requires |R| <= |L| && h < |L|
    ensures Above(Joined(L, R), h) >= Above(L, h)
  {
    JoinedMeasures(L, R, 0);
    var m := if h + 1 <= |R| then h + 1 else |R|;
    WSumAdd(Lens(L)[..h+1], Lens(R)[..m], Lens(Joined(L, R))[..h+1]);
    WSumPrefix(Lens(R), m);
  }

  lemma {:induction false} JoinSound(L: Levels, N: seq<nat>, k: int, c: real, inserted: seq<int>, inherited: nat,
                                     R: Levels, M: seq<nat>, k': int, c': real, inserted': seq<int>, inherited': nat)
    requires Sound(L, N, k, c, inserted, inherited) && Sound(R, M, k', c', inserted', inherited') && |R| <= |L|
    ensures Sound(Joined(L, R), N, k, c, inserted + inserted', inherited + inherited' + WSum(M))
  {
    hide Rank, Weight, Above, Joined, WSum, Capacity, Pow2, CountLe;
    var S := Joined(L, R);
    JoinedMeasures(L, R, 0);
    var all, total := inserted + inserted', inherited + inherited' + WSum(M);
    forall v ensures RankOk(S, N, all, total, v) {
      assert RankOk(L, N, inserted, inherited, v) && RankOk(R, M, inserted', inherited', v);
      JoinedMeasures(L, R, v);
      CountLeConcat(inserted, inserted', v);
    }
    forall h | 0 <= h < |S| ensures Lifted(S, N, k, c, h) {
      assert Lifted(L, N, k, c, h);
      JoinedAbove(L, R, h);
    }
  }

  /** Merging keeps the height logarithmic when the other sketch is at least as large in k. */
  lemma {:induction false} JoinHeight(L0: Levels, L: Levels, R: Levels, k: int, k': int)
    requires |R| <= |L| && (|L| == |L0| || |L| == |R|) && Weight(L) == Weight(L0)
    requires HeightOk(L0, k) && HeightOk(R, k') && k <= k'
    ensures HeightOk(Joined(L, R), k)
  {
    hide Rank, Weight, Joined, WSum, Pow2;
    JoinedMeasures(L, R, 0);
    if |L| >= 2 && |L| == |R| {
      MulMono(Pow2(|L| - 2), k + 1, k' + 1);
    }
  }

  lemma {:induction false} MulMono(p: nat, a: int, b: int)
    requires a <= b
    ensures a * p <= b * p
  {
  }

  // ---- what a user reads off ----

  /** The number of compactions at a height is bounded by the number of inserted items. */
  lemma {:induction false} CompactionBound(L: Levels, N: seq<nat>, k: int, c: real, inserted: seq<int>,
                                           inherited: nat, h: nat)
    requires Sound(L, N, k, c, inserted, inherited) && h < |L|
    ensures Pow2(h) * (N[h] * (Capacity(k, c, |L|, h) - 1)) <= |inserted|
  {
    assert Lifted(L, N, k, c, h);
  }

  /** What the sketch of a run of updates promises about the updates: the weights add up to their number, every rank
      is off by at most 2^h for each compaction at height h, a height with many compactions needs many items, and the
      height is logarithmic. */
  ghost predicate Guaranteed(L: Levels, N: seq<nat>, k: int, c: real, items: seq<int>) {
    |L| == |N| && Weight(L) == |items| &&
    (forall v :: RankOk(L, N, items, 0, v)) &&
    (forall h :: 0 <= h < |L| ==> Pow2(h) * (N[h] * (Capacity(k, c, |L|, h) - 1)) <= |items|) &&
    (|L| >= 2 ==> (k + 1) * Pow2(|L| - 2) <= |items|)
  }

  lemma {:induction false} SoundGuarantees(L: Levels, N: seq<nat>, k: int, c: real, items: seq<int>)
    requires Sound(L, N, k, c, items, 0) && HeightOk(L, k)
    ensures Guaranteed(L, N, k, c, items)
  {
    forall h | 0 <= h < |L| ensures Pow2(h) * (N[h] * (Capacity(k, c, |L|, h) - 1)) <= |items| {
      CompactionBound(L, N, k, c, items, 0, h);
    }
  }
}

/** The KLL quantile sketch: a stack of compactors, compacted lazily or eagerly. */
module Kll {
  import opened Lists
  import opened KllSorting
  import opened KllSketch
  import opened KllInvariant
  import opened KllQueries
  import opened Powers

  /** The emitting loop of `compact`: every second of the items, from `offset` on. */
  method EmitFrom(items: seq<int>, offset: nat) returns (out: seq<int>)
    requires offset <= 1 && |items| % 2 == 0
    ensures out == EverySecond(items, offset)
  {
    out := [];
    var i := offset;
    while i < |items|
      invariant i == 2 * |out| + offset && |out| <= |items| / 2
      invariant out == EverySecond(items, offset)[..|out|]
    {
      out := out + [items[i]];
      i := i + 2;
    }
  }

  class Compactor {
    var items: seq<int>
    var numCompaction: nat
    var offset: nat
    const alternate: bool

    constructor (alternate: bool)
      ensures items == [] && numCompaction == 0 && offset == 0 && this.alternate == alternate
    {
      items, numCompaction, offset := [], 0, 0;
      this.alternate := alternate;
    }

    /** Emits every second of the sorted items, from a random offset or, after an odd number of compactions, from
        the one not used the last time. */
    method Compact() returns (out: seq<int>)
      requires offset <= 1
      modifies this
      ensures offset <= 1 && numCompaction == old(numCompaction) + 1
      ensures alternate && old(numCompaction) % 2 == 1 ==> offset == 1 - old(offset)
      ensures out == Emitted(old(items), offset) && items == Kept(old(items))
    {
      if numCompaction % 2 == 1 && alternate {
        offset := 1 - offset;
      } else {
        var coin: bool := *;
        offset := if coin then 1 else 0;
      }
      items := Sort(items);
      var lastItem: Option<int> := None;
      if |items| % 2 == 1 {
        lastItem := Some(items[|items|-1]);
        items := items[..|items|-1];
      }
      assert items == Body(old(items));
      out := EmitFrom(items, offset);
      items := [];
      if lastItem.Some? {
        items := items + [lastItem.value];
      }
      numCompaction := numCompaction + 1;
    }
  }

  class KLL {
    const k: int
    const c: real
    const lazy: bool
    const alternate: bool
    var compactors: seq<Compactor>
    var H: nat
    var size: nat
    var maxSize: int
    ghost var Repr: set<Compactor>  // the compactors of this sketch
    ghost var inserted: seq<int>    // all items the sketch stands for
    ghost var inherited: nat        // the error bound taken over from merged sketches

    ghost function Items(): (L: Levels)
      reads this`compactors, compactors
      ensures |L| == |compactors| && forall i :: 0 <= i < |compactors| ==> L[i] == compactors[i].items
    {
      var cs := compactors;
      seq(|cs|, i requires 0 <= i < |cs| reads cs => cs[i].items)
    }

    ghost function Compactions(): (N: seq<nat>)
      reads this`compactors, compactors
      ensures |N| == |compactors| && forall i :: 0 <= i < |compactors| ==> N[i] == compactors[i].numCompaction
    {
      var cs := compactors;
      seq(|cs|, i requires 0 <= i < |cs| reads cs => cs[i].numCompaction)
    }

    /** The stack consists of different compactors of `Repr`. */
    ghost predicate Stacked()
      reads this`compactors, this`Repr, Repr
    {
      |compactors| > 0 &&
      (forall i :: 0 <= i < |compactors| ==> compactors[i] in Repr && compactors[i].offset <= 1) &&
      forall i, j :: 0 <= i < j < |compactors| ==> compactors[i] != compactors[j]
    }

    /** ... and `H` and `maxSize` describe it. */
    ghost predicate Sized()
      reads this`compactors, this`H, this`maxSize
    {
      H == |compactors| && maxSize == MaxSize(k, c, H)
    }

    ghost predicate Valid()
      reads this, Repr
    {
      Stacked() && Sized() && size == Size(Items()) && Sound(Items(), Compactions(), k, c, inserted, inherited)
    }

    /** The height bound, kept by every update and by merging sketches with the same or a larger k. */
    ghost predicate LogHeight()
      requires Stacked()
      reads this, Repr
    {
      HeightOk(Items(), k)
    }

    constructor (k: int, c: real, lazy: bool, alternate: bool)
      requires Accepted(k, c)
      ensures Valid() && LogHeight() && size < maxSize && fresh(Repr)
      ensures inserted == [] && inherited == 0 && Items() == [[]]
      ensures this.k == k && this.c == c && this.lazy == lazy && this.alternate == alternate
    {
      this.k, this.c, this.lazy, this.alternate := k, c, lazy, alternate;
      H, size, maxSize := 0, 0, 0;
      compactors, inserted, inherited, Repr := [], [], 0, {};
      new;
      var first := new Compactor(alternate);
      compactors, Repr := [first], {first};
      H := 1;
      maxSize := Limit();
      assert Items() == [[]] && Compactions() == [0];
      InitSound(k, c);
      CapBounds(k, c, 0);
      assert SumCap(k, c, 1, 1) == SumCap(k, c, 1, 0) + Capacity(k, c, 1, 0);
    }

    /** The constructor as a caller sees it: parameters out of range are refused. */
    static method Make(k: int, c: real, lazy: bool, alternate: bool) returns (r: Option<KLL>)
      ensures r.Some? <==> k > 0 && 0.5 < c <= 1.0
      ensures r.Some? ==> fresh(r.value) && fresh(r.value.Repr) && r.value.Valid() && r.value.LogHeight() &&
                          r.value.size < r.value.maxSize && r.value.inserted == [] && r.value.inherited == 0 &&
                          r.value.k == k && r.value.c == c && r.value.lazy == lazy
    {
      if k <= 0 {
        return None;
      }
      if c <= 0.5 || c > 1.0 {
        return None;
      }
      var sketch := new KLL(k, c, lazy, alternate);
      r := Some(sketch);
    }

    /** Sums the capacities of all heights. */
    method Limit() returns (total: int)
      ensures total == MaxSize(k, c, H)
    {
      total := 0;
      for height := 0 to H
        invariant total == SumCap(k, c, H, height)
      {
        total := total + Capacity(k, c, H, height);
      }
    }

    /** Counts the items of all compactors. */
    method Count() returns (total: nat)
      ensures total == Size(Items())
    {
      total := 0;
      for i := 0 to |compactors|
        invariant total == Sum(Lens(Items())[..i])
      {
        assert Lens(Items())[..i+1][..i] == Lens(Items())[..i];
        total := total + |compactors[i].items|;
      }
      assert Lens(Items())[..|compactors|] == Lens(Items());
    }

    // ---- growing ----

    /** `self.compactors.append(Compactor(self.alternate))`. */
    method Push()
      requires Stacked()
      modifies this`compactors, this`Repr
      ensures Stacked() && old(Repr) <= Repr && fresh(Repr - old(Repr)) && |compactors| == |old(compactors)| + 1
      ensures Items() == old(Items()) + [[]] && Compactions() == old(Compactions()) + [0]
    {
      var fresher := new Compactor(alternate);
      Repr := Repr + {fresher};
      compactors := compactors + [fresher];
      assert Items() == old(Items()) + [[]];
      assert Compactions() == old(Compactions()) + [0];
    }

    method Grow()
      requires Valid()
      modifies this`compactors, this`Repr, this`H, this`maxSize
      ensures Valid() && old(Repr) <= Repr && fresh(Repr - old(Repr)) && maxSize >= old(maxSize)
      ensures |compactors| == |old(compactors)| + 1
      ensures Items() == old(Items()) + [[]] && Compactions() == old(Compactions()) + [0]
    {
      hide Sound, SumCap, Size, Stacked, Items, Compactions, MaxSize, Capacity, Accepted, LogHeight;
      GrowSound(Items(), Compactions(), k, c, inserted, inherited);
      SoundAccepts(Items(), Compactions(), k, c, inserted, inherited);
      MaxSizeGrows(k, c, H);
      Push();
      H := |compactors|;
      maxSize := Limit();
    }

    /** `if h+1 >= self.H: self.grow()`. */
    method Widen(h: nat)
      requires Valid() && h < |compactors|
      modifies this`compactors, this`Repr, this`H, this`maxSize
      ensures Valid() && old(Repr) <= Repr && fresh(Repr - old(Repr)) && maxSize >= old(maxSize)
      ensures h + 1 < |compactors| && |compactors| >= |old(compactors)|
      ensures Items() == Grown(old(Items()), h) && Compactions() == GrownCounters(old(Compactions()), h)
    {
      hide Sound, Size, MaxSize, Stacked;
      if h + 1 >= H {
        Grow();
      }
    }

    // ---- compressing ----

    /** `self.compactors[h+1].extend(self.compactors[h].compact())`. */
    method Emit(h: nat) returns (ghost offset: nat)
      requires Stacked() && h + 1 < |compactors|
      modifies Repr
      ensures Stacked() && offset <= 1
      ensures Items() == old(Items())[h := Kept(old(Items())[h])][h + 1 :=
                                                                  old(Items())[h + 1] + Emitted(old(Items())[h],
                                                                                                offset)]
      ensures Compactions() == old(Compactions())[h := old(Compactions())[h] + 1]
    {
      hide Kept, Emitted;
      var low, high := compactors[h], compactors[h+1];
      var out := low.Compact();
      offset := low.offset;
      high.items := high.items + out;
    }

    /** Growing if needed, and moving half of height `h` up. */
    method MoveUp(h: nat) returns (ghost offset: nat)
      requires Valid() && h < |compactors|
      modifies this`compactors, this`Repr, this`H, this`maxSize, Repr
      ensures Stacked() && Sized() && old(Repr) <= Repr && fresh(Repr - old(Repr)) && maxSize >= old(maxSize)
      ensures |compactors| >= |old(compactors)|
      ensures StepTo(old(Items()), old(Compactions()), h, offset, Items(), Compactions())
    {
      hide Sound, Size, MaxSize, Grown, GrownCounters, StepTo, Stacked;
      ghost var L, N := Items(), Compactions();
      Widen(h);
      offset := EmitStep(h, L, N);
    }

    method EmitStep(h: nat, ghost L: Levels, ghost N: seq<nat>) returns (ghost offset: nat)
      requires Stacked() && h + 1 < |compactors| && |L| == |N| && h < |L|
      requires Items() == Grown(L, h) && Compactions() == GrownCounters(N, h)
      modifies Repr
      ensures Stacked() && StepTo(L, N, h, offset, Items(), Compactions())
    {
      hide Kept, Emitted, Grown, GrownCounters, Stacked, StepTo;
      ghost var G, P := Items(), Compactions();
      offset := Emit(h);
      ghost var S, M := Items(), Compactions();
      StepIs(L, N, h, offset, G, P, S, M);
    }

    /** The body of the loop in `compress` for a height at or over its capacity: its compactor emits into the next
        one, which is added if missing. */
    method CompactHeight(h: nat)
      requires Valid() && Over(Items(), k, c, h)
      modifies this`compactors, this`Repr, this`H, this`maxSize, this`size, Repr
      ensures Valid() && old(Repr) <= Repr && fresh(Repr - old(Repr)) && maxSize >= old(maxSize)
      ensures |compactors| >= |old(compactors)|
      ensures exists offset :: StepTo(old(Items()), old(Compactions()), h, offset, Items(), Compactions())
      ensures size < old(size)
      ensures old(LogHeight()) ==> LogHeight()
    {
      hide Sound, HeightOk, Size, MaxSize, Capacity, Counted, Step, Stacked;
      ghost var L, N := Items(), Compactions();
      SoundAccepts(L, N, k, c, inserted, inherited);
      ghost var offset := MoveUp(h);
      StepSound(L, N, k, c, inserted, inherited, h, offset);
      StepFrees(L, k, c, h, offset);
      size := Count();
      assert StepTo(L, N, h, offset, Items(), Compactions());
    }

    /** One pass over the heights; the lazy sketch stops after the first compaction. A pass over a sketch with a
        height at or over its capacity makes it strictly smaller. */
    method Compress()
      requires Valid()
      modifies this`compactors, this`Repr, this`H, this`maxSize, this`size, Repr
      ensures Valid() && old(Repr) <= Repr && fresh(Repr - old(Repr)) && maxSize >= old(maxSize)
      ensures size <= old(size)
      ensures (exists h: nat :: Over(old(Items()), k, c, h)) ==> size < old(size)
      ensures CompressedTo(lazy, old(Items()), old(Compactions()), k, c, Items(), Compactions())
      ensures old(LogHeight()) ==> LogHeight()
    {
      hide Sound, HeightOk, Size, MaxSize, Capacity, StepTo, Over, Stacked, LazyTo, EagerTo;
      ghost var L, N := Items(), Compactions();
      ghost var done := false;
      PassStarts(L, N, k, c);
      for h := 0 to |compactors|
        invariant Valid() && old(Repr) <= Repr && fresh(Repr - old(Repr)) && maxSize >= old(maxSize)
        invariant |compactors| >= |old(compactors)|
        invariant done ==> size < old(size)
        invariant !done ==> Items() == L && size == old(size) && forall g: nat :: g < h ==> !Over(L, k, c, g)
        invariant !done ==> Compactions() == N
        invariant lazy ==> !done
        invariant !lazy ==> EagerTo(L, N, k, c, h, Items(), Compactions())
        invariant old(LogHeight()) ==> LogHeight()
      {
        ghost var P, M := Items(), Compactions();
        OverAt(Items(), k, c, h);
        if |compactors[h].items| >= Capacity(k, c, H, h) {
          CompactHeight(h);
          done := true;
          PassCompacts(lazy, L, N, k, c, h, P, M, Items(), Compactions());
          if lazy {
            break;
          }
        } else {
          PassSkips(lazy, L, N, k, c, h, P, M);
        }
      }
      if !done {
        OverRange(L, k, c);
      }
      if lazy && !done {
        LazySkips(L, N, k, c);
      }
    }

    // ---- update ----

    /** `self.compactors[0].append(item); self.size += 1`. */
    method Append(item: int)
      requires Valid()
      modifies this`size, this`inserted, Repr
      ensures Valid() && size == old(size) + 1 && inserted == old(inserted) + [item]
      ensures |old(Items())| > 0 && Items() == old(Items())[0 := old(Items())[0] + [item]]
      ensures Compactions() == old(Compactions())
      ensures old(LogHeight()) ==> LogHeight()
    {
      hide Sound, HeightOk, MaxSize, Size, Items, Compactions;
      ghost var L, N := Items(), Compactions();
      InsertSound(L, N, k, c, inserted, inherited, item);
      InsertMeasures(L, item, 0);
      compactors[0].items := compactors[0].items + [item];
      inserted := inserted + [item];
      size := size + 1;
      assert Items() == L[0 := L[0] + [item]];
      assert Compactions() == N;
    }

    /** Inserts an item. The source's assertion `size < maxSize` holds again afterwards, whatever the offsets. */
    method Update(item: int)
      requires Valid() && size < maxSize
      modifies this`compactors, this`Repr, this`H, this`maxSize, this`size, this`inserted, Repr
      ensures Valid() && size < maxSize && old(Repr) <= Repr && fresh(Repr - old(Repr))
      ensures inserted == old(inserted) + [item]
      ensures old(LogHeight()) ==> LogHeight()
      ensures Updated(lazy, old(Items())[0 := old(Items())[0] + [item]], old(Compactions()), k, c,
                      old(size) + 1 >= old(maxSize), Items(), Compactions())
    {
      hide Sound, HeightOk, Size, MaxSize, Over, Stacked, CompressedTo;
      Append(item);
      if size >= maxSize {
        NotEmpty();
        FullIsOver(Items(), k, c);
        Compress();
        assert size < maxSize;
      }
    }

    lemma {:induction false} NotEmpty()
      requires Stacked()
      ensures |compactors| > 0
    {
    }

    // ---- merge ----

    /** The two sketches share no compactor, or they are the same sketch. */
    ghost predicate Separate(other: KLL)
      reads this`Repr, other`Repr
    {
      this == other || Repr !! other.Repr
    }

    /** `while self.H < other.H: self.grow()`. */
    method GrowTo(other: KLL)
      requires Valid() && other.Valid() && Separate(other)
      modifies this`compactors, this`Repr, this`H, this`maxSize
      ensures Valid() && other.Valid() && Separate(other) && old(Repr) <= Repr && fresh(Repr - old(Repr))
      ensures this == other ==> Items() == old(Items()) && Compactions() == old(Compactions())
      ensures other.Items() == old(other.Items()) && other.Compactions() == old(other.Compactions())
      ensures |compactors| == if |old(compactors)| < |other.compactors| then |other.compactors| else |old(compactors)|
      ensures Items() == Raised(old(Items()), |other.compactors|, [])
      ensures Compactions() == Raised(old(Compactions()), |other.compactors|, 0)
    {
      hide Sound, MaxSize, Size;
      while H < other.H
        invariant Valid() && other.Valid() && Separate(other) && old(Repr) <= Repr && fresh(Repr - old(Repr))
        invariant other.Items() == old(other.Items()) && other.Compactions() == old(other.Compactions())
        invariant |old(compactors)| <= |compactors|
        invariant |compactors| > |old(compactors)| ==> |compactors| <= |other.compactors|
        invariant Items() == Raised(old(Items()), |compactors|, [])
        invariant Compactions() == Raised(old(Compactions()), |compactors|, 0)
        decreases other.H - H
      {
        Grow();
      }
    }

    /** `for h in range(other.H): self.compactors[h].extend(other.compactors[h])`. */
    method Absorb(other: KLL)
      requires Stacked() && other.Stacked() && Separate(other) && |other.compactors| <= |compactors|
      modifies Repr
      ensures Stacked() && Items() == Joined(old(Items()), old(other.Items())) && Compactions() == old(Compactions())
    {
      hide Joined, Items, Compactions;
      ghost var L, R, N := Items(), other.Items(), Compactions();
      for h := 0 to |other.compactors|
        invariant Stacked()
        invariant forall i :: 0 <= i < h ==> compactors[i].items == L[i] + R[i]
        invariant forall i :: h <= i < |compactors| ==> compactors[i].items == L[i]
        invariant forall i :: h <= i < |other.compactors| ==> other.compactors[i].items == R[i]
        invariant forall i :: 0 <= i < |compactors| ==> compactors[i].numCompaction == N[i]
      {
        compactors[h].items := compactors[h].items + other.compactors[h].items;
      }
      JoinedIs(L, R, Items());
      assert Compactions() == N;
    }

    /** `merge` up to its last loop: growing, taking over the items, and counting them. */
    method TakeOver(other: KLL)
      requires Valid() && other.Valid() && Separate(other)
      modifies this`compactors, this`Repr, this`H, this`maxSize, this`size, this`inserted, this`inherited, Repr
      ensures Valid() && old(Repr) <= Repr && fresh(Repr - old(Repr))
      ensures inserted == old(inserted) + old(other.inserted)
      ensures inherited == old(inherited) + old(other.inherited) + WSum(old(other.Compactions()))
      ensures old(LogHeight()) && old(other.LogHeight()) && k <= other.k ==> LogHeight()
      ensures Items() == Joined(Raised(old(Items()), |old(other.Items())|, []), old(other.Items()))
      ensures Compactions() == Raised(old(Compactions()), |old(other.Items())|, 0)
    {
      hide Sound, Size, MaxSize, HeightOk, WSum, Weight, Joined, Stacked, Items, Compactions;
      ghost var L0, R, M, ins, inh := Items(), other.Items(), other.Compactions(), other.inserted, other.inherited;
      SoundWeight(L0, Compactions(), k, c, inserted, inherited);
      GrowTo(other);
      ghost var L, N := Items(), Compactions();
      SoundWeight(L, N, k, c, inserted, inherited);
      JoinKeepsHeight(L0, L, R, k, other.k);
      JoinSound(L, N, k, c, inserted, inherited, R, M, other.k, other.c, ins, inh);
      AbsorbAll(other, L, R, N);
      inserted, inherited := inserted + ins, inherited + inh + WSum(M);
    }

    method AbsorbAll(other: KLL, ghost L: Levels, ghost R: Levels, ghost N: seq<nat>)
      requires Stacked() && other.Stacked() && Separate(other) && |other.compactors| <= |compactors|
      requires L == Items() && R == other.Items() && N == Compactions()
      modifies this`size, Repr
      ensures Stacked() && Items() == Joined(L, R) && Compactions() == N && size == Size(Items())
    {
      hide Size, Joined, Stacked;
      Absorb(other);
      size := Count();
    }

    /** Takes over the items of another sketch, height by height, and compresses as often as it is still full; the
        source's assertion `size < maxSize` holds at the end, and the loop before it terminates. */
    method Merge(other: KLL)
      requires Valid() && other.Valid() && Separate(other)
      modifies this`compactors, this`Repr, this`H, this`maxSize, this`size, this`inserted, this`inherited, Repr
      ensures Valid() && size < maxSize && old(Repr) <= Repr && fresh(Repr - old(Repr))
      ensures inserted == old(inserted) + old(other.inserted)
      ensures inherited == old(inherited) + old(other.inherited) + WSum(old(other.Compactions()))
      ensures old(LogHeight()) && old(other.LogHeight()) && k <= other.k ==> LogHeight()
      ensures var H := |old(other.Items())|;
              exists n :: Pressed(lazy, Joined(Raised(old(Items()), H, []), old(other.Items())),
                                  Raised(old(Compactions()), H, 0), k, c, n, Items(), Compactions())
    {
      hide Sound, Size, MaxSize, HeightOk, WSum, Over, Stacked, Joined, Pressed, CompressedTo;
      TakeOver(other);
      ghost var all, error := inserted, inherited;
      ghost var L, N, n: nat := Items(), Compactions(), 0;
      PressNone(lazy, L, N, k, c);
      while size >= maxSize
        invariant Valid() && old(Repr) <= Repr && fresh(Repr - old(Repr)) && inserted == all && inherited == error
        invariant old(LogHeight()) && old(other.LogHeight()) && k <= other.k ==> LogHeight()
        invariant Pressed(lazy, L, N, k, c, n, Items(), Compactions())
        decreases size
      {
        ghost var P, O := Items(), Compactions();
        NotEmpty();
        FullIsOver(Items(), k, c);
        Compress();
        PressNext(lazy, L, N, k, c, n, P, O, Items(), Compactions());
        n := n + 1;
      }
    }

    // ---- queries ----

    /** The inner loop of `rank`: the items of height h up to `value`, each with its weight. */
    method RankIn(items: seq<int>, h: nat, value: int) returns (r: nat)
      ensures r == Pow2(h) * CountLe(items, value)
    {
      hide Pow2;
      r := 0;
      for i := 0 to |items|
        invariant r == Pow2(h) * CountLe(items[..i], value)
      {
        assert items[..i+1] == items[..i] + [items[i]];
        CountLeConcat(items[..i], [items[i]], value);
        CountLeOne(items[i], value);
        Distribute(Pow2(h), CountLe(items[..i], value), 1);
        if items[i] <= value {
          r := r + Pow2(h);
        }
      }
      assert items[..|items|] == items;
    }

    /** The estimate of how many inserted items are at most `value`, off by no more than the compactions explain. */
    method RankOf(value: int) returns (r: nat)
      requires Valid()
      ensures r == Rank(Items(), value)
      ensures r <= CountLe(inserted, value) + inherited + WSum(Compactions())
      ensures CountLe(inserted, value) <= r + inherited + WSum(Compactions())
    {
      hide Pow2, Size, MaxSize, Stacked, Weight;
      ghost var cs := Counts(Items(), value);
      r := 0;
      for h := 0 to |compactors|
        invariant r == WSum(cs[..h])
      {
        var more := RankIn(compactors[h].items, h, value);
        r := r + more;
        assert cs[..h+1][..h] == cs[..h];
      }
      assert cs[..|compactors|] == cs;
      assert RankOk(Items(), Compactions(), inserted, inherited, value);
    }

    /** `itemsAndWeights`, before sorting. */
    method ItemsAndWeights() returns (ps: seq<Weighted>)
      ensures ps == Flatten(Items())
    {
      ghost var L := Items();
      ps := [];
      for h := 0 to |compactors|
        invariant ps == Flatten(L[..h])
      {
        ps := ps + Pairs(compactors[h].items, Pow2(h));
        assert L[..h+1][..h] == L[..h];
      }
      assert L[..|compactors|] == L;
    }

    /** `ranks()`: the sorted items with running weights. */
    method Ranks() returns (r: seq<(int, nat)>)
      ensures r == Running(Listing(Items()))
    {
      var ps := ItemsAndWeights();
      ps := SortPairs(ps);
      r := Totals(ps);
    }

    /** The accumulating loop of `ranks`. */
    method Totals(ps: seq<Weighted>) returns (r: seq<(int, nat)>)
      ensures r == Running(ps)
    {
      var cumWeight := 0;
      r := [];
      for n := 0 to |ps|
        invariant |r| == n && cumWeight == Total(ps[..n])
        invariant forall i :: 0 <= i < n ==> r[i] == Running(ps)[i]
      {
        hide Total, Running;
        TotalNext(ps, n);
        cumWeight := cumWeight + ps[n].weight;
        r := r + [(ps[n].item, cumWeight)];
      }
    }

    /** `cdf()`: the same list with the running weights as shares of the whole. */
    method Cdf() returns (r: seq<(int, real)>)
      ensures Listing(Items()) != [] ==> Weight(Items()) > 0
      ensures r == AsShares(Running(Listing(Items())), Weight(Items()))
    {
      hide AsShares, Running, Flatten, Weight, Total;
      var ps := ItemsAndWeights();
      var totWeight := Total(ps);
      FlattenWeights(Items(), 0);
      ListingPositive(Items());
      ps := SortPairs(ps);
      r := Shares(ps, totWeight);
    }

    /** The accumulating loop of `cdf`. */
    method Shares(ps: seq<Weighted>, totWeight: nat) returns (r: seq<(int, real)>)
      requires |ps| > 0 ==> totWeight > 0
      ensures r == AsShares(Running(ps), totWeight)
    {
      var cumWeight := 0;
      ghost var all := AsShares(Running(ps), totWeight);
      r := [];
      for n := 0 to |ps|
        invariant r == all[..n] && cumWeight == Total(ps[..n])
      {
        TotalNext(ps, n);
        cumWeight := cumWeight + ps[n].weight;
        r := r + [(ps[n].item, cumWeight as real / totWeight as real)];
      }
    }

    /** A run of updates on a fresh sketch, whatever the random offsets. */
    method Feed(items: seq<int>)
      requires Valid() && LogHeight() && size < maxSize && inserted == [] && inherited == 0
      modifies this`compactors, this`Repr, this`H, this`maxSize, this`size, this`inserted, Repr
      ensures Valid() && size < maxSize && inserted == items && fresh(Repr - old(Repr))
      ensures Guaranteed(Items(), Compactions(), k, c, items)
      ensures c < 1.0 ==> size as real < k as real / (1.0 - c) + 2.0 * |compactors| as real
      ensures c == 1.0 ==> size < (k + 1) * |compactors|
    {
      hide Sound, HeightOk, Size, MaxSize, Stacked, Guaranteed, Updated;
      for i := 0 to |items|
        invariant Valid() && LogHeight() && size < maxSize && inserted == items[..i] && fresh(Repr - old(Repr))
      {
        Update(items[i]);
        assert items[..i+1] == items[..i] + [items[i]];
      }
      assert items[..|items|] == items;
      SoundGuarantees(Items(), Compactions(), k, c, items);
      SoundAccepts(Items(), Compactions(), k, c, inserted, inherited);
      SpaceBound(k, c, H);
    }
  }

  lemma {:induction false} JoinedIs(L: Levels, R: Levels, S: Levels)
    requires |R| <= |L| == |S|
    requires forall i :: 0 <= i < |R| ==> S[i] == L[i] + R[i]
    requires forall i :: |R| <= i < |L| ==> S[i] == L[i]
    ensures S == Joined(L, R)
  {
    forall i | 0 <= i < |S| ensures S[i] == Joined(L, R)[i] {
      assert i >= |R| ==> L[i] + [] == L[i];
    }
  }

  lemma {:induction false} StepIs(L: Levels, N: seq<nat>, h: nat, offset: nat, G: Levels, P: seq<nat>, S: Levels,
                                  M: seq<nat>)
    requires |L| == |N| && h < |L| && offset <= 1 && G == Grown(L, h) && P == GrownCounters(N, h)
    requires S == G[h := Kept(G[h])][h + 1 := G[h + 1] + Emitted(G[h], offset)] && M == P[h := P[h] + 1]
    ensures StepTo(L, N, h, offset, S, M)
  {
  }

  /** `S` and `M` are the levels and counters after compacting height `h`. */
  ghost predicate StepTo(L: Levels, N: seq<nat>, h: nat, offset: nat, S: Levels, M: seq<nat>) {
    h < |L| && h < |N| && offset <= 1 && S == Step(L, h, offset) && M == Counted(N, h)
  }

  /** Height `h` is the lowest one at or over its capacity. */
  ghost predicate Lowest(L: Levels, k: int, c: real, h: nat) {
    Over(L, k, c, h) && forall g: nat :: g < h ==> !Over(L, k, c, g)
  }

  /** A lazy pass compacts the lowest height at or over its capacity and no other. */
  ghost predicate LazyTo(L: Levels, N: seq<nat>, k: int, c: real, S: Levels, M: seq<nat>) {
    (forall h: nat :: Lowest(L, k, c, h) ==> exists offset :: StepTo(L, N, h, offset, S, M)) &&
    ((forall h: nat :: !Over(L, k, c, h)) ==> S == L && M == N)
  }

  /** An eager pass over the lowest `n` heights compacts each that is at or over its capacity by then. */
  ghost predicate EagerTo(L: Levels, N: seq<nat>, k: int, c: real, n: nat, S: Levels, M: seq<nat>)
    decreases n
  {
    if n == 0 then S == L && M == N else
    var h: nat := n - 1;
    exists P, O :: EagerTo(L, N, k, c, h, P, O) && EagerStep(P, O, k, c, h, S, M)
  }

  ghost predicate EagerStep(P: Levels, O: seq<nat>, k: int, c: real, h: nat, S: Levels, M: seq<nat>) {
    if Over(P, k, c, h) then exists offset :: StepTo(P, O, h, offset, S, M) else S == P && M == O
  }

  /** `compress`: of all the heights there are when it starts. */
  ghost predicate CompressedTo(lazy: bool, L: Levels, N: seq<nat>, k: int, c: real, S: Levels, M: seq<nat>) {
    if lazy then LazyTo(L, N, k, c, S, M) else EagerTo(L, N, k, c, |L|, S, M)
  }

  lemma {:induction false} PassStarts(L: Levels, N: seq<nat>, k: int, c: real)
    ensures EagerTo(L, N, k, c, 0, L, N)
  {
  }

  lemma {:induction false} PassCompacts(lazy: bool, L: Levels, N: seq<nat>, k: int, c: real, h: nat, P: Levels,
                                        O: seq<nat>, S: Levels, M: seq<nat>)
    requires Over(P, k, c, h) && exists offset :: StepTo(P, O, h, offset, S, M)
    requires if lazy then P == L && O == N && forall g: nat :: g < h ==> !Over(L, k, c, g)
             else EagerTo(L, N, k, c, h, P, O)
    ensures if lazy then LazyTo(L, N, k, c, S, M) else EagerTo(L, N, k, c, h + 1, S, M)
  {
    hide Over, StepTo;
    if lazy {
      forall g: nat | Lowest(L, k, c, g) ensures g == h {
        assert h < g ==> !Over(L, k, c, h);
      }
    } else {
      assert EagerStep(P, O, k, c, h, S, M);
    }
  }

  lemma {:induction false} PassSkips(lazy: bool, L: Levels, N: seq<nat>, k: int, c: real, h: nat, P: Levels,
                                     O: seq<nat>)
    requires !Over(P, k, c, h) && (!lazy ==> EagerTo(L, N, k, c, h, P, O))
    ensures !lazy ==> EagerTo(L, N, k, c, h + 1, P, O)
  {
    hide Over, StepTo;
    assert EagerStep(P, O, k, c, h, P, O);
  }

  lemma {:induction false} LazySkips(L: Levels, N: seq<nat>, k: int, c: real)
    requires forall h: nat :: !Over(L, k, c, h)
    ensures LazyTo(L, N, k, c, L, N)
  {
    hide Over;
  }

  /** What an update leads to: the item at the lowest height, and a pass exactly when the sketch is then full. */
  ghost predicate Updated(lazy: bool, L: Levels, N: seq<nat>, k: int, c: real, full: bool, S: Levels, M: seq<nat>) {
    if full then CompressedTo(lazy, L, N, k, c, S, M) else S == L && M == N
  }

  /** At least `H` entries, the new ones `x`. */
  ghost function Raised<T>(s: seq<T>, H: nat, x: T): seq<T> {
    seq(if |s| < H then H else |s|, h => if 0 <= h < |s| then s[h] else x)
  }

  /** After `n` passes, each over a sketch that was full. */
  ghost predicate Pressed(lazy: bool, L: Levels, N: seq<nat>, k: int, c: real, n: nat, S: Levels, M: seq<nat>)
    decreases n
  {
    if n == 0 then S == L && M == N else
    var m: nat := n - 1;
    exists P, O :: Pressed(lazy, L, N, k, c, m, P, O) && PressStep(lazy, P, O, k, c, S, M)
  }

  ghost predicate PressStep(lazy: bool, P: Levels, O: seq<nat>, k: int, c: real, S: Levels, M: seq<nat>) {
    Size(P) >= MaxSize(k, c, |P|) && CompressedTo(lazy, P, O, k, c, S, M)
  }

  lemma {:induction false} PressNone(lazy: bool, L: Levels, N: seq<nat>, k: int, c: real)
    ensures Pressed(lazy, L, N, k, c, 0, L, N)
  {
  }

  lemma {:induction false} PressNext(lazy: bool, L: Levels, N: seq<nat>, k: int, c: real, n: nat,
                                     P: Levels, O: seq<nat>, S: Levels, M: seq<nat>)
    requires Pressed(lazy, L, N, k, c, n, P, O) && PressStep(lazy, P, O, k, c, S, M)
    ensures Pressed(lazy, L, N, k, c, n + 1, S, M)
  {
    hide PressStep;
  }

  lemma {:induction false} StepFrees(L: Levels, k: int, c: real, h: nat, offset: nat)
    requires Accepted(k, c) && Over(L, k, c, h) && offset <= 1
    ensures Size(Step(L, h, offset)) < Size(L)
  {
    StepWeight(L, h, offset);
    CapBounds(k, c, |L| - h - 1);
  }

  lemma {:induction false} OverAt(L: Levels, k: int, c: real, h: nat)
    requires h < |L|
    ensures Over(L, k, c, h) <==> |L[h]| >= Capacity(k, c, |L|, h)
  {
  }

  lemma {:induction false} OverRange(L: Levels, k: int, c: real)
    ensures forall h: nat :: Over(L, k, c, h) ==> h < |L|
  {
  }

  lemma {:induction false} FullIsOver(L: Levels, k: int, c: real)
    requires |L| > 0 && Size(L) >= MaxSize(k, c, |L|)
    ensures exists h: nat :: Over(L, k, c, h)
  {
    assert Lens(L)[..|L|] == Lens(L);
    if forall h: nat :: !Over(L, k, c, h) {
      FullHasOver(L, k, c, |L|);
    }
  }

  lemma {:induction false} SoundAccepts(L: Levels, N: seq<nat>, k: int, c: real, inserted: seq<int>, inherited: nat)
    requires Sound(L, N, k, c, inserted, inherited)
    ensures Accepted(k, c)
  {
  }

  lemma {:induction false} SoundWeight(L: Levels, N: seq<nat>, k: int, c: real, inserted: seq<int>, inherited: nat)
    requires Sound(L, N, k, c, inserted, inherited)
    ensures Weight(L) == |inserted|
  {
  }

  lemma {:induction false} JoinKeepsHeight(L0: Levels, L: Levels, R: Levels, k: int, k': int)
    requires |R| <= |L| && (|L| == |L0| || |L| == |R|) && Weight(L) == Weight(L0)
    ensures HeightOk(L0, k) && HeightOk(R, k') && k <= k' ==> HeightOk(Joined(L, R), k)
  {
    if HeightOk(L0, k) && HeightOk(R, k') && k <= k' {
      JoinHeight(L0, L, R, k, k');
    }
  }

  lemma {:induction false} CountLeOne(x: int, v: int)
    ensures CountLe([x], v) == if x <= v then 1 else 0
  {
    assert CountLe([x], v) == (if x <= v then 1 else 0) + CountLe([x][1..], v);
  }
}

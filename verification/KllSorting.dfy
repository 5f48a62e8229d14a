/** Sorting and counting, as far as the sketch needs them. Items are integers: only their order matters. */
module KllSorting {

  ghost predicate Sorted(s: seq<int>) {
    forall i, j :: 0 <= i < j < |s| ==> s[i] <= s[j]
  }

  function Insert(x: int, s: seq<int>): (r: seq<int>)
    requires Sorted(s)
    ensures |r| == |s| + 1 && Sorted(r) && r[0] == if s == [] || x <= s[0] then x else s[0]
  {
    if s == [] || x <= s[0] then [x] + s else [s[0]] + Insert(x, s[1..])
  }

  /** `list.sort`, by insertion. */
  function Sort(s: seq<int>): (r: seq<int>)
    ensures |r| == |s| && Sorted(r)
  {
    if s == [] then [] else Insert(s[0], Sort(s[1..]))
  }

  lemma {:induction false} InsertPermutes(x: int, s: seq<int>)
    requires Sorted(s)
    ensures multiset(Insert(x, s)) == multiset(s) + multiset{x}
  {
    if s != [] && x > s[0] {
      InsertPermutes(x, s[1..]);
      assert s == [s[0]] + s[1..];
    }
  }

  lemma {:induction false} SortPermutes(s: seq<int>)
    ensures multiset(Sort(s)) == multiset(s)
  {
    if s != [] {
      SortPermutes(s[1..]);
      InsertPermutes(s[0], Sort(s[1..]));
      assert s == [s[0]] + s[1..];
    }
  }

  lemma {:induction false} SortedUnique(s: seq<int>, t: seq<int>)
    requires Sorted(s) && Sorted(t) && multiset(s) == multiset(t)
    ensures s == t
  {
    SameLength(s, t);
    if s != [] {
      LeastFirst(s, t);
      LeastFirst(t, s);
      assert s == [s[0]] + s[1..] && t == [t[0]] + t[1..];
      assert multiset(s[1..]) == multiset(s) - multiset{s[0]};
      assert multiset(t[1..]) == multiset(t) - multiset{t[0]};
      SortedUnique(s[1..], t[1..]);
    }
  }

  lemma {:induction false} SameLength(s: seq<int>, t: seq<int>)
    requires multiset(s) == multiset(t)
    ensures |s| == |t|
  {
    assert |multiset(s)| == |s| && |multiset(t)| == |t|;
  }

  lemma {:induction false} LeastFirst(s: seq<int>, t: seq<int>)
    requires Sorted(s) && multiset(s) == multiset(t) && |s| == |t| > 0
    ensures s[0] <= t[0]
  {
    assert t[0] in multiset(t);
    assert t[0] in s;
  }

  /** Whatever sorting algorithm is used, the result is `Sort`. */
  lemma {:induction false} AnySort(s: seq<int>, t: seq<int>)
    ensures Sorted(t) && multiset(t) == multiset(s) <==> t == Sort(s)
  {
    SortPermutes(s);
    if Sorted(t) && multiset(t) == multiset(s) {
      SortedUnique(t, Sort(s));
    }
  }

  /** How many entries are at most `v`. */
  function CountLe(s: seq<int>, v: int): (n: nat)
    ensures n <= |s|
  {
    if s == [] then 0 else (if s[0] <= v then 1 else 0) + CountLe(s[1..], v)
  }

  lemma {:induction false} CountLeConcat(s: seq<int>, t: seq<int>, v: int)
    ensures CountLe(s + t, v) == CountLe(s, v) + CountLe(t, v)
  {
    if s == [] {
      assert s + t == t;
    } else {
      CountLeConcat(s[1..], t, v);
      assert (s + t)[1..] == s[1..] + t;
    }
  }

  lemma {:induction false} CountLeInsert(x: int, s: seq<int>, v: int)
    requires Sorted(s)
    ensures CountLe(Insert(x, s), v) == CountLe(s, v) + if x <= v then 1 else 0
  {
    if s == [] || x <= s[0] {
      assert ([x] + s)[1..] == s;
    } else {
      CountLeInsert(x, s[1..], v);
      assert ([s[0]] + Insert(x, s[1..]))[1..] == Insert(x, s[1..]);
    }
  }

  lemma {:induction false} CountLeSort(s: seq<int>, v: int)
    ensures CountLe(Sort(s), v) == CountLe(s, v)
  {
    if s != [] {
      CountLeSort(s[1..], v);
      CountLeInsert(s[0], Sort(s[1..]), v);
    }
  }

  lemma {:induction false} CountLeNone(s: seq<int>, v: int)
    requires forall i :: 0 <= i < |s| ==> s[i] > v
    ensures CountLe(s, v) == 0
  {
    if s != [] {
      CountLeNone(s[1..], v);
    }
  }

  // ---- every second entry ----

  /** The entries at positions `offset`, `offset` + 2, `offset` + 4, ... */
  function EverySecond(s: seq<int>, offset: nat): (r: seq<int>)
    requires |s| % 2 == 0 && offset <= 1
    ensures |r| == |s| / 2
    ensures forall i :: 0 <= i < |r| ==> r[i] == s[2*i + offset]
  {
    if s == [] then [] else [s[offset]] + EverySecond(s[2..], offset)
  }

  /** Of the entries up to `v`, every second one is chosen: half of them, rounded up or down. */
  lemma {:induction false} EverySecondCount(s: seq<int>, offset: nat, v: int)
    requires |s| % 2 == 0 && offset <= 1 && Sorted(s)
    ensures CountLe(EverySecond(s, offset), v) == (CountLe(s, v) + 1 - offset) / 2
  {
    if s != [] {
      var t, r := s[2..], EverySecond(s[2..], offset);
      EverySecondCount(t, offset, v);
      assert EverySecond(s, offset)[1..] == r;
      assert s[1..][1..] == t;
      if s[1] > v {
        CountLeNone(t, v);
      }
    }
  }
}

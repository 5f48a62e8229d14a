/** Python list operations and the set view of a list. */
module Lists {

  datatype Option<+T> = None | Some(value: T)

  ghost predicate Distinct<T>(s: seq<T>) {
    forall i, j :: 0 <= i < j < |s| ==> s[i] != s[j]
  }

  ghost function Elems<T>(s: seq<T>): set<T> {
    set x | x in s
  }

  lemma {:induction false} PrefixElems<T>(s: seq<T>, i: nat)
    requires i < |s|
    ensures s[..i+1] == s[..i] + [s[i]] && Elems(s[..i+1]) == Elems(s[..i]) + {s[i]}
  {
  }

  lemma {:induction false} DistinctCard<T>(s: seq<T>)
    requires Distinct(s)
    ensures |Elems(s)| == |s|
  {
    if s != [] {
      DistinctCard(s[1..]);
      assert Elems(s) == {s[0]} + Elems(s[1..]);
      assert s[0] !in s[1..];
    }
  }

  lemma {:induction false} CardSubset<T>(A: set<T>, B: set<T>)
    requires A <= B
    ensures |A| <= |B|
  {
    assert B == A + (B - A);
  }

  /** Python's `list.index`. */
  function IndexOf<T(==)>(s: seq<T>, x: T): (i: nat)
    requires x in s
    ensures i < |s| && s[i] == x && x !in s[..i]
  {
    if s[0] == x then 0 else 1 + IndexOf(s[1..], x)
  }

  lemma {:induction false} IndexOfFirst<T>(s: seq<T>, j: nat)
    requires j < |s|
    ensures IndexOf(s, s[j]) <= j
  {
    if s[0] != s[j] {
      IndexOfFirst(s[1..], j - 1);
    }
  }

  /** Python's `list.remove`: drops the first occurrence, which has to exist. */
  function RemoveFirst<T(==)>(s: seq<T>, x: T): (r: seq<T>)
    requires x in s
    ensures |r| == |s| - 1
  {
    var i := IndexOf(s, x);
    s[..i] + s[i+1..]
  }

  lemma {:induction false} RemoveFirstElems<T>(s: seq<T>, x: T)
    requires x in s && Distinct(s)
    ensures Distinct(RemoveFirst(s, x))
    ensures forall y :: y in RemoveFirst(s, x) <==> y in s && y != x
  {
  }

  /** Python's `list.reverse`. */
  function Reverse<T>(p: seq<T>): (r: seq<T>)
    ensures |r| == |p|
    ensures forall i :: 0 <= i < |p| ==> r[i] == p[|p|-1-i]
  {
    if p == [] then [] else Reverse(p[1..]) + [p[0]]
  }

  lemma {:induction false} ReverseAppend<T>(s: seq<T>, r: seq<T>)
    ensures Reverse(s + r) == Reverse(r) + Reverse(s)
  {
    if s == [] {
      assert s + r == r;
    } else {
      ReverseAppend(s[1..], r);
      assert (s + r)[1..] == s[1..] + r;
    }
  }
}

/** `add_path`: a circuit becomes part of a path that meets it. */
module Splicing {
  import opened ArcSets
  import opened Lists

  function Splice(p1: seq<Node>, p2: seq<Node>): seq<Node>
    requires p2 != [] && p2[0] in p1
  {
    var j := IndexOf(p1, p2[0]);
    p1[..j+1] + p2[1..] + p1[j+1..]
  }

  lemma {:induction false} InsertKeepsIndex(p1: seq<Node>, i: nat, y: Node, x: Node)
    requires x in p1 && IndexOf(p1, x) < i <= |p1|
    ensures x in p1[..i] + [y] + p1[i..] && IndexOf(p1[..i] + [y] + p1[i..], x) == IndexOf(p1, x)
  {
    var j := IndexOf(p1, x);
    var q := p1[..i] + [y] + p1[i..];
    assert q[j] == x;
    assert q[..j] == p1[..j];
    FirstIndex(q, x, j);
  }

  lemma {:induction false} FirstIndex(s: seq<Node>, x: Node, j: nat)
    requires j < |s| && s[j] == x && x !in s[..j]
    ensures IndexOf(s, x) == j
  {
    if j > 0 {
      assert s[0] == s[..j][0] && s[1..][..j-1] == s[..j][1..];
      FirstIndex(s[1..], x, j - 1);
    }
  }

  /** `add_path`: inserts the nodes of `p2` one by one behind the first occurrence of its start. */
  method AddPath(p1: seq<Node>, p2: seq<Node>) returns (p: seq<Node>)
    requires p2 != [] && p2[0] in p1
    ensures p == Splice(p1, p2)
  {
    hide IndexOf;
    ghost var j := IndexOf(p1, p2[0]);
    p := p1;
    var k := 1;
    for i := 0 to |p2| - 1
      invariant k == i + 1 && p2[0] in p && IndexOf(p, p2[0]) == j
      invariant p == p1[..j+1] + p2[1..k] + p1[j+1..]
    {
      var at := IndexOf(p, p2[0]) + k;
      InsertKeepsIndex(p, at, p2[i+1], p2[0]);
      InsertNext(p1[..j+1], p2, k, p1[j+1..]);
      p := p[..at] + [p2[i+1]] + p[at..];
      k := k + 1;
    }
    assert p2[1..k] == p2[1..];
  }

  lemma {:induction false} InsertNext(front: seq<Node>, p2: seq<Node>, k: nat, back: seq<Node>)
    requires 1 <= k < |p2|
    ensures var p, at := front + p2[1..k] + back, |front| - 1 + k;
            at <= |p| && p[..at] + [p2[k]] + p[at..] == front + p2[1..k+1] + back
  {
    var p, at := front + p2[1..k] + back, |front| - 1 + k;
    assert p[..at] == front + p2[1..k] && p[at..] == back;
    assert p2[1..k+1] == p2[1..k] + [p2[k]];
  }

  /** Splicing a circuit into a trail that meets it gives one trail with the links of both. */
  lemma {:induction false} SpliceTrail(p1: seq<Node>, p2: seq<Node>)
    requires Trail(p1) && Trail(p2) && p2[0] in p1 && p2[|p2|-1] == p2[0]
    requires TrailArcs(p1) !! TrailArcs(p2)
    ensures var p := Splice(p1, p2);
            Trail(p) && TrailArcs(p) == TrailArcs(p1) + TrailArcs(p2) && p[0] == p1[0] && p[|p|-1] == p1[|p1|-1]
  {
    hide IndexOf, TrailArcs;
    var j := IndexOf(p1, p2[0]);
    TrailCut(p1, j);
    JoinThree(p1[..j+1], p2, p1[j..]);
    assert p1[j..][1..] == p1[j+1..];
  }

  lemma {:induction false} JoinThree(a: seq<Node>, b: seq<Node>, c: seq<Node>)
    requires Trail(a) && Trail(b) && Trail(c) && a[|a|-1] == b[0] && b[|b|-1] == c[0]
    requires TrailArcs(a) !! TrailArcs(b) && TrailArcs(a) !! TrailArcs(c) && TrailArcs(b) !! TrailArcs(c)
    ensures var p := a + b[1..] + c[1..];
            Trail(p) && TrailArcs(p) == TrailArcs(a) + TrailArcs(b) + TrailArcs(c) && p[0] == a[0] &&
            p[|p|-1] == c[|c|-1]
  {
    JoinTwo(a, b);
    JoinTwo(a + b[1..], c);
  }

  lemma {:induction false} JoinTwo(a: seq<Node>, b: seq<Node>)
    requires Trail(a) && Trail(b) && a[|a|-1] == b[0] && TrailArcs(a) !! TrailArcs(b)
    ensures var p := a + b[1..];
            Trail(p) && TrailArcs(p) == TrailArcs(a) + TrailArcs(b) && p[0] == a[0] && p[|p|-1] == b[|b|-1]
  {
    TrailJoin(a, b);
    TrailArcsJoin(a, b);
  }

  /** A path and a component with a node in common. */
  ghost predicate Shares(path: seq<Node>, comp: seq<Node>) {
    exists x :: x in path && x in comp
  }
}

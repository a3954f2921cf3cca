/** Finite directed graphs as sets of edges, and nonempty paths through them.
    The plan's formula references, the sort's dependencies and the links between
    dimensions are all graphs of this kind. */
module Graphs {

  type Graph<T(==)> = set<(T, T)>

  /** Places k and k + 1 of p are joined by an edge. */
  ghost predicate Along<T>(g: Graph<T>, p: seq<T>, k: int)
    requires 0 <= k < |p| - 1
  {
    (p[k], p[k + 1]) in g
  }

  ghost predicate IsPath<T>(g: Graph<T>, p: seq<T>) {
    |p| >= 2 && forall k :: 0 <= k < |p| - 1 ==> Along(g, p, k)
  }

  /** A nonempty path of edges leads from a to b. */
  ghost predicate Reaches<T(!new)>(g: Graph<T>, a: T, b: T) {
    exists p: seq<T> :: IsPath(g, p) && p[0] == a && p[|p| - 1] == b
  }

  ghost predicate Cyclic<T(!new)>(g: Graph<T>) {
    exists a: T :: Reaches(g, a, a)
  }

  ghost predicate Transitive<T(!new)>(g: Graph<T>) {
    forall a, b, c :: (a, b) in g && (b, c) in g ==> (a, c) in g
  }

  lemma EdgeReaches<T(!new)>(g: Graph<T>, a: T, b: T)
    requires (a, b) in g
    ensures Reaches(g, a, b)
  {
    assert Along(g, [a, b], 0);
    assert IsPath(g, [a, b]);
  }

  lemma ReachesTrans<T(!new)>(g: Graph<T>, a: T, b: T, c: T)
    requires Reaches(g, a, b) && Reaches(g, b, c)
    ensures Reaches(g, a, c)
  {
    var p: seq<T> :| IsPath(g, p) && p[0] == a && p[|p| - 1] == b;
    var q: seq<T> :| IsPath(g, q) && q[0] == b && q[|q| - 1] == c;
    var r := p + q[1..];
    forall k | 0 <= k < |r| - 1
      ensures Along(g, r, k)
    {
      if k < |p| - 1 {
        assert Along(g, p, k);
      } else {
        assert Along(g, q, k - (|p| - 1));
      }
    }
    assert IsPath(g, r) && r[0] == a && r[|r| - 1] == c;
  }

  /** A transitive relation that contains the edges contains every path's ends. */
  lemma PathInClosure<T(!new)>(g: Graph<T>, r: Graph<T>, p: seq<T>)
    requires g <= r && Transitive(r)
    requires IsPath(g, p)
    ensures (p[0], p[|p| - 1]) in r
  {
    var k := 1;
    assert Along(g, p, 0);
    while k < |p| - 1
      invariant 1 <= k <= |p| - 1
      invariant (p[0], p[k]) in r
    {
      assert Along(g, p, k);
      k := k + 1;
    }
  }

  lemma ReachesInClosure<T(!new)>(g: Graph<T>, r: Graph<T>, a: T, b: T)
    requires g <= r && Transitive(r)
    requires Reaches(g, a, b)
    ensures (a, b) in r
  {
    var p: seq<T> :| IsPath(g, p) && p[0] == a && p[|p| - 1] == b;
    PathInClosure(g, r, p);
  }

  /** A set that follows every edge out of it is never left by a path. */
  lemma PathStaysInside<T>(g: Graph<T>, inside: set<T>, p: seq<T>)
    requires forall a, b :: (a, b) in g && a in inside ==> b in inside
    requires IsPath(g, p) && p[0] in inside
    ensures p[|p| - 1] in inside
  {
    var k := 0;
    while k < |p| - 1
      invariant 0 <= k <= |p| - 1 && p[k] in inside
    {
      assert Along(g, p, k);
      k := k + 1;
    }
  }

  ghost predicate Distinct<T>(s: seq<T>) {
    forall i, j :: 0 <= i < j < |s| ==> s[i] != s[j]
  }

  lemma {:induction false} DistinctCount<T>(s: seq<T>)
    requires Distinct(s)
    ensures |(set x | x in s)| == |s|
  {
    if s == [] {
      assert (set x | x in s) == {};
    } else {
      var t := s[..|s| - 1];
      DistinctCount(t);
      assert (set x | x in s) == (set x | x in t) + {s[|s| - 1]};
      assert s[|s| - 1] !in t;
    }
  }

  lemma SubsetCount<T>(a: set<T>, b: set<T>)
    requires a <= b
    ensures |a| <= |b|
  {
    assert b == a + (b - a);
  }

  ghost predicate HasNext<T>(g: Graph<T>, stuck: set<T>, a: T) {
    exists b :: b in stuck && (a, b) in g
  }

  /** Every member of the set has an edge to a member of the set. */
  ghost predicate NoExit<T>(g: Graph<T>, stuck: set<T>) {
    forall a :: a in stuck ==> HasNext(g, stuck, a)
  }

  ghost predicate Walk<T>(g: Graph<T>, stuck: set<T>, p: seq<T>) {
    && p != [] && Distinct(p)
    && (forall k :: 0 <= k < |p| ==> p[k] in stuck)
    && (forall k :: 0 <= k < |p| - 1 ==> Along(g, p, k))
  }

  lemma WalkBounded<T>(g: Graph<T>, stuck: set<T>, p: seq<T>)
    requires Walk(g, stuck, p)
    ensures |p| <= |stuck|
  {
    DistinctCount(p);
    SubsetCount((set x | x in p), stuck);
  }

  lemma ClosedWalk<T(!new)>(g: Graph<T>, stuck: set<T>, p: seq<T>, k: nat)
    requires Walk(g, stuck, p) && k < |p| && (p[|p| - 1], p[k]) in g
    ensures Cyclic(g)
  {
    var q := p[k..] + [p[k]];
    forall m | 0 <= m < |q| - 1
      ensures Along(g, q, m)
    {
      if m < |q| - 2 {
        assert Along(g, p, k + m);
      }
    }
    assert IsPath(g, q) && q[0] == p[k] && q[|q| - 1] == p[k];
    assert Reaches(g, p[k], p[k]);
  }

  /** The pigeonhole argument behind "stuck means cycle": walk along edges that stay in a finite
      set until a vertex repeats. */
  lemma {:induction false} WalkFindsCycle<T(!new)>(g: Graph<T>, stuck: set<T>, p: seq<T>)
    requires NoExit(g, stuck) && Walk(g, stuck, p)
    ensures Cyclic(g)
    decreases |stuck| - |p|
  {
    WalkBounded(g, stuck, p);
    assert HasNext(g, stuck, p[|p| - 1]);
    var b :| b in stuck && (p[|p| - 1], b) in g;
    if b in p {
      var k :| 0 <= k < |p| && p[k] == b;
      ClosedWalk(g, stuck, p, k);
    } else {
      var q := p + [b];
      forall k | 0 <= k < |q| - 1
        ensures Along(g, q, k)
      {
        if k < |p| - 1 { assert Along(g, p, k); }
      }
      assert Walk(g, stuck, q);
      WalkBounded(g, stuck, q);
      WalkFindsCycle(g, stuck, q);
    }
  }

  lemma StuckIsCyclic<T(!new)>(g: Graph<T>, stuck: set<T>)
    requires stuck != {} && NoExit(g, stuck)
    ensures Cyclic(g)
  {
    var a :| a in stuck;
    WalkFindsCycle(g, stuck, [a]);
  }
}

/** Kahn's algorithm as the plan compiler runs it: of the steps that are ready, the one that stood first
    goes next. */
module StableSort {
  import opened Basics
  import opened Graphs

  type DepSets = seq<set<nat>>

  ghost predicate InRange(deps: DepSets) {
    forall i, d :: 0 <= i < |deps| && d in deps[i] ==> d < |deps|
  }

  ghost function EdgesOf(deps: DepSets): Graph<nat> {
    set i: nat, d | i < |deps| && d in deps[i] :: (i, d)
  }

  predicate Ready(deps: DepSets, done: set<nat>, i: nat)
    requires i < |deps|
  {
    i !in done && deps[i] <= done
  }

  /** The earliest ready step at or after i. */
  function EarliestReady(deps: DepSets, done: set<nat>, i: nat): (r: Option<nat>)
    requires i <= |deps|
    ensures r.Some? ==> i <= r.value < |deps| && Ready(deps, done, r.value)
    ensures forall k :: i <= k < (if r.Some? then r.value else |deps|) ==> !Ready(deps, done, k)
    decreases |deps| - i
  {
    if i == |deps| then None
    else if Ready(deps, done, i) then Some(i)
    else EarliestReady(deps, done, i + 1)
  }

  function Members(s: seq<nat>): set<nat> {
    set x | x in s
  }

  /** Continue from a prefix of the order; None when nothing is ready. */
  function SortFrom(deps: DepSets, order: seq<nat>): Option<seq<nat>>
    requires |order| <= |deps|
    decreases |deps| - |order|
  {
    if |order| == |deps| then Some(order)
    else match EarliestReady(deps, Members(order), 0)
      case None => None
      case Some(i) => SortFrom(deps, order + [i])
  }

  function Sort(deps: DepSets): Option<seq<nat>> {
    SortFrom(deps, [])
  }

  /** A prefix in which nothing repeats and every step's dependencies come before it. */
  ghost predicate Partial(deps: DepSets, order: seq<nat>) {
    && Distinct(order)
    && (forall k :: 0 <= k < |order| ==> order[k] < |deps| && deps[order[k]] <= Members(order[..k]))
  }

  /** A permutation of the steps in which every step's dependencies come before it. */
  ghost predicate Topological(deps: DepSets, order: seq<nat>) {
    Partial(deps, order) && |order| == |deps|
  }

  /** Dictionary order on sequences of equal length. */
  ghost predicate LexLeq(a: seq<nat>, b: seq<nat>) {
    a == b || exists k :: 0 <= k < |a| && k < |b| && a[..k] == b[..k] && a[k] < b[k]
  }

  lemma Extend(deps: DepSets, order: seq<nat>, i: nat)
    requires Partial(deps, order) && i < |deps| && Ready(deps, Members(order), i)
    ensures Partial(deps, order + [i])
  {
    var o := order + [i];
    forall k | 0 <= k < |o|
      ensures o[k] < |deps| && deps[o[k]] <= Members(o[..k])
    {
      assert o[..k] == order[..k];
      assert order[..|order|] == order;
    }
  }

  lemma {:induction false} SortFromSound(deps: DepSets, order: seq<nat>)
    requires Partial(deps, order) && |order| <= |deps|
    ensures SortFrom(deps, order).Some? ==> Topological(deps, SortFrom(deps, order).value)
    decreases |deps| - |order|
  {
    if |order| < |deps| {
      var r := EarliestReady(deps, Members(order), 0);
      if r.Some? {
        Extend(deps, order, r.value);
        SortFromSound(deps, order + [r.value]);
      }
    }
  }

  lemma SortSound(deps: DepSets)
    ensures Sort(deps).Some? ==> Topological(deps, Sort(deps).value)
  {
    SortFromSound(deps, []);
  }

  ghost function FirstDifference(a: seq<nat>, b: seq<nat>): (k: nat)
    requires |a| == |b|
    ensures k <= |a| && a[..k] == b[..k]
    ensures k < |a| ==> a[k] != b[k]
    ensures k == |a| ==> a == b
  {
    if a == [] || a[0] != b[0] then 0
    else
      var k := FirstDifference(a[1..], b[1..]);
      assert a == [a[0]] + a[1..] && b == [b[0]] + b[1..];
      assert a[..k + 1] == [a[0]] + a[1..][..k] && b[..k + 1] == [b[0]] + b[1..][..k];
      k + 1
  }

  /** What SortFrom has already placed stays placed, and each further place holds the
      earliest step that was ready there. */
  lemma {:induction false} SortFromGreedy(deps: DepSets, order: seq<nat>, k: nat)
    requires |order| <= |deps| && SortFrom(deps, order).Some?
    ensures var o := SortFrom(deps, order).value;
      && |o| == |deps| && order <= o
      && (|order| <= k < |deps| ==> EarliestReady(deps, Members(o[..k]), 0) == Some(o[k]))
    decreases |deps| - |order|
  {
    if |order| < |deps| {
      var i := EarliestReady(deps, Members(order), 0).value;
      SortFromGreedy(deps, order + [i], k);
      var o := SortFrom(deps, order).value;
      assert o[..|order|] == order && o[|order|] == i;
    }
  }

  /** Among all orders that respect the dependencies, Sort's is first in dictionary order. */
  lemma SortIsLeast(deps: DepSets, other: seq<nat>)
    requires Sort(deps).Some? && Topological(deps, other)
    ensures LexLeq(Sort(deps).value, other)
  {
    var o := Sort(deps).value;
    SortFromGreedy(deps, [], 0);
    var k := FirstDifference(o, other);
    if k < |o| {
      SortFromGreedy(deps, [], k);
      assert Ready(deps, Members(o[..k]), other[k]);
      assert o[k] < other[k];
    }
  }

  /** When the sort puts a later step j ahead of step i, i directly needs a step placed no earlier
      than j. */
  lemma OvertakenStepWaits(deps: DepSets, a: nat, b: nat) returns (c: nat)
    requires Sort(deps).Some? && a < b < |deps| && |Sort(deps).value| == |deps|
    requires Sort(deps).value[b] < Sort(deps).value[a]
    ensures a <= c < b && Sort(deps).value[b] < |deps| && Sort(deps).value[c] in deps[Sort(deps).value[b]]
  {
    var o := Sort(deps).value;
    SortSound(deps);
    SortFromGreedy(deps, [], a);
    var i := o[b];
    assert i !in Members(o[..a]);
    assert !Ready(deps, Members(o[..a]), i);
    var d :| d in deps[i] && d !in Members(o[..a]);
    assert d in Members(o[..b]);
    assert forall x :: 0 <= x < a ==> o[x] in o[..a];
    c :| 0 <= c < b && o[c] == d;
  }

  /** Nothing is put off without cause: a later step j gets ahead of a step only if that step needs,
      directly or through others, a step that stood at or after j. */
  lemma {:induction false} OvertakenOnlyWhenNeeded(deps: DepSets, a: nat, b: nat)
    requires Sort(deps).Some? && a < b < |deps| && |Sort(deps).value| == |deps|
    requires Sort(deps).value[b] < Sort(deps).value[a]
    ensures exists e :: e >= Sort(deps).value[a] && Reaches(EdgesOf(deps), Sort(deps).value[b], e)
    decreases b
  {
    var o, g := Sort(deps).value, EdgesOf(deps);
    var c := OvertakenStepWaits(deps, a, b);
    EdgeReaches(g, o[b], o[c]);
    if o[c] < o[a] {
      OvertakenOnlyWhenNeeded(deps, a, c);
      var e :| e >= o[a] && Reaches(g, o[c], e);
      ReachesTrans(g, o[b], o[c], e);
    }
  }

  function Upto(n: nat): seq<nat> {
    seq(n, i => i)
  }

  lemma UptoMembers(n: nat)
    ensures |Members(Upto(n))| == n
    ensures forall i: nat :: i in Members(Upto(n)) <==> i < n
  {
    DistinctCount(Upto(n));
    forall i: nat | i < n
      ensures i in Members(Upto(n))
    {
      assert Upto(n)[i] == i;
    }
  }

  /** n distinct numbers below n are all of them. */
  lemma MembersFull(n: nat, order: seq<nat>)
    requires Distinct(order) && |order| == n && forall k :: 0 <= k < n ==> order[k] < n
    ensures Members(order) == Members(Upto(n))
  {
    DistinctCount(order);
    UptoMembers(n);
    var rest := Members(Upto(n)) - Members(order);
    assert Members(Upto(n)) == Members(order) + rest;
    assert |rest| == 0;
  }

  /** Along a path of dependencies positions in a topological order decrease. */
  lemma PathGoesBack(deps: DepSets, order: seq<nat>, p: seq<nat>, at: nat)
    requires Topological(deps, order) && IsPath(EdgesOf(deps), p)
    requires at < |order| && order[at] == p[0]
    ensures p[|p| - 1] in order[..at]
  {
    var k := 0;
    var pos := at;
    while k < |p| - 1
      invariant 0 <= k <= |p| - 1 && 0 <= pos <= at && order[pos] == p[k]
      invariant k > 0 ==> pos < at
    {
      assert Along(EdgesOf(deps), p, k);
      assert p[k + 1] in Members(order[..pos]);
      var q :| 0 <= q < pos && order[q] == p[k + 1];
      k, pos := k + 1, q;
    }
    assert order[..at][pos] == p[|p| - 1];
  }

  lemma TopologicalIsAcyclic(deps: DepSets, order: seq<nat>)
    requires InRange(deps) && Topological(deps, order)
    ensures !Cyclic(EdgesOf(deps))
  {
    if Cyclic(EdgesOf(deps)) {
      var a :| Reaches(EdgesOf(deps), a, a);
      var p: seq<nat> :| IsPath(EdgesOf(deps), p) && p[0] == a && p[|p| - 1] == a;
      assert Along(EdgesOf(deps), p, 0);
      MembersFull(|deps|, order);
      UptoMembers(|deps|);
      assert a in Members(order);
      var at :| 0 <= at < |order| && order[at] == a;
      PathGoesBack(deps, order, p, at);
    }
  }

  /** Nothing ready before the end: the steps left over contain a cycle. */
  lemma NothingReadyIsCyclic(deps: DepSets, order: seq<nat>)
    requires InRange(deps) && Partial(deps, order) && |order| < |deps|
    requires EarliestReady(deps, Members(order), 0).None?
    ensures Cyclic(EdgesOf(deps))
  {
    var g := EdgesOf(deps);
    var all := Members(Upto(|deps|));
    var stuck := all - Members(order);
    UptoMembers(|deps|);
    DistinctCount(order);
    assert all == Members(order) + stuck;
    forall a | a in stuck
      ensures HasNext(g, stuck, a)
    {
      assert !Ready(deps, Members(order), a);
      var d :| d in deps[a] && d !in Members(order);
      assert (a, d) in g && d in stuck;
    }
    StuckIsCyclic(g, stuck);
  }

  lemma {:induction false} SortFromFailsOnCycle(deps: DepSets, order: seq<nat>)
    requires InRange(deps) && Partial(deps, order) && |order| <= |deps|
    requires SortFrom(deps, order).None?
    ensures Cyclic(EdgesOf(deps))
    decreases |deps| - |order|
  {
    var r := EarliestReady(deps, Members(order), 0);
    if r.None? {
      NothingReadyIsCyclic(deps, order);
    } else {
      Extend(deps, order, r.value);
      SortFromFailsOnCycle(deps, order + [r.value]);
    }
  }

  /** The sort gives up exactly when the dependencies have a cycle. */
  lemma SortGivesUpIffCyclic(deps: DepSets)
    requires InRange(deps)
    ensures Sort(deps).None? <==> Cyclic(EdgesOf(deps))
  {
    if Sort(deps).None? {
      SortFromFailsOnCycle(deps, []);
    } else {
      SortSound(deps);
      TopologicalIsAcyclic(deps, Sort(deps).value);
    }
  }

  /** Steps already in dependency order are left where they are. */
  lemma SortKeepsOrdered(deps: DepSets)
    requires forall i, d :: 0 <= i < |deps| && d in deps[i] ==> d < i
    ensures Sort(deps) == Some(Upto(|deps|))
  {
    SortFromKeepsOrdered(deps, 0);
  }

  lemma {:induction false} SortFromKeepsOrdered(deps: DepSets, k: nat)
    requires k <= |deps|
    requires forall i, d :: 0 <= i < |deps| && d in deps[i] ==> d < i
    ensures SortFrom(deps, Upto(k)) == Some(Upto(|deps|))
    decreases |deps| - k
  {
    if k < |deps| {
      UptoMembers(k);
      assert Ready(deps, Members(Upto(k)), k);
      assert Upto(k) + [k] == Upto(k + 1);
      SortFromKeepsOrdered(deps, k + 1);
    }
  }

  // ---- which of two steps comes first ----

  /** Everything step i needs, directly or through others. */
  ghost function Below(deps: DepSets, i: nat): set<nat> {
    set e: nat | e < |deps| && Reaches(EdgesOf(deps), i, e)
  }

  lemma BelowShrinks(deps: DepSets, i: nat, d: nat)
    requires InRange(deps) && !Cyclic(EdgesOf(deps)) && i < |deps| && d in deps[i]
    ensures |Below(deps, d)| < |Below(deps, i)|
  {
    var g := EdgesOf(deps);
    EdgeReaches(g, i, d);
    forall e | e in Below(deps, d)
      ensures e in Below(deps, i)
    {
      ReachesTrans(g, i, d, e);
    }
    assert d !in Below(deps, d);
    SubsetCount(Below(deps, d) + {d}, Below(deps, i));
  }

  /** Step i is placed behind step j, told from what the two need alone: an earlier step i lands
      behind a later j only by needing j or something that lands behind j. */
  ghost predicate Behind(deps: DepSets, i: nat, j: nat)
    requires InRange(deps) && !Cyclic(EdgesOf(deps)) && i < |deps| && j < |deps|
    decreases |Below(deps, i)| + |Below(deps, j)|, if i > j then 1 else 0
  {
    if i > j then !Behind(deps, j, i)
    else i != j && exists d :: d in deps[i] && (BelowShrinks(deps, i, d); d == j || Behind(deps, d, j))
  }

  lemma BehindOneWay(deps: DepSets, i: nat, j: nat)
    requires InRange(deps) && !Cyclic(EdgesOf(deps)) && i < |deps| && j < |deps| && Behind(deps, i, j)
    ensures !Behind(deps, j, i)
  {
  }

  /** An earlier step lands behind a later one only if it needs, directly or through others, a step
      that stands at or after that one. */
  lemma {:induction false} BehindWaits(deps: DepSets, i: nat, j: nat)
    requires InRange(deps) && !Cyclic(EdgesOf(deps)) && i < j < |deps| && Behind(deps, i, j)
    ensures exists e :: e >= j && Reaches(EdgesOf(deps), i, e)
    decreases |Below(deps, i)|
  {
    var g := EdgesOf(deps);
    var d :| d in deps[i] && (d == j || Behind(deps, d, j));
    EdgeReaches(g, i, d);
    if d < j {
      BelowShrinks(deps, i, d);
      BehindWaits(deps, d, j);
      var e :| e >= j && Reaches(g, d, e);
      ReachesTrans(g, i, d, e);
    }
  }

  /** The sort's order is exactly that: where two steps stand to each other depends on nothing but
      those two and what they need. */
  lemma {:induction false} OrderIsPairwise(deps: DepSets, a: nat, b: nat)
    requires InRange(deps) && !Cyclic(EdgesOf(deps)) && Sort(deps).Some? && Topological(deps, Sort(deps).value)
    requires a < |deps| && b < |deps|
    ensures Behind(deps, Sort(deps).value[b], Sort(deps).value[a]) <==> a < b
    decreases a + b, if Sort(deps).value[b] > Sort(deps).value[a] then 2 else 1
  {
    var o := Sort(deps).value;
    if o[b] > o[a] {
      OrderIsPairwise(deps, b, a);
    } else if o[b] < o[a] {
      EarlierBehind(deps, a, b);
    }
  }

  lemma {:induction false} EarlierBehind(deps: DepSets, a: nat, b: nat)
    requires InRange(deps) && !Cyclic(EdgesOf(deps)) && Sort(deps).Some? && Topological(deps, Sort(deps).value)
    requires a < |deps| && b < |deps| && Sort(deps).value[b] < Sort(deps).value[a]
    ensures Behind(deps, Sort(deps).value[b], Sort(deps).value[a]) <==> a < b
    decreases a + b, 0
  {
    var o := Sort(deps).value;
    if a < b {
      var c := OvertakenStepWaits(deps, a, b);
      if c != a { OrderIsPairwise(deps, a, c); }
    } else {
      forall d | d in deps[o[b]]
        ensures d != o[a] && !Behind(deps, d, o[a])
      {
        assert d in Members(o[..b]);
        var c :| 0 <= c < b && o[c] == d;
        OrderIsPairwise(deps, a, c);
      }
    }
  }
}

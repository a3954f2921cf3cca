/** The loops of the plan compiler: each computes the plan its specification names. */
module PlanCompiler {
  import opened Basics
  import opened Formulas
  import opened Graphs
  import opened Plans
  import opened PlanMeaning
  import opened PlanTheorems
  import opened StableSort
  import opened Text

  type ReachMap = map<nat, set<nat>>

  // ---- splitting ----

  /** First pass: who defines which name, and which steps are metrics with a formula. */
  method CollectMetrics(steps: seq<Step>) returns (creator: map<string, nat>, metrics: set<nat>)
    ensures forall k :: k in creator ==> IsDefiner(steps, k, creator[k])
    ensures forall i, k :: 0 <= i < |steps| && Defines(steps[i], k) ==> k in creator
    ensures forall i: nat :: i in metrics <==> i < |steps| && Splittable(steps[i])
  {
    creator, metrics := map[], {};
    for i := 0 to |steps|
      invariant forall k :: k in creator ==> creator[k] < i && IsDefiner(steps, k, creator[k])
      invariant forall h, k :: 0 <= h < i && Defines(steps[h], k) ==> k in creator
      invariant forall h: nat :: h in metrics <==> h < i && Splittable(steps[h])
    {
      var s := steps[i];
      if Splittable(s) {
        if Key(s.name) !in creator {
          creator := creator[Key(s.name) := i];
        }
        metrics := metrics + {i};
      }
    }
  }

  /** The metrics one formula names. */
  method NamedMetrics(steps: seq<Step>, creator: map<string, nat>, i: nat) returns (named: set<nat>)
    requires i < |steps| && Splittable(steps[i])
    requires forall k :: k in creator ==> IsDefiner(steps, k, creator[k])
    requires forall h, k :: 0 <= h < |steps| && Defines(steps[h], k) ==> k in creator
    ensures forall j :: j in named <==> Names(steps, i, j)
  {
    var refs := Refs(steps[i].formula.node);
    named := {};
    for n := 0 to |refs|
      invariant forall j :: j in named ==> Names(steps, i, j)
      invariant forall m, j :: 0 <= m < n && IsDefiner(steps, Key(refs[m]), j) && j != i ==> j in named
    {
      var k := Key(refs[n]);
      if k in creator && creator[k] != i {
        assert refs[n] in TextRefs(steps[i].formula);
        named := named + {creator[k]};
      }
      forall j | IsDefiner(steps, k, j) && j != i
        ensures j in named
      {
        DefinerUnique(steps, k, j, creator[k]);
      }
    }
  }

  lemma DefinerUnique(steps: seq<Step>, k: string, i: nat, j: nat)
    requires IsDefiner(steps, k, i) && IsDefiner(steps, k, j)
    ensures i == j
  {
  }

  /** reaches before the fixpoint: direct references, metric by metric in any order. */
  method DirectReaches(steps: seq<Step>, creator: map<string, nat>, metrics: set<nat>) returns (reaches: ReachMap)
    requires forall k :: k in creator ==> IsDefiner(steps, k, creator[k])
    requires forall h, k :: 0 <= h < |steps| && Defines(steps[h], k) ==> k in creator
    requires forall i: nat :: i in metrics <==> i < |steps| && Splittable(steps[i])
    ensures reaches.Keys == metrics && Closed(reaches)
    ensures Relation(reaches) == FormulaGraph(steps)
  {
    reaches := map[];
    var todo := metrics;
    while todo != {}
      invariant todo <= metrics && reaches.Keys == metrics - todo
      invariant forall i, j :: i in reaches ==> (j in reaches[i] <==> Names(steps, i, j))
    {
      var i :| i in todo;
      var named := NamedMetrics(steps, creator, i);
      reaches := reaches[i := named];
      todo := todo - {i};
    }
  }

  ghost function Relation(r: ReachMap): Graph<nat> {
    set i, j | i in r && j in r[i] :: (i, j)
  }

  ghost predicate Closed(r: ReachMap) {
    forall i, j :: i in r && j in r[i] ==> j in r
  }

  /** The innermost loop: i reaches everything j reaches. Go may or may not visit entries inserted
      while it ranges over reaches[i]; `visit` is the arbitrary part it does visit. */
  method Absorb(r0: ReachMap, i: nat, j: nat) returns (r: ReachMap, changed: bool, visit: set<nat>)
    requires i in r0 && j in r0
    ensures r == r0[i := r0[i] + r0[j]]
    ensures changed <==> !(r0[j] <= r0[i])
    ensures visit <= r0[j] - r0[i]
  {
    r, changed, visit := r0, false, {};
    var todo := r0[j];
    while todo != {}
      invariant todo <= r0[j]
      invariant r.Keys == r0.Keys && forall h :: h in r && h != i ==> r[h] == r0[h]
      invariant r[i] == r0[i] + (r0[j] - todo)
      invariant changed <==> !(r0[j] - todo <= r0[i])
      invariant visit <= r0[j] - r0[i]
    {
      var k :| k in todo;
      todo := todo - {k};
      if k !in r[i] {
        r, changed := r[i := r[i] + {k}], true;
        if * {
          visit := visit + {k};
        }
      }
    }
    assert r0[j] - todo == r0[j];
  }

  ghost predicate Sound(r: ReachMap, r0: ReachMap) {
    && r.Keys == r0.Keys && Closed(r) && Relation(r0) <= Relation(r)
    && forall i, j :: i in r && j in r[i] ==> Reaches(Relation(r0), i, j)
  }

  lemma AbsorbSound(r0: ReachMap, r: ReachMap, i: nat, j: nat, r': ReachMap)
    requires Sound(r, r0) && i in r && j in r[i] && r' == r[i := r[i] + r[j]]
    ensures Sound(r', r0) && Relation(r) <= Relation(r')
  {
    forall h, k | h in r' && k in r'[h]
      ensures Reaches(Relation(r0), h, k)
    {
      if h == i && k in r[j] {
        ReachesTrans(Relation(r0), i, j, k);
      }
    }
  }

  /** The middle loop: i absorbs what each of its metrics reaches. */
  method AbsorbAll(r0: ReachMap, r1: ReachMap, i: nat) returns (r: ReachMap, changed: bool)
    requires Sound(r1, r0) && i in r1
    ensures Sound(r, r0) && Relation(r1) <= Relation(r)
    ensures !changed ==> r == r1 && forall j :: j in r[i] ==> r[j] <= r[i]
    ensures changed ==> Relation(r1) < Relation(r)
  {
    r, changed := r1, false;
    var todo := r[i];
    while todo != {}
      invariant Sound(r, r0) && i in r && todo <= r[i] && Relation(r1) <= Relation(r)
      invariant !changed ==> r == r1 && forall j :: j in r[i] - todo ==> r[j] <= r[i]
      invariant changed ==> Relation(r1) < Relation(r)
      decreases r0.Keys - r[i], todo
    {
      var j :| j in todo;
      var next, grew, visit := Absorb(r, i, j);
      AbsorbSound(r0, r, i, j, next);
      if grew {
        var k :| k in r[j] && k !in r[i];
        assert (i, k) in Relation(next) && (i, k) !in Relation(r);
        assert k in r0.Keys - r[i] && k in next[i];
      } else {
        assert r[i] + r[j] == r[i];
        assert next == r;
      }
      todo := todo - {j} + visit;
      r, changed := next, changed || grew;
    }
  }

  /** The fixpoint loop ends, with reaches[i][j] exactly when a nonempty path of direct references
      leads from i to j. */
  method Saturate(r0: ReachMap) returns (r: ReachMap)
    requires Closed(r0)
    ensures r.Keys == r0.Keys
    ensures forall i, j :: i in r ==> (j in r[i] <==> Reaches(Relation(r0), i, j))
  {
    r := r0;
    ghost var all := set i, j | i in r0.Keys && j in r0.Keys :: (i, j);
    var changed := true;
    forall i, j | i in r && j in r[i]
      ensures Reaches(Relation(r0), i, j)
    {
      EdgeReaches(Relation(r0), i, j);
    }
    while changed
      invariant Sound(r, r0)
      invariant !changed ==> Stable(r, r.Keys)
      decreases all - Relation(r), changed
    {
      changed := false;
      ghost var start := r;
      var todo := r.Keys;
      while todo != {}
        invariant Sound(r, r0) && todo <= r.Keys
        invariant !changed ==> r == start && Stable(r, r.Keys - todo)
        invariant changed ==> Relation(start) < Relation(r)
      {
        var i :| i in todo;
        var next, grew := AbsorbAll(r0, r, i);
        todo := todo - {i};
        r, changed := next, changed || grew;
      }
      assert Relation(r) <= all;
    }
    StableIsTransitive(r);
    forall i, j | i in r && Reaches(Relation(r0), i, j)
      ensures j in r[i]
    {
      ReachesInClosure(Relation(r0), Relation(r), i, j);
    }
  }

  ghost predicate Stable(r: ReachMap, done: set<nat>) {
    Closed(r) && forall i, j :: i in done && i in r && j in r[i] ==> r[j] <= r[i]
  }

  lemma StableIsTransitive(r: ReachMap)
    requires Stable(r, r.Keys)
    ensures Transitive(Relation(r))
  {
  }

  method SplitMetricCycles(steps: seq<Step>) returns (out: seq<Step>)
    ensures out == SplitPlan(steps)
  {
    var creator, metrics := CollectMetrics(steps);
    var direct := DirectReaches(steps, creator, metrics);
    var reaches := Saturate(direct);
    forall i: nat | i < |steps|
      ensures OnCycle(steps, i) <==> i in metrics && i in reaches[i]
    {
      if OnCycle(steps, i) { OnCycleSplittable(steps, i); }
    }
    out := EmitSplit(steps, metrics, reaches);
  }

  /** The steps emitted for one: placeholder and update for a metric on a cycle, any other as it is. */
  method EmitStep(steps: seq<Step>, i: nat, cyclic: bool) returns (parts: seq<Step>)
    requires i < |steps| && cyclic == OnCycle(steps, i)
    ensures parts == Parts(steps, i)
  {
    PartsAre(steps, i);
    if !cyclic {
      return [steps[i]];
    }
    return [PlaceholderOf(steps[i]), FillOf(steps[i])];
  }

  /** The last pass over the steps. */
  method EmitSplit(steps: seq<Step>, metrics: set<nat>, reaches: ReachMap) returns (out: seq<Step>)
    requires metrics == reaches.Keys
    requires forall i: nat :: i < |steps| ==> (OnCycle(steps, i) <==> i in metrics && i in reaches[i])
    ensures out == SplitPlan(steps)
  {
    out := [];
    for i := 0 to |steps|
      invariant out == SplitUpTo(steps, i)
    {
      var parts := EmitStep(steps, i, i in metrics && i in reaches[i]);
      SplitNext(steps, i + 1, out, out + parts);
      out := out + parts;
    }
    SplitUpToTags(steps);
  }

  // ---- ordering ----

  /** creator and movable: the first movable step to create each name. */
  method CollectCreators(steps: seq<Step>) returns (creator: map<string, nat>)
    ensures forall k :: k in creator ==> IsCreator(steps, k, creator[k])
    ensures forall i, k :: 0 <= i < |steps| && Creates(steps[i], k) ==> k in creator
  {
    creator := map[];
    for i := 0 to |steps|
      invariant forall k :: k in creator ==> creator[k] < i && IsCreator(steps, k, creator[k])
      invariant forall h, k :: 0 <= h < i && Creates(steps[h], k) ==> k in creator
    {
      var s := steps[i];
      if Movable(s) && Creating(s) {
        var name := Key(s.name);
        if name != "" && name !in creator {
          creator := creator[name := i];
        }
      }
    }
  }

  lemma CreatorUnique(steps: seq<Step>, k: string, i: nat, j: nat)
    requires IsCreator(steps, k, i) && IsCreator(steps, k, j)
    ensures i == j
  {
  }

  /** The creators of what one movable step names. */
  method NamedCreators(steps: seq<Step>, creator: map<string, nat>, i: nat) returns (named: set<nat>)
    requires i < |steps|
    requires forall k :: k in creator ==> IsCreator(steps, k, creator[k])
    requires forall h, k :: 0 <= h < |steps| && Creates(steps[h], k) ==> k in creator
    ensures forall j :: j in named <==> NeedsCreatedBy(steps, i, j)
  {
    var needs := Needs(steps[i]);
    named := {};
    for n := 0 to |needs|
      invariant forall j :: j in named ==> NeedsCreatedBy(steps, i, j)
      invariant forall m, j :: 0 <= m < n && IsCreator(steps, Key(needs[m]), j) && j != i ==> j in named
    {
      var k := Key(needs[n]);
      if k in creator && creator[k] != i {
        assert needs[n] in Needs(steps[i]);
        named := named + {creator[k]};
      }
      forall j | IsCreator(steps, k, j) && j != i
        ensures j in named
      {
        CreatorUnique(steps, k, j, creator[k]);
      }
    }
  }

  /** The last fixed step before i is f, or there is none and f is -1. */
  ghost predicate LastFixedIs(steps: seq<Step>, i: nat, f: int) {
    && i <= |steps| && -1 <= f < i
    && (f >= 0 ==> !Movable(steps[f]))
    && (forall k :: f < k < i ==> Movable(steps[k]))
  }

  lemma LastFixedNext(steps: seq<Step>, i: nat, f: int)
    requires i < |steps| && LastFixedIs(steps, i, f)
    ensures LastFixedIs(steps, i + 1, if Movable(steps[i]) then f else i)
    ensures forall j: nat :: IsLastFixed(steps, i, j) <==> j == f
  {
    forall j: nat
      ensures IsLastFixed(steps, i, j) <==> j == f
    {
      if j < f { assert !Movable(steps[f]); }
      if f < j < i { assert Movable(steps[j]); }
    }
  }

  method BuildDeps(steps: seq<Step>) returns (deps: DepSets)
    ensures deps == Deps(steps)
  {
    var creator := CollectCreators(steps);
    deps := [];
    var lastFixed := -1;
    for i := 0 to |steps|
      invariant |deps| == i && forall h :: 0 <= h < i ==> deps[h] == DepsOfStep(steps, h)
      invariant -1 <= lastFixed < i
      invariant LastFixedIs(steps, i, lastFixed)
    {
      LastFixedNext(steps, i, lastFixed);
      if !Movable(steps[i]) {
        var all: set<nat> := {};
        for j := 0 to i
          invariant forall h: nat :: h in all <==> h < j
        {
          all := all + {j};
        }
        assert all == DepsOfStep(steps, i);
        deps := deps + [all];
        lastFixed := i;
      } else {
        var named := NamedCreators(steps, creator, i);
        var d: set<nat> := if lastFixed >= 0 then named + {lastFixed as nat} else named;
        assert d == DepsOfStep(steps, i);
        deps := deps + [d];
      }
    }
  }

  ghost predicate MarksDone(done: seq<bool>, order: seq<nat>) {
    forall i: nat :: i < |done| ==> (done[i] <==> i in Members(order))
  }

  /** One scan for ready steps, earliest first. */
  method ReadySteps(deps: DepSets, done: array<bool>, ghost order: seq<nat>) returns (ready: seq<nat>)
    requires done.Length == |deps| && InRange(deps) && MarksDone(done[..], order)
    ensures ready == [] <==> EarliestReady(deps, Members(order), 0).None?
    ensures ready != [] ==> EarliestReady(deps, Members(order), 0) == Some(ready[0])
  {
    ready := [];
    for i := 0 to |deps|
      invariant ready == [] ==> forall h :: 0 <= h < i ==> !Ready(deps, Members(order), h)
      invariant ready != [] ==> ready[0] < i && Ready(deps, Members(order), ready[0])
      invariant ready != [] ==> forall h :: 0 <= h < ready[0] ==> !Ready(deps, Members(order), h)
    {
      if !done[i] {
        var ok := true;
        var todo := deps[i];
        while todo != {}
          invariant todo <= deps[i]
          invariant ok ==> deps[i] - todo <= Members(order)
          invariant !ok ==> exists d :: d in deps[i] && d !in Members(order)
        {
          var d :| d in todo;
          todo := todo - {d};
          if !done[d] {
            ok := false;
            break;
          }
        }
        assert ok <==> Ready(deps, Members(order), i);
        if ok {
          ready := ready + [i];
        }
      }
    }
  }

  /** Kahn's loop: the steps in the sort's order, or as they were when nothing is ready. */
  method StableOrder(split: seq<Step>, deps: DepSets) returns (out: seq<Step>)
    requires |deps| == |split| && InRange(deps)
    ensures Sort(deps).None? ==> out == split
    ensures Sort(deps).Some? ==> Topological(deps, Sort(deps).value) && out == Permute(split, Sort(deps).value)
  {
    var done := new bool[|split|](_ => false);
    out := [];
    ghost var order: seq<nat> := [];
    while |out| < |split|
      invariant |out| == |order| <= |split| && Partial(deps, order)
      invariant MarksDone(done[..], order)
      invariant out == Permute(split, order)
      invariant Sort(deps) == SortFrom(deps, order)
    {
      var ready := ReadySteps(deps, done, order);
      if ready == [] {
        return split;
      }
      var next := ready[0];
      Extend(deps, order, next);
      assert Members(order + [next]) == Members(order) + {next};
      done[next] := true;
      out := out + [split[next]];
      order := order + [next];
    }
  }

  method OrderByDependencies(steps: seq<Step>) returns (out: seq<Step>)
    ensures out == Ordered(steps)
    ensures WellShaped(steps) ==> forall a, b, x :: ListsCreated(out, a, b, x) ==> b < a
    ensures (exists i :: 0 <= i < |steps| && steps[i].positional) ==> out == steps
  {
    forall a, b, x | WellShaped(steps) && ListsCreated(Ordered(steps), a, b, x)
      ensures b < a
    {
      WellShapedNamesFirst(steps, a, b, x);
    }
    for i := 0 to |steps|
      invariant forall h :: 0 <= h < i ==> !steps[h].positional
    {
      if steps[i].positional {
        return steps;
      }
    }
    var split := SplitMetricCycles(steps);
    var deps := BuildDeps(split);
    out := StableOrder(split, deps);
    assert Permute(split, Upto(|split|)) == split;
  }

  // ---- the linter's view of the result ----

  method FilledLater(steps: seq<Step>) returns (filled: map<nat, bool>)
    ensures forall i: nat :: i in filled <==> FilledAt(steps, i)
    ensures forall i: nat :: i in filled <==> exists j :: UpdatedLater(steps, i, j)
    ensures forall i :: i in filled ==> filled[i]
  {
    forall i: nat
      ensures FilledAt(steps, i) <==> exists j :: UpdatedLater(steps, i, j)
    {
      FilledAtIs(steps, i);
    }
    filled := map[];
    for i := 0 to |steps|
      invariant forall h: nat :: h in filled <==> h < i && FilledAt(steps, h)
      invariant forall h :: h in filled ==> filled[h]
    {
      if CreatesNamedMetric(steps[i]) {
        for j := i + 1 to |steps|
          invariant forall h: nat :: h in filled && h != i <==> h < i && FilledAt(steps, h)
          invariant i in filled <==> exists m :: i < m < j && Fills(steps[m], steps[i].name)
          invariant forall h :: h in filled ==> filled[h]
        {
          if Fills(steps[j], steps[i].name) {
            filled := filled[i := true];
          }
        }
      }
    }
  }
}

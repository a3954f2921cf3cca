/** What ordering a plan guarantees, for every plan. */
module PlanTheorems {
  import opened Basics
  import opened Formulas
  import opened Graphs
  import opened Plans
  import opened StableSort
  import opened Text

  // ---- vocabulary ----

  /** The step creates something called k (whether or not the compiler may move it). */
  predicate CreatesName(s: Step, k: string) {
    (s.tool.CreateMetric? || s.tool.CreateGrid?) && s.decodes && k != "" && Key(s.name) == k
  }

  ghost predicate DistinctNames(steps: seq<Step>) {
    forall i, j, k :: 0 <= i < j < |steps| && CreatesName(steps[i], k) ==> !CreatesName(steps[j], k)
  }

  /** The step names x: in its formula, its metric lists, or as its metric or grid. */
  predicate Mentions(s: Step, x: string) {
    x in TextRefs(s.formula) || x in s.metrics || x in s.metricIds || x == s.metricId || x == s.gridId
  }

  lemma NeedsAreMentions(s: Step, x: string)
    ensures x in Needs(s) <==> Mentions(s, x)
  {
    var listed := TextRefs(s.formula) + s.metrics + s.metricIds;
    assert x in listed <==> x in TextRefs(s.formula) || x in s.metrics || x in s.metricIds;
    assert x in [s.metricId, s.gridId] <==> x == s.metricId || x == s.gridId;
    assert Needs(s) == listed + [s.metricId, s.gridId];
  }

  /** Something step a of the plan names is created by step b, another step. */
  ghost predicate Uses(steps: seq<Step>, a: nat, b: nat)
    requires a < |steps| && b < |steps|
  {
    b != a && exists x :: Mentions(steps[a], x) && CreatesName(steps[b], Key(x))
  }

  /** Every step comes after whatever creates the things it names. */
  ghost predicate CreatorsFirst(steps: seq<Step>) {
    forall a, b :: 0 <= a < |steps| && 0 <= b < |steps| && Uses(steps, a, b) ==> b < a
  }

  /** A step the compiler may move: its parameters can be read, and its tool is one of the five. */
  predicate MayMove(s: Step) {
    && s.decodes && s.typed
    && (s.tool.CreateMetric? || s.tool.CreateGrid? || s.tool.UpdateMetric? || s.tool.AddGridMetric? || s.tool.ReorderGridMetrics?)
  }

  /** Every step has parameters the compiler can read and a tool it may move. */
  ghost predicate AllMovable(steps: seq<Step>) {
    forall i :: 0 <= i < |steps| ==> steps[i].decodes && steps[i].typed && !steps[i].tool.OtherTool?
  }

  ghost predicate IsName(steps: seq<Step>, k: string) {
    exists j :: 0 <= j < |steps| && CreatesName(steps[j], k)
  }

  ghost predicate IsGridName(steps: seq<Step>, k: string) {
    exists j :: 0 <= j < |steps| && steps[j].tool.CreateGrid? && CreatesName(steps[j], k)
  }

  /** The step depends only through its formula, which names no grid of the plan. */
  ghost predicate FormulaOnly(steps: seq<Step>, s: Step) {
    && (forall x :: x in s.metrics || x in s.metricIds || x == s.metricId || x == s.gridId ==> !IsName(steps, Key(x)))
    && (forall x :: x in TextRefs(s.formula) ==> !IsGridName(steps, Key(x)))
  }

  /** The step names no grid of the plan but itself. */
  ghost predicate NoOtherGrid(steps: seq<Step>, s: Step) {
    forall x :: Mentions(s, x) && IsGridName(steps, Key(x)) ==> Key(x) == Key(s.name)
  }

  // ---- names stay distinct ----

  lemma TagsCreateDistinct(steps: seq<Step>, s: Tag, t: Tag, k: string)
    requires DistinctNames(steps) && Valid(steps, s) && Valid(steps, t)
    requires CreatesName(Render(steps, s), k) && CreatesName(Render(steps, t), k)
    ensures s == t
  {
    assert CreatesName(steps[s.origin], k) && CreatesName(steps[t.origin], k);
  }

  lemma OrderedDistinctNames(steps: seq<Step>)
    requires DistinctNames(steps) && !Positional(steps)
    ensures DistinctNames(Ordered(steps)) && DistinctNames(SplitPlan(steps))
  {
    OrderedByTags(steps);
    TagsValid(steps, |steps|);
    var out, ts := Ordered(steps), OrderedTags(steps);
    forall i, j, k | 0 <= i < j < |out| && CreatesName(out[i], k)
      ensures !CreatesName(out[j], k)
    {
      if CreatesName(out[j], k) {
        TagsCreateDistinct(steps, ts[i], ts[j], k);
      }
    }
    var split, us := SplitPlan(steps), SplitTags(steps);
    forall i, j, k | 0 <= i < j < |split| && CreatesName(split[i], k)
      ensures !CreatesName(split[j], k)
    {
      if CreatesName(split[j], k) {
        TagsCreateDistinct(steps, us[i], us[j], k);
      }
    }
  }

  // ---- splitting removes every cycle of formulas ----

  /** Tag t's formula names the metric tag u defines. */
  ghost predicate TagNames(steps: seq<Step>, t: Tag, u: Tag) {
    && Valid(steps, t) && Valid(steps, u) && t != u
    && Splittable(Render(steps, t)) && Splittable(Render(steps, u))
    && exists r :: r in TextRefs(Render(steps, t).formula) && Key(r) == Key(Render(steps, u).name)
  }

  lemma TagNamesWhole(steps: seq<Step>, t: Tag, u: Tag)
    requires TagNames(steps, t, u)
    ensures t.part.Whole?
  {
  }

  lemma TagNamesIsEdge(steps: seq<Step>, t: Tag, u: Tag)
    requires DistinctNames(steps) && TagNames(steps, t, u) && t.part.Whole? && u.part.Whole?
    ensures (t.origin, u.origin) in FormulaGraph(steps)
  {
    var r :| r in TextRefs(Render(steps, t).formula) && Key(r) == Key(Render(steps, u).name);
    var s := steps[u.origin];
    assert CreatesName(s, Key(s.name));
    assert IsDefiner(steps, Key(r), u.origin) by {
      forall i | 0 <= i < u.origin
        ensures !Defines(steps[i], Key(r))
      {
        assert CreatesName(steps[i], Key(r)) ==> !CreatesName(s, Key(r));
      }
    }
    assert Names(steps, t.origin, u.origin);
  }

  ghost predicate TagPath(steps: seq<Step>, p: seq<Tag>) {
    |p| >= 2 && forall k :: 0 <= k < |p| - 1 ==> TagNames(steps, p[k], p[k + 1])
  }

  function Origins(p: seq<Tag>): (q: seq<nat>)
    ensures |q| == |p| && forall k :: 0 <= k < |p| ==> q[k] == p[k].origin
  {
    seq(|p|, k requires 0 <= k < |p| => p[k].origin)
  }

  lemma ClosedTagPathIsCycle(steps: seq<Step>, p: seq<Tag>)
    requires DistinctNames(steps) && TagPath(steps, p) && p[0] == p[|p| - 1]
    ensures p[0].part.Whole? && OnCycle(steps, p[0].origin)
  {
    forall k | 0 <= k < |p|
      ensures p[k].part.Whole?
    {
      var m := if k < |p| - 1 then k else 0;
      TagNamesWhole(steps, p[m], p[m + 1]);
    }
    var q := Origins(p);
    forall k | 0 <= k < |p| - 1
      ensures Along(FormulaGraph(steps), q, k)
    {
      TagNamesIsEdge(steps, p[k], p[k + 1]);
    }
    assert IsPath(FormulaGraph(steps), q) && q[0] == p[0].origin && q[|q| - 1] == p[0].origin;
  }

  /** No cycle of formulas is left once the steps on cycles are split. */
  lemma NoTagCycle(steps: seq<Step>, p: seq<Tag>)
    requires DistinctNames(steps) && TagPath(steps, p)
    ensures p[0] != p[|p| - 1]
  {
    assert TagNames(steps, p[0], p[1]);
    if p[0] == p[|p| - 1] {
      ClosedTagPathIsCycle(steps, p);
    }
  }

  // ---- the sort never gets stuck on metrics and grids ----

  /** A plan of movable steps with distinct names, whose metrics depend on each other only through
      formulas and whose grids name only metrics. */
  ghost predicate WellShaped(steps: seq<Step>) {
    && AllMovable(steps) && DistinctNames(steps) && !Positional(steps)
    && (forall i :: 0 <= i < |steps| && steps[i].tool.CreateMetric? ==> FormulaOnly(steps, steps[i]))
    && (forall i :: 0 <= i < |steps| && steps[i].tool.CreateGrid? ==> NoOtherGrid(steps, steps[i]))
  }

  lemma SplitAllMovable(steps: seq<Step>)
    requires AllMovable(steps)
    ensures AllMovable(SplitPlan(steps))
  {
    TagsValid(steps, |steps|);
  }

  /** In a plan of movable steps an edge is a name and its creator. */
  lemma EdgeIsAName(steps: seq<Step>, i: nat, j: nat) returns (x: string)
    requires AllMovable(steps)
    requires i < |SplitPlan(steps)| && j in DepsOfStep(SplitPlan(steps), i)
    ensures j < |SplitPlan(steps)| && j != i && Mentions(SplitPlan(steps)[i], x)
    ensures CreatesName(SplitPlan(steps)[j], Key(x))
  {
    SplitAllMovable(steps);
    assert NeedsCreatedBy(SplitPlan(steps), i, j);
    x :| x in Needs(SplitPlan(steps)[i]) && IsCreator(SplitPlan(steps), Key(x), j);
    NeedsAreMentions(SplitPlan(steps)[i], x);
  }

  /** From a step that creates a metric, an edge is its formula naming a metric. */
  lemma MetricEdge(steps: seq<Step>, t: Tag, u: Tag, x: string)
    requires WellShaped(steps) && Valid(steps, t) && Valid(steps, u) && t != u
    requires Render(steps, t).tool.CreateMetric? && Key(Render(steps, t).name) != ""
    requires Mentions(Render(steps, t), x) && CreatesName(Render(steps, u), Key(x))
    ensures Render(steps, u).tool.CreateMetric? && Splittable(Render(steps, t))
    ensures x in TextRefs(Render(steps, t).formula)
  {
    var s := steps[t.origin];
    assert FormulaOnly(steps, s);
    assert CreatesName(steps[u.origin], Key(x));
    assert IsName(steps, Key(x));
    assert Movable(s);
  }

  /** From a step that creates a grid, an edge leads to a metric. */
  lemma GridEdge(steps: seq<Step>, t: Tag, u: Tag, x: string)
    requires WellShaped(steps) && Valid(steps, t) && Valid(steps, u) && t != u
    requires Render(steps, t).tool.CreateGrid?
    requires Mentions(Render(steps, t), x) && CreatesName(Render(steps, u), Key(x))
    ensures Render(steps, u).tool.CreateMetric?
  {
    assert t.part.Whole? by {
      if OnCycle(steps, t.origin) { OnCycleSplittable(steps, t.origin); }
    }
    if Render(steps, u).tool.CreateGrid? {
      assert steps[u.origin].tool.CreateGrid? && CreatesName(steps[u.origin], Key(x));
      assert IsGridName(steps, Key(x));
      assert NoOtherGrid(steps, steps[t.origin]);
      assert Movable(steps[t.origin]);
      TagsCreateDistinct(steps, t, u, Key(x));
    }
  }

  /** Both ends of two edges in a row create metrics. */
  lemma MiddleIsMetric(steps: seq<Step>, h: nat, i: nat, j: nat)
    requires WellShaped(steps)
    requires h < |SplitPlan(steps)| && i in DepsOfStep(SplitPlan(steps), h) && j in DepsOfStep(SplitPlan(steps), i)
    ensures i < |SplitPlan(steps)| && j < |SplitPlan(steps)| && SplitPlan(steps)[j].tool.CreateMetric?
    ensures SplitPlan(steps)[i].tool.CreateMetric? ==> TagNamesBut(steps, SplitTags(steps)[i], SplitTags(steps)[j])
  {
    TagsValid(steps, |steps|);
    var ts := SplitTags(steps);
    var w := EdgeIsAName(steps, h, i);
    var x := EdgeIsAName(steps, i, j);
    if SplitPlan(steps)[i].tool.CreateMetric? {
      MetricEdge(steps, ts[i], ts[j], x);
    } else {
      GridEdge(steps, ts[i], ts[j], x);
    }
  }

  /** As TagNames, before it is known that the named metric has a formula. */
  ghost predicate TagNamesBut(steps: seq<Step>, t: Tag, u: Tag) {
    && Valid(steps, t) && Valid(steps, u) && t != u && Splittable(Render(steps, t))
    && exists r :: r in TextRefs(Render(steps, t).formula) && Key(r) == Key(Render(steps, u).name)
  }

  ghost predicate IsEdge(steps: seq<Step>, i: nat, j: nat) {
    i < |SplitPlan(steps)| && j in DepsOfStep(SplitPlan(steps), i)
  }

  /** A closed path of dependencies in the split plan. */
  ghost predicate DepCycle(steps: seq<Step>, p: seq<nat>) {
    |p| >= 2 && p[0] == p[|p| - 1] && forall k :: 0 <= k < |p| - 1 ==> IsEdge(steps, p[k], p[k + 1])
  }

  function Back(p: seq<nat>, k: nat): (b: nat)
    requires |p| >= 2 && k < |p| && p[0] == p[|p| - 1]
    ensures b < |p| - 1 && p[b + 1] == p[k]
  {
    if k > 0 then k - 1 else |p| - 2
  }

  lemma CycleEdge(steps: seq<Step>, p: seq<nat>, k: nat)
    requires WellShaped(steps) && DepCycle(steps, p) && k < |p| - 1
    ensures p[k] < |SplitPlan(steps)| && p[k + 1] < |SplitPlan(steps)|
    ensures SplitPlan(steps)[p[k + 1]].tool.CreateMetric?
    ensures SplitPlan(steps)[p[k]].tool.CreateMetric? ==>
      TagNamesBut(steps, SplitTags(steps)[p[k]], SplitTags(steps)[p[k + 1]])
  {
    var a := Back(p, k);
    assert IsEdge(steps, p[a], p[a + 1]) && IsEdge(steps, p[k], p[k + 1]);
    MiddleIsMetric(steps, p[a], p[k], p[k + 1]);
  }

  lemma CycleNamesBut(steps: seq<Step>, p: seq<nat>, k: nat)
    requires WellShaped(steps) && DepCycle(steps, p) && k < |p| - 1
    ensures p[k] < |SplitPlan(steps)| && p[k + 1] < |SplitPlan(steps)|
    ensures TagNamesBut(steps, SplitTags(steps)[p[k]], SplitTags(steps)[p[k + 1]])
  {
    CycleEdge(steps, p, Back(p, k));
    CycleEdge(steps, p, k);
  }

  lemma NamesInARow(steps: seq<Step>, t: Tag, u: Tag, v: Tag)
    requires TagNamesBut(steps, t, u) && TagNamesBut(steps, u, v)
    ensures TagNames(steps, t, u)
  {
  }

  /** The step after k on the cycle. */
  function Ahead(p: seq<nat>, k: nat): (a: nat)
    requires |p| >= 2 && k < |p| - 1 && p[0] == p[|p| - 1]
    ensures a < |p| - 1 && p[a] == p[k + 1]
  {
    if k + 1 < |p| - 1 then k + 1 else 0
  }

  lemma CycleNames(steps: seq<Step>, p: seq<nat>, k: nat, ts: seq<Tag>)
    requires WellShaped(steps) && DepCycle(steps, p) && k < |p| - 1 && ts == SplitTags(steps)
    ensures p[k] < |ts| && p[k + 1] < |ts| && TagNames(steps, ts[p[k]], ts[p[k + 1]])
  {
    var a := Ahead(p, k);
    CycleNamesBut(steps, p, k);
    CycleNamesBut(steps, p, a);
    NamesInARow(steps, ts[p[k]], ts[p[k + 1]], ts[p[a + 1]]);
  }

  /** A cycle of dependencies would be a cycle of formulas. */
  lemma CycleIsTagPath(steps: seq<Step>, p: seq<nat>)
    requires WellShaped(steps) && DepCycle(steps, p)
    ensures forall k :: 0 <= k < |p| ==> p[k] < |SplitTags(steps)|
    ensures TagPath(steps, Permute(SplitTags(steps), p))
  {
    forall k | 0 <= k < |p|
      ensures p[k] < |SplitTags(steps)|
    {
      CycleNames(steps, p, Back(p, k), SplitTags(steps));
    }
    forall k | 0 <= k < |p| - 1
      ensures TagNames(steps, SplitTags(steps)[p[k]], SplitTags(steps)[p[k + 1]])
    {
      CycleNames(steps, p, k, SplitTags(steps));
    }
  }

  lemma SplitIsAcyclic(steps: seq<Step>)
    requires WellShaped(steps)
    ensures !Cyclic(EdgesOf(Deps(SplitPlan(steps))))
  {
    var g := EdgesOf(Deps(SplitPlan(steps)));
    if Cyclic(g) {
      var a :| Reaches(g, a, a);
      var p: seq<nat> :| IsPath(g, p) && p[0] == a && p[|p| - 1] == a;
      forall k | 0 <= k < |p| - 1
        ensures IsEdge(steps, p[k], p[k + 1])
      {
        assert Along(g, p, k);
      }
      CycleIsTagPath(steps, p);
      NoTagCycle(steps, Permute(SplitTags(steps), p));
    }
  }

  // ---- what a successful sort gives ----

  lemma DepComesBefore(deps: DepSets, o: seq<nat>, a: nat, b: nat)
    requires Topological(deps, o) && a < |o| && b < |o| && o[b] in deps[o[a]]
    ensures b < a
  {
    assert o[b] in Members(o[..a]);
    var c :| 0 <= c < a && o[c] == o[b];
  }

  lemma SortedCreatorsFirst(split: seq<Step>, a: nat, b: nat)
    requires DistinctNames(split) && Sort(Deps(split)).Some?
    requires a < |split| && b < |split|
    requires var out := Permute(split, FinalOrder(split)); Movable(out[a]) && Movable(out[b]) && Uses(out, a, b)
    ensures b < a
  {
    var o := FinalOrder(split);
    var i, j := o[a], o[b];
    SortSound(Deps(split));
    var x :| Mentions(split[i], x) && CreatesName(split[j], Key(x));
    NeedsAreMentions(split[i], x);
    assert Creates(split[j], Key(x));
    assert IsCreator(split, Key(x), j) by {
      forall h | 0 <= h < j
        ensures !Creates(split[h], Key(x))
      {
        assert !CreatesName(split[h], Key(x));
      }
    }
    assert NeedsCreatedBy(split, i, j);
    DepComesBefore(Deps(split), o, a, b);
  }

  /** However mutually recursive the formulas are, the sort of a well-shaped plan never gets stuck. */
  lemma WellShapedNeverStuck(steps: seq<Step>)
    requires WellShaped(steps)
    ensures Sort(Deps(SplitPlan(steps))).Some?
  {
    SplitIsAcyclic(steps);
    SortGivesUpIffCyclic(Deps(SplitPlan(steps)));
  }

  /** And in the returned plan every step comes after the creators of everything it names. */
  lemma WellShapedIsOrdered(steps: seq<Step>)
    requires WellShaped(steps)
    ensures CreatorsFirst(Ordered(steps))
  {
    var split := SplitPlan(steps);
    WellShapedNeverStuck(steps);
    OrderedDistinctNames(steps);
    SplitAllMovable(steps);
    var out := Ordered(steps);
    forall a, b | 0 <= a < |out| && 0 <= b < |out| && Uses(out, a, b)
      ensures b < a
    {
      SortedCreatorsFirst(split, a, b);
    }
  }

  /** Step a of the plan names what step b, another step, creates, told from their parameters. */
  ghost predicate ListsCreated(out: seq<Step>, a: nat, b: nat, x: string) {
    && a < |out| && b < |out| && a != b
    && (out[b].tool.CreateMetric? || out[b].tool.CreateGrid?) && Key(x) == Key(out[b].name) && Key(x) != ""
    && out[a].decodes && out[a].typed && !out[a].tool.OtherTool?
    && out[b].decodes && out[b].typed && !out[b].tool.OtherTool?
    && ((out[a].formula.Parsed? && RefersTo(out[a].formula.node, x)) ||
        x in out[a].metrics || x in out[a].metricIds || x == out[a].metricId || x == out[a].gridId)
  }

  /** Whatever a step names - in its formula, in its lists of metrics by name or id, or as its metric or
      grid - comes before it, in every plan with distinct names whose sort finishes. */
  lemma SortedNamesFirst(steps: seq<Step>, a: nat, b: nat, x: string)
    requires DistinctNames(steps) && !Positional(steps) && Sort(Deps(SplitPlan(steps))).Some?
    requires ListsCreated(Ordered(steps), a, b, x)
    ensures b < a
  {
    var out := Ordered(steps);
    if out[a].formula.Parsed? { RefsAreIdents(out[a].formula.node, x); }
    assert Mentions(out[a], x) && CreatesName(out[b], Key(x));
    OrderedDistinctNames(steps);
    SortedCreatorsFirst(SplitPlan(steps), a, b);
  }

  /** So in every well-shaped plan. */
  lemma WellShapedNamesFirst(steps: seq<Step>, a: nat, b: nat, x: string)
    requires WellShaped(steps) && ListsCreated(Ordered(steps), a, b, x)
    ensures b < a
  {
    WellShapedNeverStuck(steps);
    SortedNamesFirst(steps, a, b, x);
  }

  // ---- dependencies, told from the steps' parameters ----

  /** Step j is the first the compiler may move that creates k. */
  ghost predicate FirstCreates(steps: seq<Step>, k: string, j: nat) {
    && j < |steps| && k != "" && CreatesMovable(steps[j], k)
    && forall h :: 0 <= h < j ==> !CreatesMovable(steps[h], k)
  }

  predicate CreatesMovable(s: Step, k: string) {
    s.decodes && s.typed && (s.tool.CreateMetric? || s.tool.CreateGrid?) && Key(s.name) == k
  }

  ghost predicate NamesCreatorOf(steps: seq<Step>, i: nat, j: nat)
    requires i < |steps|
  {
    exists x :: FirstCreates(steps, Key(x), j) &&
      ((steps[i].formula.Parsed? && RefersTo(steps[i].formula.node, x)) ||
       x in steps[i].metrics || x in steps[i].metricIds || x == steps[i].metricId || x == steps[i].gridId)
  }

  /** A fixed step waits for all before it; a movable one for the nearest fixed step before it and for
      the first creators of what its parameters name. */
  lemma DepsAre(steps: seq<Step>, i: nat, j: nat)
    requires i < |steps|
    ensures j in Deps(steps)[i] <==>
      if !MayMove(steps[i]) then j < i
      else || (j < i && !MayMove(steps[j]) && forall k :: j < k < i ==> MayMove(steps[k]))
           || (j != i && NamesCreatorOf(steps, i, j))
  {
    assert forall s :: MayMove(s) == Movable(s);
    assert forall k, h: nat :: FirstCreates(steps, k, h) <==> IsCreator(steps, k, h);
    if j != i && NamesCreatorOf(steps, i, j) {
      var x :| FirstCreates(steps, Key(x), j) &&
        ((steps[i].formula.Parsed? && RefersTo(steps[i].formula.node, x)) ||
         x in steps[i].metrics || x in steps[i].metricIds || x == steps[i].metricId || x == steps[i].gridId);
      if steps[i].formula.Parsed? { RefsAreIdents(steps[i].formula.node, x); }
      NeedsAreMentions(steps[i], x);
      assert NeedsCreatedBy(steps, i, j);
    }
    if NeedsCreatedBy(steps, i, j) {
      var x :| x in Needs(steps[i]) && IsCreator(steps, Key(x), j);
      if steps[i].formula.Parsed? { RefsAreIdents(steps[i].formula.node, x); }
      NeedsAreMentions(steps[i], x);
      assert NamesCreatorOf(steps, i, j);
    }
  }

  /** The formula of one metric names another of the plan, told from their parameters: both create
      metrics with parsable formulas, and the named one is the first to define its name. */
  lemma FormulaGraphIs(steps: seq<Step>, i: nat, j: nat)
    ensures (i, j) in FormulaGraph(steps) <==>
      && i < |steps| && j < |steps| && i != j && HasFormula(steps[i]) && HasFormula(steps[j])
      && (exists x :: RefersTo(steps[i].formula.node, x) && Key(x) == Key(steps[j].name))
      && (forall h :: 0 <= h < j ==> !(HasFormula(steps[h]) && Key(steps[h].name) == Key(steps[j].name)))
  {
    if i < |steps| && HasFormula(steps[i]) {
      forall x
        ensures x in TextRefs(steps[i].formula) <==> RefersTo(steps[i].formula.node, x)
      {
        RefsAreIdents(steps[i].formula.node, x);
      }
    }
    if i < |steps| && j < |steps| {
      FormulaEdge(steps, i, j);
    }
  }

  predicate HasFormula(s: Step) {
    s.tool.CreateMetric? && s.decodes && Key(s.name) != "" && s.formula.Parsed?
  }

  lemma FormulaEdge(steps: seq<Step>, i: nat, j: nat)
    requires i < |steps| && j < |steps|
    ensures (i, j) in FormulaGraph(steps) <==>
      && i != j && HasFormula(steps[i]) && HasFormula(steps[j])
      && (exists x :: x in TextRefs(steps[i].formula) && Key(x) == Key(steps[j].name))
      && (forall h :: 0 <= h < j ==> !(HasFormula(steps[h]) && Key(steps[h].name) == Key(steps[j].name)))
  {
    assert (i, j) in FormulaGraph(steps) <==> Names(steps, i, j);
    assert forall s :: HasFormula(s) == Splittable(s);
    if Names(steps, i, j) {
      var r :| r in TextRefs(steps[i].formula) && IsDefiner(steps, Key(r), j);
      assert Key(r) == Key(steps[j].name);
    }
    if HasFormula(steps[j]) && forall h :: 0 <= h < j ==> !(HasFormula(steps[h]) && Key(steps[h].name) == Key(steps[j].name)) {
      assert IsDefiner(steps, Key(steps[j].name), j);
    }
  }

  // ---- fixed steps ----

  lemma LastFixedExists(steps: seq<Step>, i: nat, q: nat) returns (f: nat)
    requires q < i < |steps| && !Movable(steps[q])
    ensures q <= f && IsLastFixed(steps, i, f)
  {
    f := i - 1;
    while Movable(steps[f])
      invariant q <= f < i
      invariant forall k :: f < k < i ==> Movable(steps[k])
      decreases f
    {
      f := f - 1;
    }
  }

  lemma FollowsFixed(steps: seq<Step>, o: seq<nat>, at: nat, c: nat)
    requires Topological(Deps(steps), o) && at < |o| && c < |o|
    requires !Movable(steps[o[at]]) && o[at] < o[c]
    ensures at < c
  {
    var q, i := o[at], o[c];
    if !Movable(steps[i]) {
      DepComesBefore(Deps(steps), o, c, at);
    } else {
      var f := LastFixedExists(steps, i, q);
      MembersFull(|steps|, o);
      UptoMembers(|steps|);
      assert f in Members(o);
      var e :| 0 <= e < |o| && o[e] == f;
      DepComesBefore(Deps(steps), o, c, e);
      if f != q {
        DepComesBefore(Deps(steps), o, e, at);
      }
    }
  }

  /** In a sorted order no step that stood after a fixed step is placed before it. */
  lemma OnlyEarlierBefore(split: seq<Step>, o: seq<nat>, q: nat, at: nat)
    requires Topological(Deps(split), o) && q < |split| && !Movable(split[q]) && at < |o| && o[at] == q
    ensures forall j :: j in Members(o[..at]) ==> j < q
  {
    forall j | j in Members(o[..at])
      ensures j < q
    {
      var c :| 0 <= c < at && o[c] == j;
      if q < j { FollowsFixed(split, o, at, c); }
    }
  }

  lemma PlacedAtItself(split: seq<Step>, o: seq<nat>, q: nat, at: nat)
    requires Topological(Deps(split), o) && q < |split| && !Movable(split[q]) && at < |o| && o[at] == q
    ensures at == q
  {
    OnlyEarlierBefore(split, o, q, at);
    UptoMembers(q);
    assert DepsOfStep(split, q) <= Members(o[..at]);
    assert Members(o[..at]) == Members(Upto(q));
    DistinctCount(o[..at]);
  }

  /** A fixed step keeps its absolute place. */
  lemma FixedKeepsPlace(split: seq<Step>, q: nat)
    requires q < |split| && !MayMove(split[q])
    ensures FinalOrder(split)[q] == q
  {
    if Sort(Deps(split)).Some? {
      var o := FinalOrder(split);
      SortSound(Deps(split));
      MembersFull(|split|, o);
      UptoMembers(|split|);
      assert q in Members(o);
      var at :| 0 <= at < |o| && o[at] == q;
      PlacedAtItself(split, o, q, at);
    }
  }

  /** The returned plan is the split plan rearranged: nothing lost, repeated or rewritten, and every
      fixed step where it was. */
  lemma OrderedIsPermutation(steps: seq<Step>)
    requires !Positional(steps)
    ensures multiset(Ordered(steps)) == multiset(SplitPlan(steps))
    ensures forall q :: 0 <= q < |SplitPlan(steps)| && !MayMove(SplitPlan(steps)[q]) ==>
      Ordered(steps)[q] == SplitPlan(steps)[q]
  {
    var split := SplitPlan(steps);
    PermuteMultiset(split, FinalOrder(split));
    forall q | 0 <= q < |split| && !MayMove(split[q])
      ensures Ordered(steps)[q] == split[q]
    {
      FixedKeepsPlace(split, q);
    }
  }

  /** Dropping the place where the largest index sits leaves a permutation of the rest. */
  lemma DropLargest(n: nat, o: seq<nat>) returns (at: nat, rest: seq<nat>)
    requires |o| == n + 1 && Distinct(o) && forall k :: 0 <= k < |o| ==> o[k] <= n
    ensures at < |o| && o[at] == n && rest == o[..at] + o[at + 1..]
    ensures Distinct(rest) && forall k :: 0 <= k < |rest| ==> rest[k] < n
  {
    MembersFull(n + 1, o);
    UptoMembers(n + 1);
    assert n in Members(o);
    at :| 0 <= at < |o| && o[at] == n;
    rest := o[..at] + o[at + 1..];
  }

  lemma TakeOut<T>(p: seq<T>, at: nat)
    requires at < |p|
    ensures multiset(p) == multiset(p[..at] + p[at + 1..]) + multiset{p[at]}
  {
    assert p == p[..at] + ([p[at]] + p[at + 1..]);
  }

  lemma PermuteWithout<T>(s: seq<T>, o: seq<nat>, n: nat, at: nat, rest: seq<nat>)
    requires n < |s| && at < |o| && rest == o[..at] + o[at + 1..]
    requires (forall k :: 0 <= k < |o| ==> o[k] < |s|) && (forall k :: 0 <= k < |rest| ==> rest[k] < n)
    ensures Permute(s[..n], rest) == Permute(s, o)[..at] + Permute(s, o)[at + 1..]
  {
  }

  lemma {:induction false} PermuteMultiset<T>(s: seq<T>, o: seq<nat>)
    requires |o| == |s| && Distinct(o) && forall k :: 0 <= k < |o| ==> o[k] < |s|
    ensures multiset(Permute(s, o)) == multiset(s)
  {
    if s == [] {
      assert Permute(s, o) == [];
    } else {
      var n := |s| - 1;
      var at, rest := DropLargest(n, o);
      PermuteMultiset(s[..n], rest);
      PermuteWithout(s, o, n, at, rest);
      TakeOut(Permute(s, o), at);
      assert s == s[..n] + [s[n]];
    }
  }

  // ---- plans already in order, and ordering twice ----

  lemma NoCycleNoSplit(steps: seq<Step>, n: nat)
    requires n <= |steps| && forall i :: 0 <= i < n ==> !OnCycle(steps, i)
    ensures |Tags(steps, n)| == n && forall q :: 0 <= q < n ==> Tags(steps, n)[q] == Tag(q, Whole)
  {
    if n > 0 { NoCycleNoSplit(steps, n - 1); }
  }

  lemma NoCycleSplitIsSame(steps: seq<Step>)
    requires forall i :: 0 <= i < |steps| ==> !OnCycle(steps, i)
    ensures SplitPlan(steps) == steps
  {
    NoCycleNoSplit(steps, |steps|);
  }

  /** Every movable step already follows the movable creators of what it names. */
  ghost predicate InOrder(steps: seq<Step>) {
    forall a, b :: 0 <= a < |steps| && 0 <= b < |steps| && Uses(steps, a, b) ==>
      Movable(steps[a]) && Movable(steps[b]) ==> b < a
  }

  lemma InOrderDepsGoBack(steps: seq<Step>)
    requires InOrder(steps)
    ensures forall i, d :: 0 <= i < |steps| && d in Deps(steps)[i] ==> d < i
  {
    forall i, d | 0 <= i < |steps| && d in Deps(steps)[i]
      ensures d < i
    {
      assert MustFollow(steps, i, d);
      if Movable(steps[i]) && !IsLastFixed(steps, i, d) {
        var x :| x in Needs(steps[i]) && IsCreator(steps, Key(x), d);
        NeedsAreMentions(steps[i], x);
        assert CreatesName(steps[d], Key(x));
        assert Uses(steps, i, d);
      }
    }
  }

  lemma InOrderIsKept(steps: seq<Step>)
    requires InOrder(steps)
    ensures Permute(steps, FinalOrder(steps)) == steps
  {
    InOrderDepsGoBack(steps);
    SortKeepsOrdered(Deps(steps));
  }

  lemma CreatorsFirstNoCycle(steps: seq<Step>, i: nat)
    requires CreatorsFirst(steps)
    ensures !OnCycle(steps, i)
  {
    var g := FormulaGraph(steps);
    if OnCycle(steps, i) {
      var p: seq<nat> :| IsPath(g, p) && p[0] == i && p[|p| - 1] == i;
      var k := 0;
      while k < |p| - 1
        invariant 0 <= k <= |p| - 1 && p[k] <= i && (k > 0 ==> p[k] < i)
      {
        assert Along(g, p, k);
        assert Names(steps, p[k], p[k + 1]);
        var r :| r in TextRefs(steps[p[k]].formula) && IsDefiner(steps, Key(r), p[k + 1]);
        assert Mentions(steps[p[k]], r) && CreatesName(steps[p[k + 1]], Key(r));
        assert Uses(steps, p[k], p[k + 1]);
        k := k + 1;
      }
    }
  }

  /** A plan already in dependency order is returned unchanged. */
  lemma OrderedPlanUnchanged(steps: seq<Step>)
    requires CreatorsFirst(steps)
    ensures Ordered(steps) == steps
  {
    forall i | 0 <= i < |steps|
      ensures !OnCycle(steps, i)
    {
      CreatorsFirstNoCycle(steps, i);
    }
    NoCycleSplitIsSame(steps);
    InOrderIsKept(steps);
  }

  ghost predicate Arrangement(steps: seq<Step>, ts: seq<Tag>) {
    Distinct(ts) && forall q :: 0 <= q < |ts| ==> ts[q].origin < |steps| && Valid(steps, ts[q])
  }

  ghost predicate Linked(steps: seq<Step>, ts: seq<Tag>, i: nat, j: nat) {
    i < |ts| && j < |ts| && TagNames(steps, ts[i], ts[j])
  }

  lemma ArrangedNames(steps: seq<Step>, ts: seq<Tag>, i: nat, j: nat)
    requires Arrangement(steps, ts) && (i, j) in FormulaGraph(RenderAll(steps, ts))
    ensures Linked(steps, ts, i, j)
  {
    var out := RenderAll(steps, ts);
    assert Names(out, i, j);
    var r :| r in TextRefs(out[i].formula) && IsDefiner(out, Key(r), j);
    assert ts[i] != ts[j];
  }

  lemma LinkedNoCycle(steps: seq<Step>, ts: seq<Tag>, p: seq<nat>)
    requires DistinctNames(steps) && |p| >= 2 && forall k :: 0 <= k < |p| - 1 ==> Linked(steps, ts, p[k], p[k + 1])
    ensures p[0] != p[|p| - 1]
  {
    forall k | 0 <= k < |p|
      ensures p[k] < |ts|
    {
      var m := if k < |p| - 1 then k else k - 1;
      assert Linked(steps, ts, p[m], p[m + 1]);
    }
    var q := Permute(ts, p);
    forall k | 0 <= k < |q| - 1
      ensures TagNames(steps, q[k], q[k + 1])
    {
      assert Linked(steps, ts, p[k], p[k + 1]);
    }
    NoTagCycle(steps, q);
  }

  /** In any arrangement of the split plan no formula names itself through others. */
  lemma ArrangedNoCycle(steps: seq<Step>, ts: seq<Tag>, i: nat)
    requires DistinctNames(steps) && Arrangement(steps, ts)
    ensures !OnCycle(RenderAll(steps, ts), i)
  {
    var g := FormulaGraph(RenderAll(steps, ts));
    if Reaches(g, i, i) {
      var p: seq<nat> :| IsPath(g, p) && p[0] == i && p[|p| - 1] == i;
      forall k | 0 <= k < |p| - 1
        ensures Linked(steps, ts, p[k], p[k + 1])
      {
        assert Along(g, p, k);
        ArrangedNames(steps, ts, p[k], p[k + 1]);
      }
      LinkedNoCycle(steps, ts, p);
    }
  }

  lemma OrderedSplitsNoFurther(steps: seq<Step>)
    requires DistinctNames(steps) && !Positional(steps)
    ensures SplitPlan(Ordered(steps)) == Ordered(steps) && SplitPlan(SplitPlan(steps)) == SplitPlan(steps)
  {
    OrderedByTags(steps);
    TagsValid(steps, |steps|);
    assert Ordered(steps) == RenderAll(steps, OrderedTags(steps));
    forall i | 0 <= i < |Ordered(steps)|
      ensures !OnCycle(Ordered(steps), i)
    {
      ArrangedNoCycle(steps, OrderedTags(steps), i);
    }
    NoCycleSplitIsSame(Ordered(steps));
    forall i | 0 <= i < |SplitPlan(steps)|
      ensures !OnCycle(SplitPlan(steps), i)
    {
      ArrangedNoCycle(steps, SplitTags(steps), i);
    }
    NoCycleSplitIsSame(SplitPlan(steps));
  }

  /** Ordering an ordered plan changes nothing. */
  lemma OrderedIsIdempotent(steps: seq<Step>)
    requires DistinctNames(steps)
    ensures Ordered(Ordered(steps)) == Ordered(steps)
  {
    if !Positional(steps) {
      var split, out := SplitPlan(steps), Ordered(steps);
      OrderedByTags(steps);
      assert !Positional(out);
      OrderedSplitsNoFurther(steps);
      OrderedDistinctNames(steps);
      if Sort(Deps(split)).Some? {
        forall a, b | 0 <= a < |out| && 0 <= b < |out| && Movable(out[a]) && Movable(out[b]) && Uses(out, a, b)
          ensures b < a
        {
          SortedCreatorsFirst(split, a, b);
        }
        InOrderIsKept(out);
      } else {
        assert out == split;
      }
    }
  }
}

/** The model a plan builds, and what the linter makes of the steps the compiler introduced. */
module PlanMeaning {
  import opened Basics
  import opened Formulas
  import opened Plans
  import opened PlanTheorems
  import opened StableSort
  import opened Text

  type Model = map<string, FormulaText>

  /** The metric whose formula the step writes, or "". */
  function Written(s: Step): string {
    if !s.decodes then ""
    else match s.tool
      case CreateMetric => Key(s.name)
      case UpdateMetric => if s.formula.Blank? then "" else Key(s.metricId)
      case _ => ""
  }

  function Apply(s: Step, m: Model): Model {
    if Written(s) == "" then m else m[Written(s) := s.formula]
  }

  /** The formula of every metric after the plan has run. */
  function Run(steps: seq<Step>, m: Model): Model {
    if steps == [] then m else Apply(steps[|steps| - 1], Run(steps[..|steps| - 1], m))
  }

  /** Steps that write the same metric write the same formula: in particular, when each metric is
      written by one step. */
  ghost predicate WritersAgree(steps: seq<Step>) {
    forall i, j :: 0 <= i < |steps| && 0 <= j < |steps| && Written(steps[i]) == Written(steps[j]) != "" ==>
      steps[i].formula == steps[j].formula
  }

  ghost predicate LastWriter(steps: seq<Step>, k: string, a: nat) {
    a < |steps| && Written(steps[a]) == k && forall b :: a < b < |steps| ==> Written(steps[b]) != k
  }

  lemma {:induction false} RunLast(steps: seq<Step>, m: Model, k: string, a: nat)
    requires k != "" && LastWriter(steps, k, a)
    ensures k in Run(steps, m) && Run(steps, m)[k] == steps[a].formula
  {
    if a < |steps| - 1 {
      assert LastWriter(steps[..|steps| - 1], k, a);
      RunLast(steps[..|steps| - 1], m, k, a);
    }
  }

  lemma {:induction false} RunUntouched(steps: seq<Step>, m: Model, k: string)
    requires forall a :: 0 <= a < |steps| ==> Written(steps[a]) == "" || Written(steps[a]) != k
    ensures k in Run(steps, m) <==> k in m
    ensures k in m ==> Run(steps, m)[k] == m[k]
  {
    if steps != [] {
      RunUntouched(steps[..|steps| - 1], m, k);
    }
  }

  lemma PlacedAt(steps: seq<Step>, i: nat) returns (a: nat)
    requires i < |steps|
    ensures a < |steps| && FinalOrder(steps)[a] == i
  {
    var o := FinalOrder(steps);
    MembersFull(|o|, o);
    UptoMembers(|o|);
    assert i in Members(o);
    a :| 0 <= a < |o| && o[a] == i;
  }

  lemma TagPlaced(steps: seq<Step>, q: nat) returns (a: nat)
    requires q < |SplitTags(steps)|
    ensures a < |OrderedTags(steps)| && OrderedTags(steps)[a] == SplitTags(steps)[q]
    ensures FinalOrder(SplitPlan(steps))[a] == q
  {
    a := PlacedAt(SplitPlan(steps), q);
  }

  lemma TagRendered(steps: seq<Step>, q: nat, t: Tag) returns (a: nat)
    requires !Positional(steps) && q < |SplitTags(steps)| && t == SplitTags(steps)[q]
    ensures t.origin < |steps| && a < |Ordered(steps)| && Ordered(steps)[a] == Render(steps, t)
    ensures FinalOrder(SplitPlan(steps))[a] == q
  {
    a := PlacedAt(SplitPlan(steps), q);
  }

  /** A step that is not split survives unchanged. */
  lemma StepSurvives(steps: seq<Step>, i: nat) returns (a: nat)
    requires !Positional(steps) && i < |steps| && !OnCycle(steps, i)
    ensures a < |Ordered(steps)| && Ordered(steps)[a] == steps[i]
  {
    var q := PlaceOf(steps, i);
    a := TagRendered(steps, q, Tag(i, Whole));
  }

  /** A step that is split survives but for its formula, and the formula in its update. */
  lemma SplitStepSurvives(steps: seq<Step>, i: nat) returns (a: nat, b: nat)
    requires !Positional(steps) && i < |steps| && OnCycle(steps, i)
    ensures a < |Ordered(steps)| && Ordered(steps)[a] == steps[i].(formula := Parsed(NumberLit(0.0)))
    ensures b < |Ordered(steps)| &&
      Ordered(steps)[b] == Step(UpdateMetric, true, true, false, "", steps[i].formula, steps[i].name, "", [], [], "")
  {
    var q := PlaceOf(steps, i);
    a := TagRendered(steps, q, Tag(i, Placeholder));
    b := TagRendered(steps, q + 1, Tag(i, Fill));
  }

  /** In the split plan a fill depends on the placeholder just before it. */
  lemma FillDependsOnPlaceholder(steps: seq<Step>, split: seq<Step>, i: nat, q: nat)
    requires i < |steps| && Splittable(steps[i]) && DistinctNames(split)
    requires q + 1 < |split| && split[q] == PlaceholderOf(steps[i]) && split[q + 1] == FillOf(steps[i])
    ensures q in DepsOfStep(split, q + 1)
  {
    if Movable(split[q]) {
      var k := Key(steps[i].name);
      assert split[q + 1].metricId in Needs(split[q + 1]);
      assert CreatesName(split[q], k);
      forall h | 0 <= h < q
        ensures !Creates(split[h], k)
      {
        assert !CreatesName(split[h], k);
      }
      assert IsCreator(split, k, q);
      assert NeedsCreatedBy(split, q + 1, q);
    } else {
      assert IsLastFixed(split, q + 1, q);
    }
  }

  /** A fill that stands right after its placeholder is placed after it. */
  lemma PlacedInOrder(steps: seq<Step>, split: seq<Step>, i: nat, q: nat) returns (a: nat, b: nat)
    requires i < |steps| && Splittable(steps[i]) && DistinctNames(split)
    requires q + 1 < |split| && split[q] == PlaceholderOf(steps[i]) && split[q + 1] == FillOf(steps[i])
    ensures a < b < |split| && FinalOrder(split)[a] == q && FinalOrder(split)[b] == q + 1
  {
    a := PlacedAt(split, q);
    b := PlacedAt(split, q + 1);
    if Sort(Deps(split)).Some? {
      SortSound(Deps(split));
      FillDependsOnPlaceholder(steps, split, i, q);
      DepComesBefore(Deps(split), FinalOrder(split), b, a);
    }
  }

  lemma SplitAt(steps: seq<Step>, q: nat, t: Tag)
    requires q < |SplitTags(steps)| && SplitTags(steps)[q] == t
    ensures t.origin < |steps| && q < |SplitPlan(steps)| && SplitPlan(steps)[q] == Render(steps, t)
  {
  }

  /** What the split plan holds for a step on a cycle. */
  lemma SplitHolds(steps: seq<Step>, i: nat, q: nat, split: seq<Step>)
    requires DistinctNames(steps) && !Positional(steps) && i < |steps| && OnCycle(steps, i) && split == SplitPlan(steps)
    requires q + 1 < |SplitTags(steps)| && SplitTags(steps)[q] == Tag(i, Placeholder) && SplitTags(steps)[q + 1] == Tag(i, Fill)
    ensures Splittable(steps[i]) && DistinctNames(split)
    ensures q + 1 < |split| && split[q] == PlaceholderOf(steps[i]) && split[q + 1] == FillOf(steps[i])
  {
    OnCycleSplittable(steps, i);
    OrderedDistinctNames(steps);
    SplitAt(steps, q, Tag(i, Placeholder));
    SplitAt(steps, q + 1, Tag(i, Fill));
  }

  /** The step that sets a split metric's formula follows the step that creates it, whether the
      sort succeeded or gave up. */
  lemma FillFollowsPlaceholder(steps: seq<Step>, i: nat) returns (a: nat, b: nat)
    requires DistinctNames(steps) && !Positional(steps) && i < |steps| && OnCycle(steps, i)
    ensures a < b < |OrderedTags(steps)|
    ensures OrderedTags(steps)[a] == Tag(i, Placeholder) && OrderedTags(steps)[b] == Tag(i, Fill)
  {
    var q := PlaceOf(steps, i);
    SplitHolds(steps, i, q, SplitPlan(steps));
    a, b := PlacedInOrder(steps, SplitPlan(steps), i, q);
  }

  lemma TagWrites(steps: seq<Step>, t: Tag)
    requires Valid(steps, t)
    ensures Written(Render(steps, t)) == Written(steps[t.origin])
  {
    if OnCycle(steps, t.origin) { OnCycleSplittable(steps, t.origin); }
  }

  lemma LastWriterExists(steps: seq<Step>, i: nat) returns (a: nat)
    requires i < |steps|
    ensures LastWriter(steps, Written(steps[i]), a)
  {
    a := |steps| - 1;
    while Written(steps[a]) != Written(steps[i])
      invariant i <= a < |steps|
      invariant forall b :: a < b < |steps| ==> Written(steps[b]) != Written(steps[i])
      decreases a
    {
      a := a - 1;
    }
  }

  /** The last write of a metric in the ordered plan is never a placeholder's. */
  lemma LastWriterIsReal(steps: seq<Step>, k: string, a: nat)
    requires DistinctNames(steps) && !Positional(steps) && k != "" && LastWriter(Ordered(steps), k, a)
    ensures a < |OrderedTags(steps)| && Valid(steps, OrderedTags(steps)[a])
    ensures !OrderedTags(steps)[a].part.Placeholder?
  {
    OrderedByTags(steps);
    var t := OrderedTags(steps)[a];
    if t.part.Placeholder? {
      var first, b := FillFollowsPlaceholder(steps, t.origin);
      assert first == a;
      TagWrites(steps, t);
      TagWrites(steps, Tag(t.origin, Fill));
    }
  }

  /** Running the ordered plan leaves every metric with the formula the original plan gives it. */
  lemma MeaningPreserved(steps: seq<Step>, m: Model)
    requires DistinctNames(steps) && WritersAgree(steps)
    ensures Run(Ordered(steps), m) == Run(steps, m)
  {
    if !Positional(steps) {
      forall k: string
        ensures k in Run(Ordered(steps), m) <==> k in Run(steps, m)
        ensures k in Run(steps, m) ==> Run(Ordered(steps), m)[k] == Run(steps, m)[k]
      {
        if i :| 0 <= i < |steps| && Written(steps[i]) == k && k != "" {
          WrittenMetricPreserved(steps, m, i);
        } else {
          OtherMetricPreserved(steps, m, k);
        }
      }
    }
  }

  lemma WrittenMetricPreserved(steps: seq<Step>, m: Model, i: nat)
    requires DistinctNames(steps) && WritersAgree(steps) && !Positional(steps)
    requires i < |steps| && Written(steps[i]) != ""
    ensures var k := Written(steps[i]);
      k in Run(Ordered(steps), m) && k in Run(steps, m) && Run(Ordered(steps), m)[k] == Run(steps, m)[k]
  {
    OrderedByTags(steps);
    var k := Written(steps[i]);
    var out, ts := Ordered(steps), OrderedTags(steps);
    var last := LastWriterExists(steps, i);
    RunLast(steps, m, k, last);
    var q := PlaceOf(steps, i);
    var at := TagPlaced(steps, q);
    TagWrites(steps, ts[at]);
    var a := LastWriterExists(out, at);
    RunLast(out, m, k, a);
    LastWriterIsReal(steps, k, a);
    TagWrites(steps, ts[a]);
  }

  lemma OtherMetricPreserved(steps: seq<Step>, m: Model, k: string)
    requires !Positional(steps)
    requires forall i :: 0 <= i < |steps| ==> Written(steps[i]) == "" || Written(steps[i]) != k
    ensures k in Run(Ordered(steps), m) <==> k in Run(steps, m)
    ensures k in Run(steps, m) ==> Run(Ordered(steps), m)[k] == Run(steps, m)[k]
  {
    OrderedByTags(steps);
    var out, ts := Ordered(steps), OrderedTags(steps);
    forall a | 0 <= a < |out|
      ensures Written(out[a]) == "" || Written(out[a]) != k
    {
      TagWrites(steps, ts[a]);
    }
    RunUntouched(out, m, k);
    RunUntouched(steps, m, k);
  }

  /** The step gives metric k a formula: it creates k, or updates k with a formula that is not blank. */
  predicate Gives(s: Step, k: string) {
    && s.decodes && k != ""
    && ((s.tool.CreateMetric? && Key(s.name) == k) || (s.tool.UpdateMetric? && !s.formula.Blank? && Key(s.metricId) == k))
  }

  /** Step a is the last to give metric k a formula. */
  ghost predicate LastGives(steps: seq<Step>, k: string, a: nat) {
    a < |steps| && Gives(steps[a], k) && forall b :: a < b < |steps| ==> !Gives(steps[b], k)
  }

  lemma GivesIsWritten(s: Step, k: string)
    ensures Gives(s, k) <==> Written(s) == k && k != ""
  {
  }

  lemma LastGivesIsLast(steps: seq<Step>, k: string, a: nat)
    requires LastGives(steps, k, a)
    ensures k != "" && LastWriter(steps, k, a)
  {
    forall b | a <= b < |steps|
      ensures Gives(steps[b], k) <==> Written(steps[b]) == k && k != ""
    {
      GivesIsWritten(steps[b], k);
    }
  }

  /** Said of the steps themselves: what the last step to give a metric its formula gives it is the same
      before and after ordering. */
  lemma LastFormulaKept(steps: seq<Step>, k: string, a: nat, b: nat)
    requires DistinctNames(steps)
    requires forall i, j, x :: 0 <= i < |steps| && 0 <= j < |steps| && Gives(steps[i], x) && Gives(steps[j], x) ==>
      steps[i].formula == steps[j].formula
    requires LastGives(steps, k, a) && LastGives(Ordered(steps), k, b)
    ensures Ordered(steps)[b].formula == steps[a].formula
  {
    LastGivesIsLast(steps, k, a);
    LastGivesIsLast(Ordered(steps), k, b);
    assert WritersAgree(steps) by {
      forall i, j | 0 <= i < |steps| && 0 <= j < |steps| && Written(steps[i]) == Written(steps[j]) != ""
        ensures steps[i].formula == steps[j].formula
      {
        GivesIsWritten(steps[i], Written(steps[i]));
        GivesIsWritten(steps[j], Written(steps[i]));
      }
    }
    RunLast(steps, map[], k, a);
    RunLast(Ordered(steps), map[], k, b);
    MeaningPreserved(steps, map[]);
  }

  // ---- the linter ----

  /** A later update of the metric gives it a formula that reads something. */
  predicate Fills(u: Step, name: string) {
    && u.tool.UpdateMetric? && u.decodes && Key(u.metricId) == Key(name)
    && u.formula.Parsed? && !LiteralOnly(u.formula.node)
  }

  predicate CreatesNamedMetric(s: Step) {
    s.tool.CreateMetric? && s.decodes && s.name != ""
  }

  ghost predicate FilledAt(steps: seq<Step>, i: nat) {
    && i < |steps| && CreatesNamedMetric(steps[i])
    && exists j :: i < j < |steps| && Fills(steps[j], steps[i].name)
  }

  /** Step j, after step i, updates the metric step i creates with a formula in which a name, a property
      or a call is written. */
  ghost predicate UpdatedLater(steps: seq<Step>, i: nat, j: nat) {
    && i < j < |steps|
    && steps[i].tool.CreateMetric? && steps[i].decodes && steps[i].name != ""
    && steps[j].tool.UpdateMetric? && steps[j].decodes && Key(steps[j].metricId) == Key(steps[i].name)
    && steps[j].formula.Parsed? && Reads(steps[j].formula.node)
  }

  /** A step is marked exactly when there is such an update; one with a constant formula marks
      nothing. */
  lemma FilledAtIs(steps: seq<Step>, i: nat)
    ensures FilledAt(steps, i) <==> exists j :: UpdatedLater(steps, i, j)
  {
    forall j | 0 <= j < |steps| && steps[j].formula.Parsed?
      ensures LiteralOnly(steps[j].formula.node) <==> !Reads(steps[j].formula.node)
    {
      LiteralOnlyIffReadsNothing(steps[j].formula.node);
    }
    if FilledAt(steps, i) {
      var j :| i < j < |steps| && Fills(steps[j], steps[i].name);
      assert UpdatedLater(steps, i, j);
    }
    if j: nat :| UpdatedLater(steps, i, j) {
      assert Fills(steps[j], steps[i].name);
    }
  }

  /** Every placeholder the compiler made is recognised by the linter. */
  lemma PlaceholdersAreFilledLater(steps: seq<Step>, a: nat)
    requires DistinctNames(steps) && !Positional(steps)
    requires a < |OrderedTags(steps)| && OrderedTags(steps)[a].part.Placeholder?
    ensures FilledAt(Ordered(steps), a)
  {
    OrderedByTags(steps);
    var i := OrderedTags(steps)[a].origin;
    assert Valid(steps, OrderedTags(steps)[a]);
    var a', b := FillFollowsPlaceholder(steps, i);
    assert a' == a;
    OnCycleSplittable(steps, i);
    if LiteralOnly(steps[i].formula.node) { LiteralOnlyNamesNothing(steps[i].formula.node); }
    assert Key("") == "";
    assert Fills(Ordered(steps)[b], Ordered(steps)[a].name);
  }

  /** The plan as written fills in no metric it creates. */
  ghost predicate FillsNoneItself(steps: seq<Step>) {
    forall i, j :: 0 <= i < |steps| && 0 <= j < |steps| && CreatesNamedMetric(steps[i]) ==>
      !Fills(steps[j], steps[i].name)
  }

  /** A create step that was not split is filled by nothing. */
  lemma WholeIsNotFilled(steps: seq<Step>, t: Tag, u: Tag)
    requires DistinctNames(steps) && FillsNoneItself(steps) && Valid(steps, t) && Valid(steps, u)
    requires t.part.Whole? && CreatesNamedMetric(steps[t.origin])
    ensures !Fills(Render(steps, u), steps[t.origin].name)
  {
    if u.part.Fill? {
      OnCycleSplittable(steps, u.origin);
      var k := Key(steps[u.origin].name);
      assert CreatesName(steps[u.origin], k);
      assert CreatesName(steps[t.origin], k) ==> t.origin == u.origin;
    }
  }

  /** And when the plan as written fills in no metric it creates, the linter recognises nothing
      else. */
  lemma FilledLaterIsExactlyPlaceholders(steps: seq<Step>, a: nat)
    requires DistinctNames(steps) && !Positional(steps) && FillsNoneItself(steps) && a < |Ordered(steps)|
    ensures a < |OrderedTags(steps)|
    ensures FilledAt(Ordered(steps), a) <==> OrderedTags(steps)[a].part.Placeholder?
  {
    OrderedByTags(steps);
    var out, ts := Ordered(steps), OrderedTags(steps);
    if ts[a].part.Placeholder? {
      PlaceholdersAreFilledLater(steps, a);
    } else if ts[a].part.Whole? && CreatesNamedMetric(out[a]) {
      forall j | a < j < |out|
        ensures !Fills(out[j], out[a].name)
      {
        WholeIsNotFilled(steps, ts[a], ts[j]);
      }
    }
  }

  // ---- when writers disagree meaning may change ----

  function Update(name: string, f: FormulaText): Step {
    Step(UpdateMetric, true, true, false, "", f, name, "", [], [], "")
  }

  function Input(name: string): Step {
    Step(CreateMetric, true, true, false, name, Blank, "", "", [], [], "")
  }

  /** Two updates of metric a around an input c, which the first of them names. */
  function Swapped(a: string, c: string): seq<Step> {
    [Update(a, Parsed(Ident(c))), Update(a, Parsed(NumberLit(1.0))), Input(c)]
  }

  lemma SwappedNoSplit(steps: seq<Step>)
    requires forall i :: 0 <= i < |steps| ==> !Splittable(steps[i])
    ensures SplitPlan(steps) == steps
  {
    forall i: nat | i < |steps|
      ensures !OnCycle(steps, i)
    {
      if OnCycle(steps, i) { OnCycleSplittable(steps, i); }
    }
    NoCycleSplitIsSame(steps);
  }

  lemma SwappedDeps(a: string, c: string, steps: seq<Step>)
    requires Key(a) != Key(c) && Key(c) != "" && steps == Swapped(a, c)
    ensures Deps(steps) == [{2}, {}, {}]
  {
    assert Key("") == "";
    assert forall k :: Creates(steps[2], k) <==> k == Key(c);
    assert c in Needs(steps[0]) && IsCreator(steps, Key(c), 2);
    assert NeedsCreatedBy(steps, 0, 2);
    assert Needs(steps[1]) == [a, ""];
    assert DepsOfStep(steps, 0) == {2};
    assert DepsOfStep(steps, 1) == {};
    assert DepsOfStep(steps, 2) == {};
  }

  lemma SwappedSort(deps: DepSets)
    requires deps == [{2}, {}, {}]
    ensures Sort(deps) == Some([1, 2, 0])
  {
    assert !Ready(deps, {}, 0) && Ready(deps, {}, 1) && !Ready(deps, {1}, 0) && !Ready(deps, {1}, 1);
    assert Ready(deps, {1}, 2) && Ready(deps, {1, 2}, 0);
    assert Members([]) == {} && Members([1]) == {1} && Members([1, 2]) == {1, 2};
    assert EarliestReady(deps, Members([]), 0) == Some(1);
    assert EarliestReady(deps, Members([1]), 0) == Some(2);
    assert EarliestReady(deps, Members([1, 2]), 0) == Some(0);
    assert [1, 2] + [0] == [1, 2, 0];
    assert SortFrom(deps, [1, 2, 0]) == Some([1, 2, 0]);
    assert [1] + [2] == [1, 2];
    assert SortFrom(deps, [1, 2]) == Some([1, 2, 0]);
    assert [] + [1] == [1];
    assert SortFrom(deps, [1]) == Some([1, 2, 0]);
  }

  lemma SwappedOrdered(steps: seq<Step>)
    requires |steps| == 3 && !Positional(steps) && SplitPlan(steps) == steps
    requires Sort(Deps(steps)) == Some([1, 2, 0])
    ensures Ordered(steps) == [steps[1], steps[2], steps[0]]
  {
  }

  lemma SwappedRuns(steps: seq<Step>, k: string)
    requires |steps| == 3 && k != "" && Written(steps[0]) == Written(steps[1]) == k != Written(steps[2])
    requires steps[0].formula != steps[1].formula
    ensures Run([steps[1], steps[2], steps[0]], map[]) != Run(steps, map[])
  {
    RunLast([steps[1], steps[2], steps[0]], map[], k, 2);
    RunLast(steps, map[], k, 1);
  }

  lemma SwappedResult(steps: seq<Step>, k: string)
    requires |steps| == 3 && !Positional(steps) && forall i :: 0 <= i < 3 ==> !Splittable(steps[i])
    requires Deps(steps) == [{2}, {}, {}]
    requires k != "" && Written(steps[0]) == Written(steps[1]) == k != Written(steps[2])
    requires steps[0].formula != steps[1].formula
    ensures Run(Ordered(steps), map[]) != Run(steps, map[])
  {
    SwappedNoSplit(steps);
    SwappedSort(Deps(steps));
    SwappedOrdered(steps);
    SwappedRuns(steps, k);
  }

  /** Distinct names alone do not preserve meaning: with two writers of one metric, the one that has
      to wait for a later step lands after the other. */
  lemma TwoWritersMaySwap(a: string, c: string)
    requires Key(a) != Key(c) && Key(a) != "" && Key(c) != ""
    ensures DistinctNames(Swapped(a, c))
    ensures Run(Ordered(Swapped(a, c)), map[]) != Run(Swapped(a, c), map[])
  {
    var steps := Swapped(a, c);
    SwappedDeps(a, c, steps);
    SwappedResult(steps, Key(a));
  }
}

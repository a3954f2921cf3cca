/** Plans of write steps, as the plan compiler sees them after decoding, and what splitting and
    ordering them means. The loops that compute these are in PlanCompiler. */
module Plans {
  import opened Basics
  import opened Formulas
  import opened Graphs
  import opened StableSort
  import opened Text

  datatype Tool =
    | CreateMetric
    | CreateGrid
    | UpdateMetric
    | AddGridMetric
    | ReorderGridMetrics
    | OtherTool(toolName: string)

  /** One step. `decodes`: its parameters are a JSON object; `typed`: that object also has the field
      types OrderByDependencies asks for; `positional`: its text contains "created in step"; `extra`:
      all the parameters the compiler never reads. */
  datatype Step = Step(
    tool: Tool,
    decodes: bool,
    typed: bool,
    positional: bool,
    name: string,
    formula: FormulaText,
    metricId: string,
    gridId: string,
    metrics: seq<string>,
    metricIds: seq<string>,
    extra: string)

  // ---- splitting mutually recursive metrics ----

  /** A create_metric step the splitter looks at. */
  predicate Splittable(s: Step) {
    s.tool.CreateMetric? && s.decodes && Key(s.name) != "" && s.formula.Parsed?
  }

  predicate Defines(s: Step, k: string) {
    Splittable(s) && Key(s.name) == k
  }

  /** Step j is the first to define k. */
  ghost predicate IsDefiner(steps: seq<Step>, k: string, j: nat) {
    j < |steps| && Defines(steps[j], k) && forall i :: 0 <= i < j ==> !Defines(steps[i], k)
  }

  /** The formula of step i names the metric step j defines. */
  ghost predicate Names(steps: seq<Step>, i: nat, j: nat) {
    && i < |steps| && j != i && Splittable(steps[i])
    && exists r :: r in TextRefs(steps[i].formula) && IsDefiner(steps, Key(r), j)
  }

  ghost function FormulaGraph(steps: seq<Step>): Graph<nat> {
    set i: nat, j: nat | i < |steps| && j < |steps| && Names(steps, i, j) :: (i, j)
  }

  /** Step i's formula names itself through other metrics of the plan. */
  ghost predicate OnCycle(steps: seq<Step>, i: nat) {
    Reaches(FormulaGraph(steps), i, i)
  }

  /** Where a step of the split plan comes from. */
  datatype Part = Whole | Placeholder | Fill
  datatype Tag = Tag(origin: nat, part: Part)

  function PlaceholderOf(s: Step): Step {
    s.(formula := ZERO)
  }

  function FillOf(s: Step): Step {
    Step(UpdateMetric, true, true, false, "", s.formula, s.name, "", [], [], "")
  }

  function Render(steps: seq<Step>, t: Tag): Step
    requires t.origin < |steps|
  {
    match t.part
    case Whole => steps[t.origin]
    case Placeholder => PlaceholderOf(steps[t.origin])
    case Fill => FillOf(steps[t.origin])
  }

  /** The parts of a step, in order. */
  function PartTags(i: nat, split: bool): (ts: seq<Tag>)
    ensures |ts| == if split then 2 else 1
    ensures forall k :: 0 <= k < |ts| ==> ts[k] == Tag(i, if !split then Whole else if k == 0 then Placeholder else Fill)
  {
    seq(if split then 2 else 1, k => Tag(i, if !split then Whole else if k == 0 then Placeholder else Fill))
  }

  ghost function TagsOf(steps: seq<Step>, i: nat): seq<Tag> {
    PartTags(i, OnCycle(steps, i))
  }

  predicate Within(ts: seq<Tag>, n: nat) {
    forall q :: 0 <= q < |ts| ==> ts[q].origin < n
  }

  /** The tags of the first n steps. */
  ghost function Tags(steps: seq<Step>, n: nat): (ts: seq<Tag>)
    ensures Within(ts, n)
  {
    if n == 0 then [] else Tags(steps, n - 1) + TagsOf(steps, n - 1)
  }

  function RenderAll(steps: seq<Step>, ts: seq<Tag>): (out: seq<Step>)
    requires Within(ts, |steps|)
    ensures |out| == |ts| && forall q :: 0 <= q < |ts| ==> out[q] == Render(steps, ts[q])
  {
    seq(|ts|, q requires 0 <= q < |ts| => Render(steps, ts[q]))
  }

  ghost function SplitTags(steps: seq<Step>): seq<Tag> {
    Tags(steps, |steps|)
  }

  ghost function SplitPlan(steps: seq<Step>): seq<Step> {
    RenderAll(steps, SplitTags(steps))
  }

  /** What step i becomes. */
  ghost function Parts(steps: seq<Step>, i: nat): seq<Step>
    requires i < |steps|
  {
    RenderAll(steps, TagsOf(steps, i))
  }

  lemma PartsAre(steps: seq<Step>, i: nat)
    requires i < |steps|
    ensures Parts(steps, i) == if OnCycle(steps, i) then [PlaceholderOf(steps[i]), FillOf(steps[i])] else [steps[i]]
  {
  }

  /** What the first n steps become. */
  ghost function SplitUpTo(steps: seq<Step>, n: nat): seq<Step>
    requires n <= |steps|
  {
    if n == 0 then [] else SplitUpTo(steps, n - 1) + Parts(steps, n - 1)
  }

  lemma RenderMore(steps: seq<Step>, a: seq<Tag>, b: seq<Tag>, c: seq<Tag>, was: seq<Step>, plan: seq<Step>)
    requires c == a + b && Within(a, |steps|) && Within(b, |steps|)
    requires was == RenderAll(steps, a) && plan == was + RenderAll(steps, b)
    ensures Within(c, |steps|) && plan == RenderAll(steps, c)
  {
  }

  lemma TagsNext(steps: seq<Step>, n: nat, before: seq<Tag>, ts: seq<Tag>)
    requires n > 0 && before == Tags(steps, n - 1) && ts == before + TagsOf(steps, n - 1)
    ensures ts == Tags(steps, n)
  {
  }

  lemma SplitNext(steps: seq<Step>, n: nat, was: seq<Step>, plan: seq<Step>)
    requires 0 < n <= |steps| && was == SplitUpTo(steps, n - 1) && plan == was + Parts(steps, n - 1)
    ensures plan == SplitUpTo(steps, n)
  {
  }

  lemma {:induction false} SplitStages(steps: seq<Step>, n: nat) returns (ts: seq<Tag>, plan: seq<Step>)
    requires n <= |steps|
    ensures ts == Tags(steps, n) && plan == SplitUpTo(steps, n) && Within(ts, |steps|) && plan == RenderAll(steps, ts)
  {
    if n == 0 {
      ts, plan := [], [];
    } else {
      var more := TagsOf(steps, n - 1);
      var before, was := SplitStages(steps, n - 1);
      ts, plan := before + more, was + Parts(steps, n - 1);
      RenderMore(steps, before, more, ts, was, plan);
      TagsNext(steps, n, before, ts);
      SplitNext(steps, n, was, plan);
    }
  }

  lemma SplitUpToTags(steps: seq<Step>)
    ensures SplitUpTo(steps, |steps|) == SplitPlan(steps)
  {
    var ts, plan := SplitStages(steps, |steps|);
  }

  // ---- ordering ----

  predicate Movable(s: Step) {
    s.decodes && s.typed && !s.tool.OtherTool?
  }

  predicate Creating(s: Step) {
    s.tool.CreateMetric? || s.tool.CreateGrid?
  }

  /** The step registers k as a name it creates. */
  predicate Creates(s: Step, k: string) {
    Movable(s) && Creating(s) && k != "" && Key(s.name) == k
  }

  /** What the step names. */
  function Needs(s: Step): seq<string> {
    TextRefs(s.formula) + s.metrics + s.metricIds + [s.metricId, s.gridId]
  }

  ghost predicate IsCreator(steps: seq<Step>, k: string, j: nat) {
    j < |steps| && Creates(steps[j], k) && forall i :: 0 <= i < j ==> !Creates(steps[i], k)
  }

  ghost predicate IsLastFixed(steps: seq<Step>, i: nat, j: nat) {
    j < i <= |steps| && !Movable(steps[j]) && forall k :: j < k < i ==> Movable(steps[k])
  }

  ghost predicate NeedsCreatedBy(steps: seq<Step>, i: nat, j: nat)
    requires i < |steps|
  {
    j != i && exists x :: x in Needs(steps[i]) && IsCreator(steps, Key(x), j)
  }

  /** Step i waits for step j: a movable step for whoever creates what it names and for the nearest
      fixed step above it, a fixed step for all steps above it. */
  ghost predicate MustFollow(steps: seq<Step>, i: nat, j: nat)
    requires i < |steps|
  {
    if !Movable(steps[i]) then j < i
    else IsLastFixed(steps, i, j) || NeedsCreatedBy(steps, i, j)
  }

  ghost function DepsOfStep(steps: seq<Step>, i: nat): set<nat>
    requires i < |steps|
  {
    set j: nat | j < |steps| && MustFollow(steps, i, j)
  }

  ghost function Deps(steps: seq<Step>): (deps: DepSets)
    ensures |deps| == |steps| && InRange(deps)
    ensures forall i :: 0 <= i < |steps| ==> deps[i] == DepsOfStep(steps, i)
  {
    seq(|steps|, i requires 0 <= i < |steps| => DepsOfStep(steps, i))
  }

  predicate Positional(steps: seq<Step>) {
    exists i :: 0 <= i < |steps| && steps[i].positional
  }

  function Permute<T>(s: seq<T>, order: seq<nat>): (r: seq<T>)
    requires forall k :: 0 <= k < |order| ==> order[k] < |s|
    ensures |r| == |order| && forall k :: 0 <= k < |order| ==> r[k] == s[order[k]]
  {
    seq(|order|, k requires 0 <= k < |order| => s[order[k]])
  }

  /** The permutation OrderByDependencies applies to the split plan: the sort's, or none when the
      sort gives up. */
  ghost function FinalOrder(split: seq<Step>): (o: seq<nat>)
    ensures |o| == |split| && Distinct(o) && forall k :: 0 <= k < |o| ==> o[k] < |split|
  {
    SortSound(Deps(split));
    match Sort(Deps(split))
    case None => Upto(|split|)
    case Some(o) => o
  }

  /** What OrderByDependencies returns. */
  ghost function Ordered(steps: seq<Step>): seq<Step> {
    if Positional(steps) then steps
    else Permute(SplitPlan(steps), FinalOrder(SplitPlan(steps)))
  }

  /** The provenance of each step of Ordered. */
  ghost function OrderedTags(steps: seq<Step>): seq<Tag> {
    Permute(SplitTags(steps), FinalOrder(SplitPlan(steps)))
  }

  // ---- facts about tags ----

  /** A tag is valid when it splits exactly the steps on a cycle. */
  ghost predicate Valid(steps: seq<Step>, t: Tag) {
    t.origin < |steps| && (t.part.Whole? <==> !OnCycle(steps, t.origin))
  }

  ghost predicate Before(a: Tag, b: Tag) {
    a.origin < b.origin || (a.origin == b.origin && a.part.Placeholder? && b.part.Fill?)
  }

  lemma {:induction false} TagsValid(steps: seq<Step>, n: nat)
    requires n <= |steps|
    ensures forall q :: 0 <= q < |Tags(steps, n)| ==> Valid(steps, Tags(steps, n)[q])
    ensures forall p, q :: 0 <= p < q < |Tags(steps, n)| ==> Before(Tags(steps, n)[p], Tags(steps, n)[q])
  {
    if n > 0 {
      TagsValid(steps, n - 1);
    }
  }

  lemma PrefixOfMore(a: seq<Tag>, b: seq<Tag>, c: seq<Tag>, d: seq<Tag>)
    requires a <= b && d == b + c
    ensures a <= d
  {
  }

  lemma {:induction false} TagsPrefix(steps: seq<Step>, m: nat, n: nat)
    requires m <= n
    ensures Tags(steps, m) <= Tags(steps, n)
  {
    if m < n {
      TagsPrefix(steps, m, n - 1);
      PrefixOfMore(Tags(steps, m), Tags(steps, n - 1), TagsOf(steps, n - 1), Tags(steps, n));
    }
  }

  /** Where the split plan holds what step i became. */
  lemma PlaceOf(steps: seq<Step>, i: nat) returns (q: nat)
    requires i < |steps|
    ensures q < |SplitTags(steps)|
    ensures !OnCycle(steps, i) ==> SplitTags(steps)[q] == Tag(i, Whole)
    ensures OnCycle(steps, i) ==> q + 1 < |SplitTags(steps)| && SplitTags(steps)[q] == Tag(i, Placeholder)
                                  && SplitTags(steps)[q + 1] == Tag(i, Fill)
  {
    q := |Tags(steps, i)|;
    TagsPrefix(steps, i + 1, |steps|);
  }

  lemma SplitTagsDistinct(steps: seq<Step>)
    ensures Distinct(SplitTags(steps))
  {
    TagsValid(steps, |steps|);
    var ts := SplitTags(steps);
    forall p, q | 0 <= p < q < |ts|
      ensures ts[p] != ts[q]
    {
      assert Before(ts[p], ts[q]);
    }
  }

  lemma PermuteDistinct<T>(s: seq<T>, o: seq<nat>)
    requires Distinct(s) && Distinct(o) && forall k :: 0 <= k < |o| ==> o[k] < |s|
    ensures Distinct(Permute(s, o))
  {
    var r := Permute(s, o);
    forall i, j | 0 <= i < j < |r|
      ensures r[i] != r[j]
    {
      assert o[i] != o[j];
    }
  }

  lemma OrderedByTags(steps: seq<Step>)
    requires !Positional(steps)
    ensures |Ordered(steps)| == |OrderedTags(steps)|
    ensures forall a :: 0 <= a < |OrderedTags(steps)| ==>
      Valid(steps, OrderedTags(steps)[a]) && Ordered(steps)[a] == Render(steps, OrderedTags(steps)[a])
    ensures Distinct(OrderedTags(steps))
  {
    TagsValid(steps, |steps|);
    SplitTagsDistinct(steps);
    PermuteDistinct(SplitTags(steps), FinalOrder(SplitPlan(steps)));
  }

  lemma OnCycleSplittable(steps: seq<Step>, i: nat)
    requires OnCycle(steps, i)
    ensures i < |steps| && Splittable(steps[i]) && TextRefs(steps[i].formula) != []
  {
    var g := FormulaGraph(steps);
    var p: seq<nat> :| IsPath(g, p) && p[0] == i && p[|p| - 1] == i;
    assert Along(g, p, 0);
    assert Names(steps, p[0], p[1]);
  }

  /** A step is split exactly when some other metric of the plan reads it and is read by it. */
  lemma SplitMeansMutual(steps: seq<Step>, i: nat)
    ensures OnCycle(steps, i) <==>
      exists j :: j != i && Reaches(FormulaGraph(steps), i, j) && Reaches(FormulaGraph(steps), j, i)
  {
    var g := FormulaGraph(steps);
    if OnCycle(steps, i) {
      var p: seq<nat> :| IsPath(g, p) && p[0] == i && p[|p| - 1] == i;
      var j := p[1];
      assert Along(g, p, 0);
      assert Names(steps, i, j);
      EdgeReaches(g, i, j);
      assert |p| > 2;
      var q := p[1..];
      forall k | 0 <= k < |q| - 1
        ensures Along(g, q, k)
      {
        assert Along(g, p, k + 1);
      }
      assert IsPath(g, q) && q[0] == j && q[|q| - 1] == i;
    }
    forall j | j != i && Reaches(g, i, j) && Reaches(g, j, i)
      ensures OnCycle(steps, i)
    {
      ReachesTrans(g, i, j, i);
    }
  }
}

/** Exactly when ordering a plan keeps its meaning, for plans in which several steps may write one
    metric. */
module PlanWriters {
  import opened Graphs
  import opened Plans
  import opened PlanMeaning
  import opened StableSort

  // ---- splitting never changes the meaning ----

  lemma {:induction false} RunAppend(a: seq<Step>, b: seq<Step>, m: Model)
    ensures Run(a + b, m) == Run(b, Run(a, m))
  {
    if b == [] {
      assert a + b == a;
    } else {
      var n := |b| - 1;
      assert (a + b)[..|a + b| - 1] == a + b[..n];
      RunAppend(a, b[..n], m);
    }
  }

  lemma RunOne(s: Step, m: Model)
    ensures Run([s], m) == Apply(s, m)
  {
    assert [s][..0] == [];
  }

  /** The parts of a step write what the step writes. */
  lemma PartsWriteTheSame(steps: seq<Step>, i: nat, m: Model)
    requires i < |steps|
    ensures Run(Parts(steps, i), m) == Apply(steps[i], m)
  {
    var s := steps[i];
    if OnCycle(steps, i) {
      OnCycleSplittable(steps, i);
      assert Parts(steps, i) == [PlaceholderOf(s)] + [FillOf(s)];
      RunAppend([PlaceholderOf(s)], [FillOf(s)], m);
      RunOne(PlaceholderOf(s), m);
      RunOne(FillOf(s), Apply(PlaceholderOf(s), m));
    } else {
      RunOne(s, m);
    }
  }

  lemma RunsAgree(a: seq<Step>, b: seq<Step>, parts: seq<Step>, s: Step, m: Model)
    requires Run(a, m) == Run(b, m) && Run(parts, Run(a, m)) == Apply(s, Run(a, m))
    ensures Run(a + parts, m) == Run(b + [s], m)
  {
    RunAppend(a, parts, m);
    RunAppend(b, [s], m);
    RunOne(s, Run(b, m));
  }

  lemma PrefixSnoc<T>(s: seq<T>, n: nat)
    requires 0 < n <= |s|
    ensures s[..n] == s[..n - 1] + [s[n - 1]]
  {
  }

  lemma {:induction false} SplitPrefixRuns(steps: seq<Step>, n: nat, m: Model)
    requires n <= |steps|
    ensures Run(SplitUpTo(steps, n), m) == Run(steps[..n], m)
  {
    if n > 0 {
      SplitPrefixRuns(steps, n - 1, m);
      PartsWriteTheSame(steps, n - 1, Run(SplitUpTo(steps, n - 1), m));
      RunsAgree(SplitUpTo(steps, n - 1), steps[..n - 1], Parts(steps, n - 1), steps[n - 1], m);
      PrefixSnoc(steps, n);
    }
  }

  /** Splitting a plan keeps its meaning, whatever the plan. */
  lemma SplitKeepsMeaning(steps: seq<Step>, m: Model)
    ensures Run(SplitPlan(steps), m) == Run(steps, m)
  {
    SplitPrefixRuns(steps, |steps|, m);
    SplitUpToTags(steps);
    assert steps[..|steps|] == steps;
  }

  // ---- sorting: the last word on a metric ----

  /** Step w has the last word on metric k once the plan is sorted: it lands behind every other
      writer. */
  ghost predicate LastWord(steps: seq<Step>, k: string, w: nat)
    requires !Cyclic(EdgesOf(Deps(steps)))
  {
    && w < |steps| && Written(steps[w]) == k
    && forall v :: 0 <= v < |steps| && v != w && Written(steps[v]) == k ==> Behind(Deps(steps), w, v)
  }

  /** Whoever has the last word after sorting agrees with the last writer before. */
  ghost predicate LastWordsAgree(steps: seq<Step>)
    requires !Cyclic(EdgesOf(Deps(steps)))
  {
    forall k, w: nat, l: nat :: k != "" && LastWord(steps, k, w) && LastWriter(steps, k, l) ==>
      steps[w].formula == steps[l].formula
  }

  ghost function Sorted(steps: seq<Step>): seq<Step> {
    Permute(steps, FinalOrder(steps))
  }

  lemma PlacesArePairwise(steps: seq<Step>, a: nat, b: nat)
    requires !Cyclic(EdgesOf(Deps(steps))) && a < |steps| && b < |steps|
    ensures Behind(Deps(steps), FinalOrder(steps)[b], FinalOrder(steps)[a]) <==> a < b
  {
    SortGivesUpIffCyclic(Deps(steps));
    SortSound(Deps(steps));
    OrderIsPairwise(Deps(steps), a, b);
  }

  /** The last writer of the sorted plan is the step with the last word. */
  lemma LastWriterHasLastWord(steps: seq<Step>, k: string, a: nat)
    requires !Cyclic(EdgesOf(Deps(steps))) && LastWriter(Sorted(steps), k, a)
    ensures LastWord(steps, k, FinalOrder(steps)[a])
  {
    var o := FinalOrder(steps);
    forall v | 0 <= v < |steps| && v != o[a] && Written(steps[v]) == k
      ensures Behind(Deps(steps), o[a], v)
    {
      var c := PlacedAt(steps, v);
      assert Written(Sorted(steps)[c]) == k;
      PlacesArePairwise(steps, c, a);
    }
  }

  lemma LastWordIsUnique(steps: seq<Step>, k: string, v: nat, w: nat)
    requires !Cyclic(EdgesOf(Deps(steps))) && LastWord(steps, k, v) && LastWord(steps, k, w)
    ensures v == w
  {
    if v != w {
      BehindOneWay(Deps(steps), v, w);
    }
  }

  /** A metric the plan writes ends with the formula of the step that has the last word. */
  lemma SortedGives(steps: seq<Step>, m: Model, k: string, w: nat)
    requires !Cyclic(EdgesOf(Deps(steps))) && k != "" && LastWord(steps, k, w)
    ensures k in Run(Sorted(steps), m) && Run(Sorted(steps), m)[k] == steps[w].formula
  {
    var at := PlacedAt(steps, w);
    var a := LastWriterExists(Sorted(steps), at);
    LastWriterHasLastWord(steps, k, a);
    LastWordIsUnique(steps, k, w, FinalOrder(steps)[a]);
    RunLast(Sorted(steps), m, k, a);
  }

  lemma LastWordExists(steps: seq<Step>, i: nat) returns (w: nat)
    requires !Cyclic(EdgesOf(Deps(steps))) && i < |steps|
    ensures LastWord(steps, Written(steps[i]), w)
  {
    var at := PlacedAt(steps, i);
    var a := LastWriterExists(Sorted(steps), at);
    LastWriterHasLastWord(steps, Written(steps[i]), a);
    w := FinalOrder(steps)[a];
  }

  lemma UnwrittenKept(steps: seq<Step>, m: Model, k: string)
    requires forall i :: 0 <= i < |steps| ==> Written(steps[i]) == "" || Written(steps[i]) != k
    ensures k in Run(Sorted(steps), m) <==> k in Run(steps, m)
    ensures k in Run(steps, m) ==> Run(Sorted(steps), m)[k] == Run(steps, m)[k]
  {
    RunUntouched(Sorted(steps), m, k);
    RunUntouched(steps, m, k);
  }

  lemma WrittenKept(steps: seq<Step>, m: Model, i: nat)
    requires !Cyclic(EdgesOf(Deps(steps))) && LastWordsAgree(steps) && i < |steps| && Written(steps[i]) != ""
    ensures var k := Written(steps[i]);
      k in Run(Sorted(steps), m) && k in Run(steps, m) && Run(Sorted(steps), m)[k] == Run(steps, m)[k]
  {
    var k := Written(steps[i]);
    var l := LastWriterExists(steps, i);
    var w := LastWordExists(steps, i);
    RunLast(steps, m, k, l);
    SortedGives(steps, m, k, w);
  }

  /** When the dependencies have no cycle, sorting keeps the meaning exactly when whoever has the last
      word on a metric agrees with its last writer. */
  lemma SortKeepsMeaningIff(steps: seq<Step>, m: Model)
    requires !Cyclic(EdgesOf(Deps(steps)))
    ensures Run(Sorted(steps), m) == Run(steps, m) <==> LastWordsAgree(steps)
  {
    if LastWordsAgree(steps) {
      forall k: string
        ensures k in Run(Sorted(steps), m) <==> k in Run(steps, m)
        ensures k in Run(steps, m) ==> Run(Sorted(steps), m)[k] == Run(steps, m)[k]
      {
        if i :| 0 <= i < |steps| && Written(steps[i]) == k && k != "" {
          WrittenKept(steps, m, i);
        } else {
          UnwrittenKept(steps, m, k);
        }
      }
    } else {
      var k, w: nat, l: nat :| k != "" && LastWord(steps, k, w) && LastWriter(steps, k, l)
        && steps[w].formula != steps[l].formula;
      SortedGives(steps, m, k, w);
      RunLast(steps, m, k, l);
    }
  }

  /** Ordering keeps the meaning of a plan exactly when it leaves the plan alone, the dependencies of
      the split plan have a cycle, or the last words agree. */
  lemma OrderKeepsMeaningIff(steps: seq<Step>, m: Model)
    ensures Run(Ordered(steps), m) == Run(steps, m) <==>
      Positional(steps) || Cyclic(EdgesOf(Deps(SplitPlan(steps)))) || LastWordsAgree(SplitPlan(steps))
  {
    if !Positional(steps) {
      var split := SplitPlan(steps);
      SplitKeepsMeaning(steps, m);
      SortGivesUpIffCyclic(Deps(split));
      if Cyclic(EdgesOf(Deps(split))) {
        assert Ordered(steps) == split;
      } else {
        SortKeepsMeaningIff(split, m);
      }
    }
  }

  /** An earlier writer has the last word over the last one only if it needs, directly or through
      others, a step that stands at or after it. */
  lemma LastWordWaits(steps: seq<Step>, k: string, w: nat, l: nat)
    requires !Cyclic(EdgesOf(Deps(steps))) && LastWord(steps, k, w) && LastWriter(steps, k, l) && w != l
    ensures w < l && exists e :: e >= l && Reaches(EdgesOf(Deps(steps)), w, e)
  {
    assert Behind(Deps(steps), w, l);
    BehindWaits(Deps(steps), w, l);
  }
}

/** The per-course computations shared by every variant of the program,
    stated over a course's list of assignments: the category group totals,
    the pass/fail progression check and the resubmission candidates. */
module Grading {
  import opened Grades
  import opened Sequences

  /** The items whose `type` is exactly `t`, in insertion order. */
  function OfType(xs: seq<Assignment>, t: string): (r: seq<Assignment>)
    ensures forall a :: a in r <==> a in xs && TypeOf(a) == t
    ensures IsSubsequence(r, xs)
  {
    if xs == [] then []
    else if TypeOf(xs[0]) == t then [xs[0]] + OfType(xs[1..], t)
    else OfType(xs[1..], t)
  }

  /** The items that belong to neither grading category. */
  function Ungrouped(xs: seq<Assignment>): (r: seq<Assignment>)
    ensures forall a :: a in r <==> a in xs && TypeOf(a) != FORMATIVE && TypeOf(a) != SUMMATIVE
    ensures IsSubsequence(r, xs)
  {
    if xs == [] then []
    else if TypeOf(xs[0]) != FORMATIVE && TypeOf(xs[0]) != SUMMATIVE then [xs[0]] + Ungrouped(xs[1..])
    else Ungrouped(xs[1..])
  }

  lemma {:induction false} OfTypeAppend(xs: seq<Assignment>, ys: seq<Assignment>, t: string)
    ensures OfType(xs + ys, t) == OfType(xs, t) + OfType(ys, t)
  {
    if xs == [] {
      assert xs + ys == ys;
    } else {
      assert (xs + ys)[1..] == xs[1..] + ys;
      OfTypeAppend(xs[1..], ys, t);
    }
  }

  /** How often a value occurs among the items of type `t`: as often as in
      the whole list when it has that type, never otherwise. */
  lemma {:induction false} OfTypeCount(xs: seq<Assignment>, t: string, a: Assignment)
    ensures multiset(OfType(xs, t))[a] == if TypeOf(a) == t then multiset(xs)[a] else 0
  {
    if xs != [] {
      OfTypeCount(xs[1..], t, a);
      assert xs == [xs[0]] + xs[1..];
    }
  }

  lemma {:induction false} OfTypePermutation(xs: seq<Assignment>, ys: seq<Assignment>, t: string)
    requires multiset(xs) == multiset(ys)
    ensures multiset(OfType(xs, t)) == multiset(OfType(ys, t))
  {
    forall a
      ensures multiset(OfType(xs, t))[a] == multiset(OfType(ys, t))[a]
    {
      OfTypeCount(xs, t, a);
      OfTypeCount(ys, t, a);
    }
  }

  /** The two category groups and the ungrouped rest split the assignment
      list: every item lands in exactly one of the three, as often as it
      occurs. */
  lemma {:induction false} CategoriesPartition(xs: seq<Assignment>)
    ensures multiset(OfType(xs, FORMATIVE)) + multiset(OfType(xs, SUMMATIVE)) + multiset(Ungrouped(xs))
            == multiset(xs)
  {
    forall a
      ensures (multiset(OfType(xs, FORMATIVE)) + multiset(OfType(xs, SUMMATIVE)) + multiset(Ungrouped(xs)))[a]
              == multiset(xs)[a]
    {
      OfTypeCount(xs, FORMATIVE, a);
      OfTypeCount(xs, SUMMATIVE, a);
      UngroupedCount(xs, a);
    }
  }

  lemma {:induction false} UngroupedCount(xs: seq<Assignment>, a: Assignment)
    ensures multiset(Ungrouped(xs))[a]
            == if TypeOf(a) != FORMATIVE && TypeOf(a) != SUMMATIVE then multiset(xs)[a] else 0
  {
    if xs != [] {
      UngroupedCount(xs[1..], a);
      assert xs == [xs[0]] + xs[1..];
    }
  }

  /** `calculate_group_score`: the weight total and weighted-score total of
      the items whose `type` equals `t`. */
  datatype GroupTotals = GroupTotals(weight: real, weightedScore: real)

  function CalculateGroupScore(xs: seq<Assignment>, t: string): (r: GroupTotals)
    ensures r.weight == Sum(OfType(xs, t), WeightOf)
    ensures r.weightedScore == Sum(OfType(xs, t), GetWeightedScore)
  {
    if xs == [] then GroupTotals(0.0, 0.0)
    else
      var rest := CalculateGroupScore(xs[1..], t);
      if TypeOf(xs[0]) == t then
        GroupTotals(rest.weight + xs[0].weight, rest.weightedScore + GetWeightedScore(xs[0]))
      else rest
  }

  /** Group totals do not depend on the order the assignments were added in. */
  lemma {:induction false} GroupScorePermutation(xs: seq<Assignment>, ys: seq<Assignment>, t: string)
    requires multiset(xs) == multiset(ys)
    ensures CalculateGroupScore(xs, t) == CalculateGroupScore(ys, t)
  {
    OfTypePermutation(xs, ys, t);
    SumPermutation(OfType(xs, t), OfType(ys, t), WeightOf);
    SumPermutation(OfType(xs, t), OfType(ys, t), GetWeightedScore);
  }

  /** An item of another type, wherever it stands, contributes nothing to a
      group's totals; one of the group's type adds exactly its weight and
      weighted score. */
  lemma {:induction false} GroupScoreInsert(xs: seq<Assignment>, a: Assignment, ys: seq<Assignment>, t: string)
    ensures TypeOf(a) != t ==> CalculateGroupScore(xs + [a] + ys, t) == CalculateGroupScore(xs + ys, t)
    ensures TypeOf(a) == t ==>
      CalculateGroupScore(xs + [a] + ys, t).weight == CalculateGroupScore(xs + ys, t).weight + a.weight
    ensures TypeOf(a) == t ==>
      CalculateGroupScore(xs + [a] + ys, t).weightedScore
      == CalculateGroupScore(xs + ys, t).weightedScore + GetWeightedScore(a)
  {
    OfTypeAppend(xs + [a], ys, t);
    OfTypeAppend(xs, [a], t);
    OfTypeAppend(xs, ys, t);
    assert [a][1..] == [];
    var fx, fa, fy := OfType(xs, t), OfType([a], t), OfType(ys, t);
    SumAppend(fx + fa, fy, WeightOf);
    SumAppend(fx, fa, WeightOf);
    SumAppend(fx, fy, WeightOf);
    SumAppend(fx + fa, fy, GetWeightedScore);
    SumAppend(fx, fa, GetWeightedScore);
    SumAppend(fx, fy, GetWeightedScore);
    if TypeOf(a) == t {
      assert fa == [a];
      assert fa[1..] == [];
    } else {
      assert fa == [];
      assert fx + fa == fx;
    }
  }

  /** The two groups and the ungrouped items together make up the course
      totals; with non-negative weights the two groups never exceed them. */
  lemma {:induction false} GroupTotalsAddUp(xs: seq<Assignment>)
    ensures CalculateGroupScore(xs, FORMATIVE).weight + CalculateGroupScore(xs, SUMMATIVE).weight
            + Sum(Ungrouped(xs), WeightOf) == Sum(xs, WeightOf)
    ensures CalculateGroupScore(xs, FORMATIVE).weightedScore + CalculateGroupScore(xs, SUMMATIVE).weightedScore
            + Sum(Ungrouped(xs), GetWeightedScore) == Sum(xs, GetWeightedScore)
    ensures (forall i :: 0 <= i < |xs| ==> 0.0 <= xs[i].weight) ==>
            CalculateGroupScore(xs, FORMATIVE).weight + CalculateGroupScore(xs, SUMMATIVE).weight
            <= Sum(xs, WeightOf)
  {
    var f, s, u := OfType(xs, FORMATIVE), OfType(xs, SUMMATIVE), Ungrouped(xs);
    CategoriesPartition(xs);
    assert multiset(f + s + u) == multiset(xs);
    SumPermutation(f + s + u, xs, WeightOf);
    SumPermutation(f + s + u, xs, GetWeightedScore);
    SumAppend(f + s, u, WeightOf);
    SumAppend(f, s, WeightOf);
    SumAppend(f + s, u, GetWeightedScore);
    SumAppend(f, s, GetWeightedScore);
    if forall i :: 0 <= i < |xs| ==> 0.0 <= xs[i].weight {
      forall i | 0 <= i < |u|
        ensures 0.0 <= u[i].weight
      {
        assert u[i] in u;
      }
      WeightsNonNegative(u);
    }
  }

  const FORMATIVE_PASS_MARK: real := 30.0
  const SUMMATIVE_PASS_MARK: real := 20.0

  /** `check_progression`'s result: (passed, formative_total, summative_total). */
  datatype Progression = Progression(passed: bool, formativeTotal: real, summativeTotal: real)

  /** `check_progression`: each group total is the zero-guarded percentage
      of the group's weighted score over its weight; the course passes iff
      both totals reach their (inclusive) pass marks. */
  function CheckProgression(xs: seq<Assignment>): (p: Progression)
    ensures p.formativeTotal == WeightedMean(OfType(xs, FORMATIVE))
    ensures p.summativeTotal == WeightedMean(OfType(xs, SUMMATIVE))
    ensures CalculateGroupScore(xs, FORMATIVE).weight == 0.0 ==> p.formativeTotal == 0.0
    ensures CalculateGroupScore(xs, SUMMATIVE).weight == 0.0 ==> p.summativeTotal == 0.0
    ensures p.passed <==> p.formativeTotal >= FORMATIVE_PASS_MARK && p.summativeTotal >= SUMMATIVE_PASS_MARK
  {
    var formative := CalculateGroupScore(xs, FORMATIVE);
    var summative := CalculateGroupScore(xs, SUMMATIVE);
    var formativeTotal := Percent(formative.weightedScore, formative.weight);
    var summativeTotal := Percent(summative.weightedScore, summative.weight);
    PercentIsWeightedMean(OfType(xs, FORMATIVE));
    PercentIsWeightedMean(OfType(xs, SUMMATIVE));
    Progression(formativeTotal >= FORMATIVE_PASS_MARK && summativeTotal >= SUMMATIVE_PASS_MARK,
                formativeTotal, summativeTotal)
  }

  lemma {:induction false} OfTypeNone(xs: seq<Assignment>, t: string)
    requires forall i :: 0 <= i < |xs| ==> TypeOf(xs[i]) != t
    ensures OfType(xs, t) == []
  {
    if xs != [] {
      OfTypeNone(xs[1..], t);
    }
  }

  /** A course with no Summative item has a summative total of 0 and so
      never passes, whatever its formative work. */
  lemma {:induction false} NoSummativeNeverPasses(xs: seq<Assignment>)
    requires forall i :: 0 <= i < |xs| ==> TypeOf(xs[i]) != SUMMATIVE
    ensures CheckProgression(xs).summativeTotal == 0.0
    ensures !CheckProgression(xs).passed
  {
    OfTypeNone(xs, SUMMATIVE);
  }

  /** With scores on the 0..100 scale and non-negative weights, both group
      totals are percentages in 0..100. */
  lemma {:induction false} ProgressionBounds(xs: seq<Assignment>)
    requires InRange(xs)
    ensures 0.0 <= CheckProgression(xs).formativeTotal <= 100.0
    ensures 0.0 <= CheckProgression(xs).summativeTotal <= 100.0
  {
    var f, s := OfType(xs, FORMATIVE), OfType(xs, SUMMATIVE);
    forall i | 0 <= i < |f|
      ensures 0.0 <= f[i].score <= 100.0 && 0.0 <= f[i].weight
    {
      assert f[i] in f;
    }
    forall i | 0 <= i < |s|
      ensures 0.0 <= s[i].score <= 100.0 && 0.0 <= s[i].weight
    {
      assert s[i] in s;
    }
    WeightedMeanBounds(f, 0.0, 100.0);
    WeightedMeanBounds(s, 0.0, 100.0);
  }

  const RESUBMISSION_BELOW: real := 50.0

  /** A Formative item scoring strictly below 50 may be resubmitted. */
  predicate Resubmittable(a: Assignment)
  {
    a.score < RESUBMISSION_BELOW && TypeOf(a) == FORMATIVE
  }

  /** `get_resubmission_candidates`: the names of the resubmittable items,
      one per item, in insertion order. */
  function GetResubmissionCandidates(xs: seq<Assignment>): (r: seq<string>)
    ensures IsSubsequence(r, Names(xs))
  {
    if xs == [] then []
    else
      assert Names(xs)[1..] == Names(xs[1..]);
      if Resubmittable(xs[0]) then [xs[0].name] + GetResubmissionCandidates(xs[1..])
      else GetResubmissionCandidates(xs[1..])
  }

  /** A name is a candidate iff some resubmittable item carries it. */
  lemma {:induction false} CandidateMembership(xs: seq<Assignment>, n: string)
    ensures n in GetResubmissionCandidates(xs)
            <==> exists i :: 0 <= i < |xs| && xs[i].name == n && Resubmittable(xs[i])
  {
    if xs != [] {
      CandidateMembership(xs[1..], n);
      if exists i :: 0 <= i < |xs[1..]| && xs[1..][i].name == n && Resubmittable(xs[1..][i]) {
        var i :| 0 <= i < |xs[1..]| && xs[1..][i].name == n && Resubmittable(xs[1..][i]);
        assert xs[i + 1] == xs[1..][i];
      }
      if exists i :: 0 <= i < |xs| && xs[i].name == n && Resubmittable(xs[i]) {
        var i :| 0 <= i < |xs| && xs[i].name == n && Resubmittable(xs[i]);
        if i > 0 {
          assert xs[1..][i - 1] == xs[i];
        }
      }
    }
  }

  /** The candidate list names the resubmittable items, one entry per item
      and in the same order. */
  lemma {:induction false} CandidatesNameEligible(xs: seq<Assignment>)
    ensures GetResubmissionCandidates(xs) == Names(Eligible(xs))
  {
    if xs != [] {
      CandidatesNameEligible(xs[1..]);
    }
  }

  /** Every resubmittable item is eligible as often as it occurs, and no
      other item is: duplicates are kept, as the comprehension keeps them. */
  lemma {:induction false} EligibleCount(xs: seq<Assignment>, a: Assignment)
    ensures multiset(Eligible(xs))[a] == if Resubmittable(a) then multiset(xs)[a] else 0
  {
    if xs != [] {
      EligibleCount(xs[1..], a);
      assert xs == [xs[0]] + xs[1..];
    }
  }

  /** There are never more candidates than assignments. */
  lemma {:induction false} CandidatesAtMostItems(xs: seq<Assignment>)
    ensures |GetResubmissionCandidates(xs)| <= |xs|
  {
    SubsequenceLength(GetResubmissionCandidates(xs), Names(xs));
  }

  /** The resubmittable items themselves, in insertion order. */
  function Eligible(xs: seq<Assignment>): (r: seq<Assignment>)
    ensures forall a :: a in r <==> a in xs && Resubmittable(a)
    ensures IsSubsequence(r, xs)
  {
    if xs == [] then []
    else if Resubmittable(xs[0]) then [xs[0]] + Eligible(xs[1..])
    else Eligible(xs[1..])
  }
}

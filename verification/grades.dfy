/** One graded assignment and the arithmetic over sequences of them: the
    weighted score of a single item, sums of a per-item quantity, the
    zero-guarded percentage the course and student use, and the
    weight-averaged mean of scores that those percentages turn out to be.
    Scores and weights are exact reals. */
module Grades {

  /** The assignment's `type` string as a tagged variant. `Other` carries any
      string the code does not treat as one of the two grading categories. */
  datatype Kind = Formative | Summative | Other(text: string)

  const FORMATIVE: string := "Formative"
  const SUMMATIVE: string := "Summative"

  /** The string the source stores in `assignment.type`. */
  function Label(k: Kind): string
  {
    match k
    case Formative => FORMATIVE
    case Summative => SUMMATIVE
    case Other(s) => s
  }

  /** The tag an assignment built with type string `s` gets. */
  function KindOf(s: string): (k: Kind)
    ensures Label(k) == s
    ensures k.Other? <==> s != FORMATIVE && s != SUMMATIVE
  {
    if s == FORMATIVE then Formative
    else if s == SUMMATIVE then Summative
    else Other(s)
  }

  /** A tag in its unique form: `Other` never spells one of the categories. */
  predicate Canonical(k: Kind)
  {
    k.Other? ==> k.text != FORMATIVE && k.text != SUMMATIVE
  }

  /** On canonical tags, comparing tags is comparing the stored strings, so
      matching on the variant agrees with the source's string comparison. */
  lemma LabelInjective(j: Kind, k: Kind)
    requires Canonical(j) && Canonical(k)
    ensures Label(j) == Label(k) <==> j == k
    ensures KindOf(Label(k)) == k
  {
  }

  datatype Assignment = Assignment(name: string, score: real, weight: real, kind: Kind)

  /** `assignment.type`. */
  function TypeOf(a: Assignment): string
  {
    Label(a.kind)
  }

  function WeightOf(a: Assignment): real
  {
    a.weight
  }

  function ScoreTimesWeight(a: Assignment): real
  {
    a.score * a.weight
  }

  /** `get_weighted_score`: the share of the item's weight its score earns.
      For a score on the 0..100 scale and a non-negative weight it lies
      between 0 and the weight itself. */
  function GetWeightedScore(a: Assignment): (r: real)
    ensures r * 100.0 == a.score * a.weight
    ensures 0.0 <= a.score <= 100.0 && 0.0 <= a.weight ==> 0.0 <= r <= a.weight
  {
    assert 0.0 <= a.score <= 100.0 && 0.0 <= a.weight ==> a.score * a.weight <= 100.0 * a.weight by {
      if 0.0 <= a.score <= 100.0 && 0.0 <= a.weight {
        MulNonNegative(100.0 - a.score, a.weight);
      }
    }
    a.score * a.weight / 100.0
  }

  lemma MulNonNegative(x: real, y: real)
    requires 0.0 <= x && 0.0 <= y
    ensures 0.0 <= x * y
  {
  }

  /** Every score is on the 0..100 scale and no weight is negative. */
  predicate InRange(xs: seq<Assignment>)
  {
    forall i :: 0 <= i < |xs| ==> 0.0 <= xs[i].score <= 100.0 && 0.0 <= xs[i].weight
  }

  /** The total of `f` over the items, in sequence order. */
  function Sum(xs: seq<Assignment>, f: Assignment -> real): real
  {
    if xs == [] then 0.0 else f(xs[0]) + Sum(xs[1..], f)
  }

  /** The names of the items, in order. */
  function Names(xs: seq<Assignment>): (r: seq<string>)
    ensures |r| == |xs|
    ensures forall i :: 0 <= i < |xs| ==> r[i] == xs[i].name
  {
    if xs == [] then [] else [xs[0].name] + Names(xs[1..])
  }

  /** Reference definition: the weight-averaged mean of the scores, 0 when
      the weights add up to 0. */
  function WeightedMean(xs: seq<Assignment>): real
  {
    var w := Sum(xs, WeightOf);
    if w == 0.0 then 0.0 else Sum(xs, ScoreTimesWeight) / w
  }

  /** `part / whole * 100 if whole else 0`: the zero-guarded percentage used
      for the group totals and the GPA. */
  function Percent(part: real, whole: real): (r: real)
    ensures whole == 0.0 ==> r == 0.0
    ensures whole != 0.0 ==> r * whole == part * 100.0
  {
    if whole != 0.0 then part / whole * 100.0 else 0.0
  }

  lemma {:induction false} SumAppend(xs: seq<Assignment>, ys: seq<Assignment>, f: Assignment -> real)
    ensures Sum(xs + ys, f) == Sum(xs, f) + Sum(ys, f)
  {
    if xs == [] {
      assert xs + ys == ys;
    } else {
      assert (xs + ys)[1..] == xs[1..] + ys;
      SumAppend(xs[1..], ys, f);
    }
  }

  /** Taking one item out of a sequence takes its value out of the sum. */
  lemma {:induction false} SumRemove(ys: seq<Assignment>, j: nat, f: Assignment -> real)
    requires j < |ys|
    ensures Sum(ys, f) == f(ys[j]) + Sum(ys[..j] + ys[j + 1..], f)
  {
    assert ys == ys[..j] + ([ys[j]] + ys[j + 1..]);
    SumAppend(ys[..j], [ys[j]] + ys[j + 1..], f);
    assert ([ys[j]] + ys[j + 1..])[1..] == ys[j + 1..];
    SumAppend(ys[..j], ys[j + 1..], f);
  }

  /** A sum does not depend on the order of the items. */
  lemma {:induction false} SumPermutation(xs: seq<Assignment>, ys: seq<Assignment>, f: Assignment -> real)
    requires multiset(xs) == multiset(ys)
    ensures Sum(xs, f) == Sum(ys, f)
  {
    if xs == [] {
      assert |ys| == |multiset(ys)| == 0;
    } else {
      var x := xs[0];
      assert x in multiset(ys);
      var j :| 0 <= j < |ys| && ys[j] == x;
      var rest := ys[..j] + ys[j + 1..];
      RemoveMatching(xs, ys, j);
      SumPermutation(xs[1..], rest, f);
      SumRemove(ys, j, f);
    }
  }

  /** Two permutations of each other stay permutations of each other when the
      first item of one and a matching item of the other are removed. */
  lemma {:induction false} RemoveMatching<T>(xs: seq<T>, ys: seq<T>, j: nat)
    requires multiset(xs) == multiset(ys)
    requires xs != [] && j < |ys| && ys[j] == xs[0]
    ensures multiset(xs[1..]) == multiset(ys[..j] + ys[j + 1..])
  {
    var x := xs[0];
    var rest := ys[..j] + ys[j + 1..];
    assert xs == [x] + xs[1..];
    assert ys == ys[..j] + [x] + ys[j + 1..];
    assert multiset(ys) == multiset(ys[..j]) + multiset{x} + multiset(ys[j + 1..]);
    assert multiset(xs) == multiset{x} + multiset(xs[1..]);
    assert multiset(rest) == multiset(ys[..j]) + multiset(ys[j + 1..]);
    forall z
      ensures multiset(xs[1..])[z] == multiset(rest)[z]
    {
      assert multiset(xs)[z] == multiset{x}[z] + multiset(xs[1..])[z];
      assert multiset(ys)[z] == multiset(ys[..j])[z] + multiset{x}[z] + multiset(ys[j + 1..])[z];
    }
  }

  /** Summing weighted scores is summing score * weight, scaled by 1/100. */
  lemma {:induction false} SumWeightedScores(xs: seq<Assignment>)
    ensures Sum(xs, GetWeightedScore) * 100.0 == Sum(xs, ScoreTimesWeight)
  {
    if xs != [] {
      SumWeightedScores(xs[1..]);
    }
  }

  /** The zero-guarded percentage of the weighted-score total over the weight
      total is exactly the weight-averaged mean of the scores. */
  lemma {:induction false} PercentIsWeightedMean(xs: seq<Assignment>)
    ensures Percent(Sum(xs, GetWeightedScore), Sum(xs, WeightOf)) == WeightedMean(xs)
  {
    var w := Sum(xs, WeightOf);
    var p := Sum(xs, GetWeightedScore);
    SumWeightedScores(xs);
    if w != 0.0 {
      QuotientScale(p, w, 100.0);
    }
  }

  /** With every score in lo..hi and no negative weight, the score-times-
      weight total lies between lo and hi times the weight total. */
  lemma {:induction false} WeightedSumBounds(xs: seq<Assignment>, lo: real, hi: real)
    requires forall i :: 0 <= i < |xs| ==> lo <= xs[i].score <= hi && 0.0 <= xs[i].weight
    ensures lo * Sum(xs, WeightOf) <= Sum(xs, ScoreTimesWeight) <= hi * Sum(xs, WeightOf)
  {
    if xs != [] {
      var a := xs[0];
      WeightedSumBounds(xs[1..], lo, hi);
      MulNonNegative(a.score - lo, a.weight);
      MulNonNegative(hi - a.score, a.weight);
    }
  }

  lemma {:induction false} WeightsNonNegative(xs: seq<Assignment>)
    requires forall i :: 0 <= i < |xs| ==> 0.0 <= xs[i].weight
    ensures 0.0 <= Sum(xs, WeightOf)
  {
    if xs != [] {
      WeightsNonNegative(xs[1..]);
    }
  }

  /** A weight-averaged mean lies within the range of the scores averaged;
      when the weights add up to 0 it is 0. */
  lemma {:induction false} WeightedMeanBounds(xs: seq<Assignment>, lo: real, hi: real)
    requires forall i :: 0 <= i < |xs| ==> lo <= xs[i].score <= hi && 0.0 <= xs[i].weight
    ensures Sum(xs, WeightOf) == 0.0 ==> WeightedMean(xs) == 0.0
    ensures Sum(xs, WeightOf) != 0.0 ==> lo <= WeightedMean(xs) <= hi
  {
    var w := Sum(xs, WeightOf);
    var s := Sum(xs, ScoreTimesWeight);
    if w != 0.0 {
      WeightsNonNegative(xs);
      WeightedSumBounds(xs, lo, hi);
      QuotientBounds(s, w, lo, hi, WeightedMean(xs));
    }
  }

  lemma QuotientScale(p: real, w: real, c: real)
    requires w != 0.0
    ensures p / w * c == (p * c) / w
  {
    var q := p / w;
    assert q * w == p;
    assert (q * c) * w == p * c;
  }

  lemma QuotientBounds(s: real, w: real, lo: real, hi: real, q: real)
    requires 0.0 < w && q == s / w
    requires lo * w <= s <= hi * w
    ensures lo <= q <= hi
  {
    assert q * w == s;
  }
}
